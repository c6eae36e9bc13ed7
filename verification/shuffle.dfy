/** `shuffle_in_chunks`: a lazy Fisher–Yates shuffle of `0 .. n-1`, handed out in chunks.
    The random draws are a parameter: draw `j` is the index swapped with position `j`. */
module Shuffle {
  import opened Chunks

  /** `KeyDict[k]`: a key that was never stored reads as itself. */
  function Get(m: map<int, int>, k: int): (v: int)
  {
    if k in m then m[k] else k
  }

  /** The draws the source's random generator can produce: draw `j` lies in `[j, n)`. */
  predicate ValidDraws(n: int, draws: seq<int>)
  {
    n <= |draws| && forall j :: 0 <= j < n ==> j <= draws[j] < n
  }

  function Identity(n: nat): (p: seq<int>)
    ensures |p| == n && forall x :: 0 <= x < n ==> p[x] == x
  {
    seq(n, x => x)
  }

  /** `p[a], p[b] = p[b], p[a]`. */
  function Swap(p: seq<int>, a: nat, b: nat): seq<int>
    requires a < |p| && b < |p|
  {
    p[a := p[b]][b := p[a]]
  }

  /** The eager shuffle the lazy one stands for: the identity permutation after the swaps of
      steps `0 .. s-1`. */
  function FisherYates(n: nat, draws: seq<int>, s: nat): (p: seq<int>)
    requires ValidDraws(n, draws) && s <= n
    ensures |p| == n
  {
    if s == 0 then Identity(n) else Swap(FisherYates(n, draws, s - 1), s - 1, draws[s - 1])
  }

  /** `p` is an arrangement of `0 .. n-1`. */
  ghost predicate IsPermutation(p: seq<int>, n: nat)
  {
    multiset(p) == multiset(Identity(n))
  }

  lemma SwapPermutes(p: seq<int>, a: nat, b: nat)
    requires a < |p| && b < |p|
    ensures multiset(Swap(p, a, b)) == multiset(p)
  {
    var q := p[a := p[b]];
    assert multiset(q) == multiset(p) - multiset{p[a]} + multiset{p[b]};
    assert q[b] == p[b];
    assert multiset(q[b := p[a]]) == multiset(q) - multiset{p[b]} + multiset{p[a]};
  }

  lemma SwapKeepsPermutation(p: seq<int>, n: nat, a: nat, b: nat)
    requires a < |p| && b < |p| && IsPermutation(p, n)
    ensures IsPermutation(Swap(p, a, b), n)
  {
    SwapPermutes(p, a, b);
  }

  /** Every step of the eager shuffle keeps a permutation of `0 .. n-1`. */
  lemma {:induction false} FisherYatesPermutes(n: nat, draws: seq<int>, s: nat)
    requires ValidDraws(n, draws) && s <= n
    ensures IsPermutation(FisherYates(n, draws, s), n)
  {
    if s > 0 {
      FisherYatesPermutes(n, draws, s - 1);
      SwapKeepsPermutation(FisherYates(n, draws, s - 1), n, s - 1, draws[s - 1]);
    }
  }

  /** Positions below `s` are never touched after step `s`. */
  lemma {:induction false} FisherYatesSettled(n: nat, draws: seq<int>, s: nat, s': nat)
    requires ValidDraws(n, draws) && s <= s' <= n
    ensures FisherYates(n, draws, s')[..s] == FisherYates(n, draws, s)[..s]
    decreases s' - s
  {
    if s < s' {
      FisherYatesSettled(n, draws, s, s' - 1);
      var p := FisherYates(n, draws, s' - 1);
      assert Swap(p, s' - 1, draws[s' - 1])[..s] == p[..s];
    }
  }

  /** A permutation of `0 .. n-1` holds each of `0 .. n-1` exactly once and nothing else. */
  lemma PermutationElements(p: seq<int>, n: nat)
    requires IsPermutation(p, n)
    ensures |p| == n
    ensures forall x :: x in p <==> 0 <= x < n
    ensures forall i, j :: 0 <= i < j < |p| ==> p[i] != p[j]
  {
    assert |multiset(p)| == |multiset(Identity(n))|;
    forall x
      ensures x in p <==> 0 <= x < n
    {
      assert x in p <==> x in multiset(p);
      assert 0 <= x < n ==> Identity(n)[x] == x;
      assert x in Identity(n) <==> x in multiset(Identity(n));
    }
    forall i, j | 0 <= i < j < |p|
      ensures p[i] != p[j]
    {
      if p[i] == p[j] {
        var x := p[i];
        assert multiset(p)[x] >= 2 by {
          assert p == p[..i] + [x] + p[i + 1..j] + [x] + p[j + 1..];
        }
        IdentityOnce(n, x);
        assert false;
      }
    }
  }

  lemma {:induction false} IdentityOnce(n: nat, x: int)
    ensures multiset(Identity(n))[x] <= 1
  {
    if n > 0 {
      IdentityOnce(n - 1, x);
      assert Identity(n) == Identity(n - 1) + [n - 1];
      if x == n - 1 {
        assert x !in Identity(n - 1);
      }
    }
  }

  /** The number of chunks: `max(ceil(n / c), 1)`. */
  function ChunkCount(n: int, c: int): (count: int)
    requires c != 0
    ensures count >= 1
  {
    var q := CeilDiv(n, c);
    if q >= 1 then q else 1
  }

  /** The length of chunk `ind`: `min(c, n - c*ind)`, where a negative length gives an empty list. */
  function ChunkLength(n: int, c: int, ind: int): (len: nat)
    ensures len > 0 ==> len <= c && c * ind + len <= n
    ensures c > 0 && c * ind < n ==> len > 0
  {
    var t := if c <= n - c * ind then c else n - c * ind;
    if t >= 0 then t else 0
  }

  /** Chunk `ind` of a positive-size shuffle starts where the ones before it stopped and ends
      at `min(c*(ind+1), n)`. */
  lemma ChunkEnd(n: int, c: int, ind: int, count: int)
    requires n > 0 && c > 0 && 0 <= ind < count && count == ChunkCount(n, c)
    ensures c * ind < n
    ensures c * ind + ChunkLength(n, c, ind) == (if c * (ind + 1) <= n then c * (ind + 1) else n)
  {
    var q := CeilDiv(n, c);
    MulSign(q, c);
    assert c * ind <= c * (q - 1);
    assert c * (ind + 1) == c * ind + c;
  }

  lemma MulSign(q: int, c: int)
    ensures q <= 0 && c > 0 ==> q * c <= 0
  {
  }

  /** The chunks together cover `0 .. n-1`. */
  lemma ChunkCovers(n: int, c: int, count: int)
    requires n > 0 && c > 0 && count == ChunkCount(n, c)
    ensures c * count >= n
  {
  }

  /** One swap on the lazy map is one step of the eager shuffle: if the map reads as the
      eager permutation before step `j`, it reads as the one after, and positions below `j`
      keep their values. */
  lemma LazySwap(n: nat, draws: seq<int>, j: nat, m: map<int, int>, m': map<int, int>)
    requires ValidDraws(n, draws) && j < n
    requires forall x :: 0 <= x < n ==> Get(m, x) == FisherYates(n, draws, j)[x]
    requires m' == m[j := Get(m, draws[j])][draws[j] := Get(m, j)]
    ensures forall x :: 0 <= x < n ==> Get(m', x) == FisherYates(n, draws, j + 1)[x]
    ensures FisherYates(n, draws, j + 1)[..j + 1] == FisherYates(n, draws, j)[..j] + [Get(m', j)]
  {
    var p := FisherYates(n, draws, j);
    var d := draws[j];
    assert FisherYates(n, draws, j + 1) == Swap(p, j, d);
    forall x | 0 <= x < n
      ensures Get(m', x) == Swap(p, j, d)[x]
    {
      if x == d {
        assert Get(m', x) == Get(m, j);
      } else if x == j {
        assert Get(m', x) == Get(m, d);
      } else {
        assert Get(m', x) == Get(m, x);
      }
    }
    assert Swap(p, j, d)[..j + 1] == p[..j] + [Swap(p, j, d)[j]];
  }

  /** The lazy map reads as the eager permutation before step `j`. */
  ghost predicate Agrees(m: map<int, int>, n: int, draws: seq<int>, j: int)
  {
    0 <= j <= n && ValidDraws(n, draws) && forall x :: 0 <= x < n ==> Get(m, x) == FisherYates(n, draws, j)[x]
  }

  /** The inner loop: fill a chunk of `size` values, swapping position `j` with its draw and
      handing out what lands at `j`, for `size` consecutive positions. */
  method ShuffleChunk(n: int, draws: seq<int>, m: map<int, int>, j: int, size: nat)
    returns (values: seq<int>, m': map<int, int>, j': int)
    requires ValidDraws(n, draws)
    requires size > 0 ==> j + size <= n && Agrees(m, n, draws, j)
    ensures |values| == size && j' == j + size
    ensures size == 0 ==> m' == m
    ensures size > 0 ==> Agrees(m', n, draws, j')
    ensures size > 0 ==> FisherYates(n, draws, j')[..j'] == FisherYates(n, draws, j)[..j] + values
  {
    values := seq(size, _ => -1);
    m' := m;
    j' := j;
    var k := 0;
    while k < size
      invariant 0 <= k <= size && |values| == size && j' == j + k
      invariant k == 0 ==> m' == m
      invariant size > 0 ==> Agrees(m', n, draws, j')
      invariant size > 0 ==> FisherYates(n, draws, j')[..j'] == FisherYates(n, draws, j)[..j] + values[..k]
    {
      var d := draws[j'];
      var prior := m';
      m' := m'[j' := Get(m', d)][d := Get(m', j')];
      LazySwap(n, draws, j', prior, m');
      values := values[k := Get(m', j')];
      assert values[..k + 1] == values[..k] + [Get(m', j')];
      j' := j' + 1;
      k := k + 1;
    }
    assert values[..size] == values;
  }

  /** `shuffle_in_chunks(n, c)` with the random draws given. */
  method ShuffleInChunks(n: int, c: int, draws: seq<int>) returns (chunks: seq<seq<int>>)
    requires ValidDraws(n, draws)
    ensures n == 0 || c == 0 ==> chunks == []
    ensures n != 0 && c != 0 ==> |chunks| == ChunkCount(n, c)
    ensures forall ind :: 0 <= ind < |chunks| ==> |chunks[ind]| == ChunkLength(n, c, ind)
    ensures n > 0 && c > 0 ==> Concat(chunks) == FisherYates(n, draws, n)
    ensures n > 0 && c > 0 ==> IsPermutation(Concat(chunks), n)
  {
    if n == 0 || c == 0 {
      return [];
    }
    var pos := n > 0 && c > 0;
    var indices: map<int, int> := map[];
    var j := 0;
    chunks := [];
    var count := ChunkCount(n, c);
    var ind := 0;
    while ind < count
      invariant 0 <= ind <= count && |chunks| == ind
      invariant forall t :: 0 <= t < ind ==> |chunks[t]| == ChunkLength(n, c, t)
      invariant pos ==> j == (if c * ind <= n then c * ind else n)
      invariant !pos ==> j == 0
      invariant pos ==> Agrees(indices, n, draws, j)
      invariant pos ==> Concat(chunks) == FisherYates(n, draws, j)[..j]
    {
      var size := ChunkLength(n, c, ind);
      if pos {
        ChunkEnd(n, c, ind, count);
      }
      var values;
      values, indices, j := ShuffleChunk(n, draws, indices, j, size);
      chunks := chunks + [values];
      ind := ind + 1;
    }
    if pos {
      ChunkCovers(n, c, count);
      assert FisherYates(n, draws, n)[..n] == FisherYates(n, draws, n);
      FisherYatesPermutes(n, draws, n);
    }
  }

  lemma MulMono(x: int, y: int, c: int)
    ensures c > 0 && x <= y ==> x * c <= y * c
  {
  }

  /** Two numbers that both satisfy the defining inequalities of `ceil(n / c)` are equal. */
  lemma CeilUnique(n: int, c: int, a: int, b: int)
    requires c > 0
    requires (a - 1) * c < n <= a * c
    requires (b - 1) * c < n <= b * c
    ensures a == b
  {
    MulMono(a, b - 1, c);
    MulMono(b, a - 1, c);
  }

  /** For positive `n` and `c` the shuffled chunks have the shapes of `partition(range(n), c)`:
      as many chunks, chunk for chunk of the same length. */
  lemma ShuffleShapeIsPartition(n: int, c: int, i: int)
    requires n > 0 && c > 0
    ensures ChunkCount(n, c) == |Partition(Identity(n), c)|
    ensures 0 <= i < ChunkCount(n, c) ==> ChunkLength(n, c, i) == |Partition(Identity(n), c)[i]|
  {
    var chunks := Partition(Identity(n), c);
    CeilUnique(n, c, CeilDiv(n, c), |chunks|);
    if 0 <= i < |chunks| {
      PartitionSlice(Identity(n), c, i);
      assert i * c == c * i;
    }
  }
}
