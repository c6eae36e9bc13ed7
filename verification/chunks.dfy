/** `partition`: cut a sequence into consecutive chunks of a fixed size. */
module Chunks {

  /** The chunks put back together, in order. */
  function Concat<T>(ss: seq<seq<T>>): seq<T>
  {
    if |ss| == 0 then [] else Concat(ss[..|ss| - 1]) + ss[|ss| - 1]
  }

  lemma {:induction false} ConcatCons<T>(s: seq<T>, ss: seq<seq<T>>)
    ensures Concat([s] + ss) == s + Concat(ss)
    decreases |ss|
  {
    if |ss| > 0 {
      var init := ss[..|ss| - 1];
      assert ([s] + ss)[..|ss|] == [s] + init;
      ConcatCons(s, init);
    }
  }

  /** Python's `math.ceil(n / c)` for `c != 0`, computed exactly. */
  function CeilDiv(n: int, c: int): (q: int)
    requires c != 0
    ensures c > 0 ==> (q - 1) * c < n <= q * c
    ensures c < 0 ==> (q - 1) * c > n >= q * c
  {
    if c > 0 then
      var q := (n + c - 1) / c;
      assert n + c - 1 == q * c + (n + c - 1) % c;
      q
    else
      var q := (-n - c - 1) / (-c);
      assert -n - c - 1 == q * (-c) + (-n - c - 1) % (-c);
      q
  }

  /** `partition(data, c)`: the slices `data[idx:idx+c]` for `idx` in `range(0, len(data), c)`.
      A step of zero makes `range` raise, so `c != 0` is required; a negative step gives an
      empty range. */
  function Partition<T>(data: seq<T>, c: int): (chunks: seq<seq<T>>)
    requires c != 0
    ensures c < 0 || |data| == 0 ==> chunks == []
    ensures c > 0 ==> (|chunks| - 1) * c < |data| <= |chunks| * c
  {
    if c < 0 then [] else PartitionFrom(data, c)
  }

  /** The slices from the front of `data` on: the first `c` items (all of them when fewer
      remain), then the chunks of what follows. */
  function PartitionFrom<T>(data: seq<T>, c: nat): (chunks: seq<seq<T>>)
    requires c > 0
    ensures |data| == 0 ==> chunks == []
    ensures (|chunks| - 1) * c < |data| <= |chunks| * c
    decreases |data|
  {
    if |data| == 0 then []
    else if |data| <= c then [data]
    else
      var rest := PartitionFrom(data[c..], c);
      assert (|rest| + 1) * c == |rest| * c + c;
      [data[..c]] + rest
  }

  /** Putting the chunks back together gives the data. */
  lemma {:induction false} PartitionConcat<T>(data: seq<T>, c: int)
    requires c > 0
    ensures Concat(Partition(data, c)) == data
    decreases |data|
  {
    if |data| > c {
      var rest := PartitionFrom(data[c..], c);
      ConcatCons(data[..c], rest);
      PartitionConcat(data[c..], c);
      assert data[..c] + data[c..] == data;
    } else if |data| > 0 {
      ConcatCons(data, []);
    }
  }

  /** Every chunk but the last holds exactly `c` items; the last holds between 1 and `c`. */
  lemma {:induction false} PartitionSizes<T>(data: seq<T>, c: int, i: nat)
    requires c > 0 && i < |Partition(data, c)|
    ensures i < |Partition(data, c)| - 1 ==> |Partition(data, c)[i]| == c
    ensures i == |Partition(data, c)| - 1 ==> 1 <= |Partition(data, c)[i]| <= c
    decreases |data|
  {
    if |data| > c && i > 0 {
      PartitionSizes(data[c..], c, i - 1);
    }
  }

  /** Chunk `i` is the slice `data[i*c : i*c + c]` the source yields for `idx == i*c`. */
  lemma {:induction false} PartitionSlice<T>(data: seq<T>, c: int, i: nat)
    requires c > 0 && i < |Partition(data, c)|
    ensures i * c < |data|
    ensures Partition(data, c)[i] == data[i * c .. if i * c + c <= |data| then i * c + c else |data|]
    decreases |data|
  {
    if |data| > c && i > 0 {
      var tail := data[c..];
      var a := (i - 1) * c;
      PartitionSlice(tail, c, i - 1);
      assert i * c == a + c;
      var e := if a + c <= |tail| then a + c else |tail|;
      assert Partition(data, c)[i] == tail[a..e];
      assert tail[a..e] == data[a + c..e + c];
    }
  }
}
