/** Python dicts as insertion-ordered sequences of key/value pairs. */
module OrderedDict {
  import opened Wrappers
  import opened UniqueSets

  function Keys<K, V>(d: seq<(K, V)>): (ks: seq<K>)
    ensures |ks| == |d|
    ensures forall i :: 0 <= i < |d| ==> ks[i] == d[i].0
  {
    seq(|d|, i requires 0 <= i < |d| => d[i].0)
  }

  /** No key occurs twice, as in every Python dict. */
  ghost predicate DistinctKeys<K, V>(d: seq<(K, V)>)
  {
    forall i, j :: 0 <= i < j < |d| ==> d[i].0 != d[j].0
  }

  /** `d[k]` (None when `k` is missing); with repeated keys the first one wins. */
  function Lookup<K(==), V>(d: seq<(K, V)>, k: K): (r: Option<V>)
    ensures r.None? <==> k !in Keys(d)
    ensures r.Some? ==> (k, r.value) in d
  {
    if |d| == 0 then None
    else if d[0].0 == k then Some(d[0].1)
    else
      assert Keys(d) == [d[0].0] + Keys(d[1..]);
      Lookup(d[1..], k)
  }

  /** In a dict without repeated keys, the entry at position `i` is what a lookup of its key finds. */
  lemma {:induction false} LookupAt<K, V>(d: seq<(K, V)>, i: nat)
    requires DistinctKeys(d)
    requires i < |d|
    ensures Lookup(d, d[i].0) == Some(d[i].1)
  {
    if i > 0 {
      LookupAt(d[1..], i - 1);
    }
  }

  /** `d[k] = v`: an existing key keeps its position and takes the new value; a new key is
      appended at the end. */
  function Put<K(==), V>(d: seq<(K, V)>, k: K, v: V): (r: seq<(K, V)>)
    ensures k in Keys(d) ==> Keys(r) == Keys(d)
    ensures k !in Keys(d) ==> Keys(r) == Keys(d) + [k]
    ensures DistinctKeys(d) ==> DistinctKeys(r)
    ensures forall e :: e in r ==> e in d || e == (k, v)
  {
    if |d| == 0 then [(k, v)]
    else if d[0].0 == k then [(k, v)] + d[1..]
    else
      var rest := Put(d[1..], k, v);
      assert Keys(d) == [d[0].0] + Keys(d[1..]);
      KeysCons(d[0], rest);
      [d[0]] + rest
  }

  lemma KeysCons<K, V>(e: (K, V), d: seq<(K, V)>)
    ensures Keys([e] + d) == [e.0] + Keys(d)
  {
  }

  /** After `d[k] = v`, looking up `k` finds `v` and every other key finds what it found before. */
  lemma {:induction false} PutLookup<K, V>(d: seq<(K, V)>, k: K, v: V, k': K)
    ensures Lookup(Put(d, k, v), k) == Some(v)
    ensures k' != k ==> Lookup(Put(d, k, v), k') == Lookup(d, k')
  {
    if |d| > 0 && d[0].0 != k {
      PutLookup(d[1..], k, v, k');
      assert Put(d, k, v)[1..] == Put(d[1..], k, v);
    }
  }

  /** Storing a key that is not there yet appends it. */
  lemma {:induction false} PutAppends<K, V>(d: seq<(K, V)>, k: K, v: V)
    requires k !in Keys(d)
    ensures Put(d, k, v) == d + [(k, v)]
  {
    if |d| > 0 {
      assert Keys(d) == [d[0].0] + Keys(d[1..]);
      PutAppends(d[1..], k, v);
      assert [d[0]] + (d[1..] + [(k, v)]) == d + [(k, v)];
    }
  }

  /** The keys from position `i` on are the key at `i` and the keys after it. */
  lemma KeysFrom<K, V>(d: seq<(K, V)>, i: nat, k: K)
    requires i < |d|
    ensures k in Keys(d[i..]) <==> k == d[i].0 || k in Keys(d[i + 1..])
  {
    assert Keys(d[i..]) == [d[i].0] + Keys(d[i + 1..]);
  }

  /** In a dict without repeated keys, the key at position `i` does not occur after it. */
  lemma DistinctRest<K, V>(d: seq<(K, V)>, i: nat)
    requires DistinctKeys(d) && i < |d|
    ensures d[i].0 !in Keys(d[i + 1..])
  {
    var ks := Keys(d[i + 1..]);
    forall s | 0 <= s < |ks|
      ensures ks[s] != d[i].0
    {
      assert ks[s] == d[i + 1 + s].0;
    }
  }

  /** The dict a comprehension builds from a stream of pairs, stored one after another
      into `acc`. */
  function FromPairs<K(==), V>(acc: seq<(K, V)>, s: seq<(K, V)>): seq<(K, V)>
    decreases |s|
  {
    if |s| == 0 then acc else Put(FromPairs(acc, s[..|s| - 1]), s[|s| - 1].0, s[|s| - 1].1)
  }

  /** The last pair of a stream is stored last. */
  lemma FromPairsSnoc<K, V>(acc: seq<(K, V)>, u: seq<(K, V)>, w: seq<(K, V)>, p: (K, V))
    requires u == w + [p]
    ensures FromPairs(acc, u) == Put(FromPairs(acc, w), p.0, p.1)
  {
    assert u[..|u| - 1] == w;
  }

  /** Storing two streams one after the other is storing their concatenation. */
  lemma {:induction false} FromPairsAppend<K, V>(acc: seq<(K, V)>, s: seq<(K, V)>, t: seq<(K, V)>)
    ensures FromPairs(acc, s + t) == FromPairs(FromPairs(acc, s), t)
    decreases |t|
  {
    if |t| == 0 {
      assert s + t == s;
    } else {
      var init := t[..|t| - 1];
      var last := t[|t| - 1];
      assert t == init + [last];
      assert s + t == (s + init) + [last];
      FromPairsAppend(acc, s, init);
      FromPairsSnoc(acc, s + t, s + init, last);
      FromPairsSnoc(FromPairs(acc, s), t, init, last);
    }
  }

  /** The built dict holds each key of the stream once, at the position of the key's first
      occurrence. */
  lemma {:induction false} FromPairsKeys<K(!new), V>(s: seq<(K, V)>)
    ensures Keys(FromPairs([], s)) == Dedup(Keys(s))
    decreases |s|
  {
    if |s| > 0 {
      var init := s[..|s| - 1];
      FromPairsKeys(init);
      assert Keys(s)[..|s| - 1] == Keys(init);
    }
  }

  /** Looking up a key of the stream finds the value of the last pair with that key; any
      other key is missing. */
  lemma {:induction false} FromPairsLookup<K, V>(s: seq<(K, V)>, k: K)
    ensures k !in Keys(s) ==> Lookup(FromPairs([], s), k) == None
    ensures k in Keys(s) ==>
      exists j :: 0 <= j < |s| && s[j].0 == k && Lookup(FromPairs([], s), k) == Some(s[j].1)
                  && forall j' :: j < j' < |s| ==> s[j'].0 != k
    decreases |s|
  {
    if |s| > 0 {
      var init := s[..|s| - 1];
      var last := s[|s| - 1];
      assert Keys(s) == Keys(init) + [last.0];
      PutLookup(FromPairs([], init), last.0, last.1, k);
      if last.0 == k {
        assert s[|s| - 1].0 == k && Lookup(FromPairs([], s), k) == Some(s[|s| - 1].1);
      } else {
        FromPairsLookup(init, k);
        if k in Keys(s) {
          var j :| 0 <= j < |init| && init[j].0 == k
            && Lookup(FromPairs([], init), k) == Some(init[j].1)
            && forall j' :: j < j' < |init| ==> init[j'].0 != k;
          assert s[j] == init[j];
          forall j' | j < j' < |s|
            ensures s[j'].0 != k
          {
            if j' < |init| {
              assert s[j'] == init[j'];
            }
          }
        }
      }
    }
  }
}
