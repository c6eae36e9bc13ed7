/** `dict_merge`: merge one dict into another, recursing where both sides hold a dict under
    the same key. The source updates `dct` in place; the model returns the updated entries. */
module DictMerge {
  import opened Wrappers
  import opened OrderedDict
  import opened ReportValue

  /** `dict_merge(dct, merge_dct)`: the entries of `dct` after the call. Keys already in
      `dct` keep their positions; new keys follow in `merge_dct`'s order. */
  function Merge(dct: seq<(Key, Value)>, merge: Value): (r: seq<(Key, Value)>)
    requires merge.Dict?
    ensures Keys(dct) <= Keys(r)
    ensures DistinctKeys(dct) ==> DistinctKeys(r)
    decreases merge, 1
  {
    MergeFrom(dct, merge, 0)
  }

  /** What `dct[k]` becomes when `merge_dct[k]` is `v` and `dct[k]` was `prior`: the recursive
      merge when both are dicts, `v` otherwise. */
  function MergedValue(prior: Option<Value>, v: Value): (r: Value)
    ensures prior.Some? && prior.value.Dict? && v.Dict? ==> r.Dict?
    ensures !(prior.Some? && prior.value.Dict? && v.Dict?) ==> r == v
    decreases v, 2
  {
    if prior.Some? && prior.value.Dict? && v.Dict? then Dict(Merge(prior.value.entries, v)) else v
  }

  /** The loop over `merge_dct.items()` from position `i` on. */
  function MergeFrom(dct: seq<(Key, Value)>, merge: Value, i: nat): (r: seq<(Key, Value)>)
    requires merge.Dict? && i <= |merge.entries|
    ensures Keys(dct) <= Keys(r)
    ensures DistinctKeys(dct) ==> DistinctKeys(r)
    decreases merge, 0, |merge.entries| - i
  {
    if i == |merge.entries| then dct
    else
      var (k, v) := merge.entries[i];
      MergeFrom(Put(dct, k, MergedValue(Lookup(dct, k), v)), merge, i + 1)
  }

  lemma {:induction false} MergeFromKeys(dct: seq<(Key, Value)>, merge: Value, i: nat, k: Key)
    requires merge.Dict? && i <= |merge.entries|
    ensures k in Keys(MergeFrom(dct, merge, i)) <==> k in Keys(dct) || k in Keys(merge.entries[i..])
    decreases |merge.entries| - i
  {
    if i < |merge.entries| {
      var k0 := merge.entries[i].0;
      var next := Put(dct, k0, MergedValue(Lookup(dct, k0), merge.entries[i].1));
      assert k in Keys(next) <==> k in Keys(dct) || k == k0;
      MergeFromStep(dct, merge, i);
      MergeFromKeys(next, merge, i + 1, k);
      KeysFrom(merge.entries, i, k);
    }
  }

  lemma {:induction false} MergeFromUntouched(dct: seq<(Key, Value)>, merge: Value, i: nat, k: Key)
    requires merge.Dict? && i <= |merge.entries|
    requires k !in Keys(merge.entries[i..])
    ensures Lookup(MergeFrom(dct, merge, i), k) == Lookup(dct, k)
    decreases |merge.entries| - i
  {
    if i < |merge.entries| {
      var (k0, v) := merge.entries[i];
      assert Keys(merge.entries[i..]) == [k0] + Keys(merge.entries[i + 1..]);
      var next := Put(dct, k0, MergedValue(Lookup(dct, k0), v));
      assert MergeFrom(dct, merge, i) == MergeFrom(next, merge, i + 1);
      PutLookup(dct, k0, MergedValue(Lookup(dct, k0), v), k);
      MergeFromUntouched(next, merge, i + 1, k);
    }
  }

  lemma MergeFromTouchedFirst(dct: seq<(Key, Value)>, merge: Value, i: nat)
    requires merge.Dict? && DistinctKeys(merge.entries)
    requires i < |merge.entries|
    ensures Lookup(MergeFrom(dct, merge, i), merge.entries[i].0) ==
      Some(MergedValue(Lookup(dct, merge.entries[i].0), merge.entries[i].1))
  {
    var (k, v) := merge.entries[i];
    var mv := MergedValue(Lookup(dct, k), v);
    var next := Put(dct, k, mv);
    assert MergeFrom(dct, merge, i) == MergeFrom(next, merge, i + 1);
    PutLookup(dct, k, mv, k);
    DistinctRest(merge.entries, i);
    MergeFromUntouched(next, merge, i + 1, k);
  }

  /** One turn of the loop. */
  lemma MergeFromStep(dct: seq<(Key, Value)>, merge: Value, i: nat)
    requires merge.Dict? && i < |merge.entries|
    ensures MergeFrom(dct, merge, i) == MergeFrom(Put(dct, merge.entries[i].0, MergedValue(Lookup(dct, merge.entries[i].0), merge.entries[i].1)), merge, i + 1)
  {
  }

  lemma {:induction false} MergeFromTouched(dct: seq<(Key, Value)>, merge: Value, i: nat, t: nat, k: Key, merged: Value)
    requires merge.Dict? && DistinctKeys(merge.entries)
    requires i <= t < |merge.entries| && k == merge.entries[t].0
    requires merged == MergedValue(Lookup(dct, k), merge.entries[t].1)
    ensures Lookup(MergeFrom(dct, merge, i), k) == Some(merged)
    decreases |merge.entries| - i
  {
    if i < t {
      var k0 := merge.entries[i].0;
      var next := Put(dct, k0, MergedValue(Lookup(dct, k0), merge.entries[i].1));
      assert Lookup(next, k) == Lookup(dct, k) by {
        PutLookup(dct, k0, MergedValue(Lookup(dct, k0), merge.entries[i].1), k);
      }
      MergeFromTouched(next, merge, i + 1, t, k, merged);
      MergeFromStep(dct, merge, i);
    } else {
      MergeFromTouchedFirst(dct, merge, i);
    }
  }

  /** After the merge, `dct` holds exactly its prior keys and those of `merge_dct`. */
  lemma MergeKeys(dct: seq<(Key, Value)>, merge: Value, k: Key)
    requires merge.Dict?
    ensures k in Keys(Merge(dct, merge)) <==> k in Keys(dct) || k in Keys(merge.entries)
  {
    MergeFromKeys(dct, merge, 0, k);
    assert merge.entries[0..] == merge.entries;
  }

  /** A key `merge_dct` does not hold keeps its prior value. */
  lemma MergeKeepsOthers(dct: seq<(Key, Value)>, merge: Value, k: Key)
    requires merge.Dict? && k !in Keys(merge.entries)
    ensures Lookup(Merge(dct, merge), k) == Lookup(dct, k)
  {
    assert merge.entries[0..] == merge.entries;
    MergeFromUntouched(dct, merge, 0, k);
  }

  /** A key `merge_dct` holds gets the recursive merge when both sides hold a dict, and
      `merge_dct`'s value otherwise. */
  lemma MergeTakesMerged(dct: seq<(Key, Value)>, merge: Value, t: nat)
    requires merge.Dict? && DistinctKeys(merge.entries) && t < |merge.entries|
    ensures var (k, v) := merge.entries[t];
      var prior := Lookup(dct, k);
      && (prior.Some? && prior.value.Dict? && v.Dict? ==>
            Lookup(Merge(dct, merge), k) == Some(Dict(Merge(prior.value.entries, v))))
      && (!(prior.Some? && prior.value.Dict? && v.Dict?) ==>
            Lookup(Merge(dct, merge), k) == Some(v))
  {
    MergeFromTouched(dct, merge, 0, t, merge.entries[t].0, MergedValue(Lookup(dct, merge.entries[t].0), merge.entries[t].1));
  }

  /** Merging into an empty dict copies `merge_dct`. */
  lemma MergeIntoEmpty(merge: Value)
    requires merge.Dict? && DistinctKeys(merge.entries)
    ensures Merge([], merge) == merge.entries
  {
    MergeIntoPrefix(merge, 0, []);
    assert merge.entries[..0] == [];
  }

  lemma {:induction false} MergeIntoPrefix(merge: Value, i: nat, acc: seq<(Key, Value)>)
    requires merge.Dict? && DistinctKeys(merge.entries) && i <= |merge.entries|
    requires acc == merge.entries[..i]
    ensures MergeFrom(acc, merge, i) == merge.entries
    decreases |merge.entries| - i
  {
    if i == |merge.entries| {
      assert acc == merge.entries;
    } else {
      var p := merge.entries[i];
      MergeIntoStep(merge, i, acc, p);
      PrefixSnoc(merge.entries, i, acc, p);
      MergeIntoPrefix(merge, i + 1, acc + [p]);
    }
  }

  lemma PrefixSnoc<T>(s: seq<T>, i: nat, acc: seq<T>, p: T)
    requires i < |s| && acc == s[..i] && p == s[i]
    ensures acc + [p] == s[..i + 1]
  {
  }

  /** Copying entry `i` of `merge_dct` into a copy of the entries before it appends it. */
  lemma MergeIntoStep(merge: Value, i: nat, acc: seq<(Key, Value)>, p: (Key, Value))
    requires merge.Dict? && DistinctKeys(merge.entries) && i < |merge.entries|
    requires acc == merge.entries[..i] && p == merge.entries[i]
    ensures MergeFrom(acc, merge, i) == MergeFrom(acc + [p], merge, i + 1)
  {
    assert p.0 !in Keys(acc) by {
      forall j | 0 <= j < i
        ensures acc[j].0 != p.0
      {
        assert acc[j] == merge.entries[j];
      }
    }
    assert MergedValue(Lookup(acc, p.0), p.1) == p.1;
    MergeFromStep(acc, merge, i);
    PutAppends(acc, p.0, p.1);
  }
}
