/** `flat_dict`: collapse a nested dict into one level whose keys join the keys on the path
    to each leaf with a separator. */
module Flatten {
  import opened Wrappers
  import opened Text
  import opened OrderedDict
  import opened ReportValue
  import opened UniqueSets

  const DefaultSeparator: string := "_"

  /** The source's default `key=''`. */
  const NoKey: Key := StrKey("")

  /** Python truthiness of a key: `''` and `0` are false. */
  predicate Truthy(k: Key)
  {
    match k
    case StrKey(s) => s != ""
    case IntKey(i) => i != 0
  }

  /** Python's `str(k)`. */
  function KeyText(k: Key): string
  {
    match k
    case StrKey(s) => s
    case IntKey(i) => IntToStr(i)
  }

  /** The prefix a truthy enclosing key puts in front of the keys below it. */
  function Prefix(key: Key, sep: string): string
  {
    ReplaceSpaces(KeyText(key)) + sep
  }

  /** The key under which an entry `k` of a nested result is stored by the level whose own
      key is `key`: prefixed when `key` is truthy, unchanged otherwise. */
  function Compose(key: Key, k: Key, sep: string): (r: Key)
    ensures Truthy(key) ==> r.StrKey? && r.s == Prefix(key, sep) + KeyText(k)
    ensures !Truthy(key) ==> r == k
  {
    if Truthy(key) then StrKey(Prefix(key, sep) + KeyText(k)) else k
  }

  ghost predicate NoDictValues(d: seq<(Key, Value)>)
  {
    forall j :: 0 <= j < |d| ==> !d[j].1.Dict?
  }

  ghost predicate KeysPrefixed(d: seq<(Key, Value)>, p: string)
  {
    forall j :: 0 <= j < |d| ==> d[j].0.StrKey? && p <= d[j].0.s
  }

  /** The invariant of the result being built at one level. */
  ghost predicate Built(acc: seq<(Key, Value)>, key: Key, sep: string)
  {
    DistinctKeys(acc) && NoDictValues(acc) && (Truthy(key) ==> KeysPrefixed(acc, Prefix(key, sep)))
  }

  /** `flat_dict(od, separator, key)`: a dict value is flattened entry by entry, later
      entries overwriting earlier ones with the same composed key; anything else becomes
      the one-entry dict `{key: od}`. */
  function FlatDict(od: Value, sep: string, key: Key): (r: seq<(Key, Value)>)
    ensures DistinctKeys(r)
    ensures forall j :: 0 <= j < |r| ==> !r[j].1.Dict?
    ensures !od.Dict? ==> r == [(key, od)]
    ensures od.Dict? && |od.entries| == 0 ==> r == []
    ensures od.Dict? && Truthy(key) ==>
      forall j :: 0 <= j < |r| ==> r[j].0.StrKey? && Prefix(key, sep) <= r[j].0.s
    decreases od, 1
  {
    if od.Dict? then FlatFrom(od, 0, sep, key, []) else [(key, od)]
  }

  /** Entries `i..` of `od`, added to the result `acc` built from entries `..i`. */
  function FlatFrom(od: Value, i: nat, sep: string, key: Key, acc: seq<(Key, Value)>): (r: seq<(Key, Value)>)
    requires od.Dict? && i <= |od.entries|
    requires Built(acc, key, sep)
    ensures Built(r, key, sep)
    decreases od, 0, |od.entries| - i
  {
    if i == |od.entries| then acc
    else
      var child := FlatDict(od.entries[i].1, sep, od.entries[i].0);
      FlatFrom(od, i + 1, sep, key, PutAll(acc, child, key, sep))
  }

  /** Stores every entry of a nested result under its composed key, in order. */
  function PutAll(acc: seq<(Key, Value)>, child: seq<(Key, Value)>, key: Key, sep: string): (r: seq<(Key, Value)>)
    requires Built(acc, key, sep)
    requires NoDictValues(child)
    ensures Built(r, key, sep)
    decreases |child|
  {
    if |child| == 0 then acc
    else
      var k := Compose(key, child[0].0, sep);
      PutBuilt(acc, k, child[0].1, key, sep);
      PutAll(Put(acc, k, child[0].1), child[1..], key, sep)
  }

  lemma PutBuilt(acc: seq<(Key, Value)>, k: Key, v: Value, key: Key, sep: string)
    requires Built(acc, key, sep)
    requires !v.Dict?
    requires Truthy(key) ==> k.StrKey? && Prefix(key, sep) <= k.s
    ensures Built(Put(acc, k, v), key, sep)
  {
    var r := Put(acc, k, v);
    forall j | 0 <= j < |r|
      ensures !r[j].1.Dict?
      ensures Truthy(key) ==> r[j].0.StrKey? && Prefix(key, sep) <= r[j].0.s
    {
      assert r[j] in r;
      if r[j] != (k, v) {
        var t :| 0 <= t < |acc| && acc[t] == r[j];
      }
    }
  }

  /** A dict whose values are not dicts and whose keys are distinct is already flat:
      `flat_dict` returns it unchanged. */
  lemma FlatDictOfFlat(od: Value, sep: string)
    requires od.Dict? && DistinctKeys(od.entries) && NoDictValues(od.entries)
    ensures FlatDict(od, sep, NoKey) == od.entries
  {
    FlatFromFlat(od, 0, sep);
    assert od.entries[..0] == [];
  }

  lemma {:induction false} FlatFromFlat(od: Value, i: nat, sep: string)
    requires od.Dict? && DistinctKeys(od.entries) && NoDictValues(od.entries)
    requires i <= |od.entries|
    ensures Built(od.entries[..i], NoKey, sep)
    ensures FlatFrom(od, i, sep, NoKey, od.entries[..i]) == od.entries
    decreases |od.entries| - i
  {
    var es := od.entries;
    if i == |es| {
      assert es[..i] == es;
    } else {
      var acc := es[..i];
      var (k, v) := es[i];
      assert FlatDict(v, sep, k) == [(k, v)];
      assert k !in Keys(acc) by {
        forall j | 0 <= j < i
          ensures acc[j].0 != k
        {
          assert acc[j] == es[j];
        }
      }
      PutAppends(acc, k, v);
      assert PutAll(acc, [(k, v)], NoKey, sep) == Put(acc, k, v);
      assert acc + [(k, v)] == es[..i + 1];
      FlatFromFlat(od, i + 1, sep);
    }
  }

  /** Flattening is idempotent: flattening the result of `flat_dict` again changes nothing. */
  lemma FlatDictIdempotent(od: Value, sep: string)
    ensures FlatDict(Dict(FlatDict(od, sep, NoKey)), sep, NoKey) == FlatDict(od, sep, NoKey)
  {
    FlatDictOfFlat(Dict(FlatDict(od, sep, NoKey)), sep);
  }

  /** The pairs of a nested result with their keys composed with the enclosing `key`. */
  function Composed(child: seq<(Key, Value)>, key: Key, sep: string): seq<(Key, Value)>
    decreases |child|
  {
    if |child| == 0 then [] else [(Compose(key, child[0].0, sep), child[0].1)] + Composed(child[1..], key, sep)
  }

  /** The pairs the comprehension of `flat_dict` produces from entry `i` on, in order: for
      each entry `(kk, vv)`, the items of `flat_dict(vv, separator, kk)` under composed keys. */
  function LevelPairs(es: seq<(Key, Value)>, i: nat, sep: string, key: Key): seq<(Key, Value)>
    requires i <= |es|
    decreases |es| - i
  {
    if i == |es| then []
    else Composed(FlatDict(es[i].1, sep, es[i].0), key, sep) + LevelPairs(es, i + 1, sep, key)
  }

  lemma {:induction false} ComposedMembers(child: seq<(Key, Value)>, key: Key, sep: string, p: (Key, Value))
    ensures p in Composed(child, key, sep) <==>
      exists t :: 0 <= t < |child| && p == (Compose(key, child[t].0, sep), child[t].1)
    decreases |child|
  {
    if |child| > 0 {
      ComposedMembers(child[1..], key, sep, p);
      if exists t :: 0 <= t < |child| && p == (Compose(key, child[t].0, sep), child[t].1) {
        var t :| 0 <= t < |child| && p == (Compose(key, child[t].0, sep), child[t].1);
        if t > 0 {
          assert child[1..][t - 1] == child[t];
        }
      }
      if p in Composed(child[1..], key, sep) {
        var t :| 0 <= t < |child[1..]| && p == (Compose(key, child[1..][t].0, sep), child[1..][t].1);
        assert child[1..][t] == child[t + 1];
      }
    }
  }

  /** A pair is produced at this level exactly when some entry's flattened result holds a
      pair with the same value whose key composes to it. */
  lemma {:induction false} LevelPairsMembers(es: seq<(Key, Value)>, i: nat, sep: string, key: Key, p: (Key, Value))
    requires i <= |es|
    ensures p in LevelPairs(es, i, sep, key) <==>
      exists m :: i <= m < |es| && p in Composed(FlatDict(es[m].1, sep, es[m].0), key, sep)
    decreases |es| - i
  {
    if i < |es| {
      var here := Composed(FlatDict(es[i].1, sep, es[i].0), key, sep);
      var rest := LevelPairs(es, i + 1, sep, key);
      assert LevelPairs(es, i, sep, key) == here + rest;
      assert p in here + rest <==> p in here || p in rest;
      LevelPairsMembers(es, i + 1, sep, key, p);
      if exists m :: i <= m < |es| && p in Composed(FlatDict(es[m].1, sep, es[m].0), key, sep) {
        var m :| i <= m < |es| && p in Composed(FlatDict(es[m].1, sep, es[m].0), key, sep);
        if m > i {
          assert p in rest;
        }
      }
    }
  }

  lemma {:induction false} PutAllFromPairs(acc: seq<(Key, Value)>, child: seq<(Key, Value)>, key: Key, sep: string)
    requires Built(acc, key, sep)
    requires NoDictValues(child)
    ensures PutAll(acc, child, key, sep) == FromPairs(acc, Composed(child, key, sep))
    decreases |child|
  {
    if |child| > 0 {
      var k := Compose(key, child[0].0, sep);
      var v := child[0].1;
      PutBuilt(acc, k, v, key, sep);
      PutAllFromPairs(Put(acc, k, v), child[1..], key, sep);
      FromPairsSnoc(acc, [(k, v)], [], (k, v));
      FromPairsAppend(acc, [(k, v)], Composed(child[1..], key, sep));
    }
  }

  lemma {:induction false} FlatFromPairs(od: Value, i: nat, sep: string, key: Key, acc: seq<(Key, Value)>)
    requires od.Dict? && i <= |od.entries|
    requires Built(acc, key, sep)
    ensures FlatFrom(od, i, sep, key, acc) == FromPairs(acc, LevelPairs(od.entries, i, sep, key))
    decreases |od.entries| - i
  {
    if i < |od.entries| {
      var child := FlatDict(od.entries[i].1, sep, od.entries[i].0);
      PutAllFromPairs(acc, child, key, sep);
      FlatFromPairs(od, i + 1, sep, key, PutAll(acc, child, key, sep));
      FromPairsAppend(acc, Composed(child, key, sep), LevelPairs(od.entries, i + 1, sep, key));
    }
  }

  /** What one level of `flat_dict` holds: the dict comprehension over `LevelPairs`. Its keys
      are the composed keys in order of first appearance; each reads the value of the last
      pair with that key, so a later equal composed key overwrites the value but keeps the
      first position; a key no pair composes to is missing. */
  lemma FlatDictContent(od: Value, sep: string, key: Key, k: Key)
    requires od.Dict?
    ensures Keys(FlatDict(od, sep, key)) == Dedup(Keys(LevelPairs(od.entries, 0, sep, key)))
    ensures var ps := LevelPairs(od.entries, 0, sep, key);
      k !in Keys(ps) ==> Lookup(FlatDict(od, sep, key), k) == None
    ensures var ps := LevelPairs(od.entries, 0, sep, key);
      k in Keys(ps) ==>
        exists j :: 0 <= j < |ps| && ps[j].0 == k && Lookup(FlatDict(od, sep, key), k) == Some(ps[j].1)
                    && forall j' :: j < j' < |ps| ==> ps[j'].0 != k
  {
    FlatFromPairs(od, 0, sep, key, []);
    FromPairsKeys(LevelPairs(od.entries, 0, sep, key));
    FromPairsLookup(LevelPairs(od.entries, 0, sep, key), k);
  }

  /** The inner dict of the nested example, under the parent key `a`. */
  lemma NestedInnerExample()
    ensures FlatDict(Dict([(StrKey("b"), Int(1)), (StrKey("c"), Int(2))]), DefaultSeparator, StrKey("a"))
         == [(StrKey("a_b"), Int(1)), (StrKey("a_c"), Int(2))]
  {
    var inner := Dict([(StrKey("b"), Int(1)), (StrKey("c"), Int(2))]);
    var sep := DefaultSeparator;
    assert ReplaceSpaces("a") == "a";
    assert Compose(StrKey("a"), StrKey("b"), sep) == StrKey("a_b");
    assert Compose(StrKey("a"), StrKey("c"), sep) == StrKey("a_c");
    var ab := (StrKey("a_b"), Int(1));
    var ac := (StrKey("a_c"), Int(2));
    assert Put([], ab.0, ab.1) == [ab];
    assert PutAll([ab], [], StrKey("a"), sep) == [ab];
    var b1 := [(StrKey("b"), Int(1))];
    assert FlatDict(Int(1), sep, StrKey("b")) == b1;
    assert b1[1..] == [];
    var acc1 := PutAll([], b1, StrKey("a"), sep);
    assert acc1 == [ab];
    assert "a_b" != "a_c" by { assert "a_b"[2] != "a_c"[2]; }
    assert Put([ab], ac.0, ac.1) == [ab, ac];
    assert PutAll([ab, ac], [], StrKey("a"), sep) == [ab, ac];
    var c2 := [(StrKey("c"), Int(2))];
    assert FlatDict(Int(2), sep, StrKey("c")) == c2;
    assert c2[1..] == [];
    var acc2 := PutAll(acc1, c2, StrKey("a"), sep);
    assert acc2 == [ab, ac];
    assert FlatFrom(inner, 2, sep, StrKey("a"), acc2) == acc2;
  }

  /** `flat_dict({"a": {"b": 1, "c": 2}}) == {"a_b": 1, "a_c": 2}`. */
  lemma NestedExample()
    ensures FlatDict(Dict([(StrKey("a"), Dict([(StrKey("b"), Int(1)), (StrKey("c"), Int(2))]))]),
                     DefaultSeparator, NoKey)
         == [(StrKey("a_b"), Int(1)), (StrKey("a_c"), Int(2))]
  {
    var inner := Dict([(StrKey("b"), Int(1)), (StrKey("c"), Int(2))]);
    var sep := DefaultSeparator;
    var ab := (StrKey("a_b"), Int(1));
    var ac := (StrKey("a_c"), Int(2));
    var acc2 := [ab, ac];
    NestedInnerExample();
    assert "a_b" != "a_c" by { assert "a_b"[2] != "a_c"[2]; }
    assert Put([], ab.0, ab.1) == [ab];
    assert Put([ab], ac.0, ac.1) == [ab, ac];
    var top := Dict([(StrKey("a"), inner)]);
    assert PutAll([ab, ac], [], NoKey, sep) == acc2;
    assert PutAll([ab], [ac], NoKey, sep) == acc2;
    assert PutAll([], acc2, NoKey, sep) == acc2;
    assert FlatFrom(top, 1, sep, NoKey, acc2) == acc2;
  }

  /** Spaces in the enclosing key `a b` become `_`; those in the inner key `c d` stay. */
  lemma SpacesInnerExample()
    ensures FlatDict(Dict([(StrKey("c d"), Int(1))]), DefaultSeparator, StrKey("a b"))
         == [(StrKey("a_b_c d"), Int(1))]
  {
    var sep := DefaultSeparator;
    assert ReplaceSpaces("a b") == "a_b";
    assert Compose(StrKey("a b"), StrKey("c d"), sep) == StrKey("a_b_c d");
    var d1 := Dict([(StrKey("c d"), Int(1))]);
    var f1 := [(StrKey("a_b_c d"), Int(1))];
    assert PutAll([], FlatDict(Int(1), sep, StrKey("c d")), StrKey("a b"), sep) == f1;
    assert FlatFrom(d1, 1, sep, StrKey("a b"), f1) == f1;
  }

  /** The falsy parent key `0` adds no prefix. */
  lemma FalsyInnerExample()
    ensures FlatDict(Dict([(StrKey("f"), Int(2))]), DefaultSeparator, IntKey(0))
         == [(StrKey("f"), Int(2))]
  {
    var sep := DefaultSeparator;
    var d3 := Dict([(StrKey("f"), Int(2))]);
    var f3 := [(StrKey("f"), Int(2))];
    assert PutAll([], FlatDict(Int(2), sep, StrKey("f")), IntKey(0), sep) == f3;
    assert FlatFrom(d3, 1, sep, IntKey(0), f3) == f3;
  }

  /** Spaces are replaced in enclosing keys only, an empty nested dict contributes no key,
      and a falsy key (`0`) adds no prefix:
      `flat_dict({"a b": {"c d": 1}, "e": {}, 0: {"f": 2}}) == {"a_b_c d": 1, "f": 2}`. */
  lemma SpacesEmptyAndFalsyExample()
    ensures FlatDict(Dict([(StrKey("a b"), Dict([(StrKey("c d"), Int(1))])),
                           (StrKey("e"), Dict([])),
                           (IntKey(0), Dict([(StrKey("f"), Int(2))]))]),
                     DefaultSeparator, NoKey)
         == [(StrKey("a_b_c d"), Int(1)), (StrKey("f"), Int(2))]
  {
    var sep := DefaultSeparator;
    var d1 := Dict([(StrKey("c d"), Int(1))]);
    var f1 := [(StrKey("a_b_c d"), Int(1))];
    var d3 := Dict([(StrKey("f"), Int(2))]);
    var f3 := [(StrKey("f"), Int(2))];
    SpacesInnerExample();
    FalsyInnerExample();
    assert FlatDict(Dict([]), sep, StrKey("e")) == [];
    var top := Dict([(StrKey("a b"), d1), (StrKey("e"), Dict([])), (IntKey(0), d3)]);
    assert PutAll([], f1, NoKey, sep) == f1;
    assert PutAll(f1, [], NoKey, sep) == f1;
    var all := [(StrKey("a_b_c d"), Int(1)), (StrKey("f"), Int(2))];
    assert PutAll(f1, f3, NoKey, sep) == all;
    assert FlatFrom(top, 3, sep, NoKey, all) == all;
  }

  /** A later entry whose composed key equals an earlier one overwrites its value in place:
      `flat_dict({"a": {"b": 1}, "a_b": 2}) == {"a_b": 2}`. */
  lemma OverwriteExample()
    ensures FlatDict(Dict([(StrKey("a"), Dict([(StrKey("b"), Int(1))])), (StrKey("a_b"), Int(2))]),
                     DefaultSeparator, NoKey)
         == [(StrKey("a_b"), Int(2))]
  {
    var sep := DefaultSeparator;
    var inner := Dict([(StrKey("b"), Int(1))]);
    var ab1 := [(StrKey("a_b"), Int(1))];
    assert ReplaceSpaces("a") == "a";
    assert Compose(StrKey("a"), StrKey("b"), sep) == StrKey("a_b");
    assert PutAll([], FlatDict(Int(1), sep, StrKey("b")), StrKey("a"), sep) == ab1;
    assert FlatFrom(inner, 1, sep, StrKey("a"), ab1) == ab1;
    assert FlatDict(inner, sep, StrKey("a")) == ab1;
    var top := Dict([(StrKey("a"), inner), (StrKey("a_b"), Int(2))]);
    assert PutAll([], ab1, NoKey, sep) == ab1;
    var ab2 := [(StrKey("a_b"), Int(2))];
    assert FlatDict(Int(2), sep, StrKey("a_b")) == ab2;
    assert Put(ab1, StrKey("a_b"), Int(2)) == ab2;
    assert PutAll(ab1, ab2, NoKey, sep) == ab2;
    assert FlatFrom(top, 2, sep, NoKey, ab2) == ab2;
  }
}
