/** The values a profile report holds, as one closed variant type. */
module ReportValue {

  /** A dict key: report dicts are keyed by strings, but some (the quantile maps) by ints. */
  datatype Key = StrKey(s: string) | IntKey(i: int)

  /** A report value. `Set` is a Python set of ints, `List` a Python list, `Array` a numpy
      array (its items are numbers or nested arrays) and `Dict` a Python dict in insertion
      order. */
  datatype Value =
    | Null
    | Bool(b: bool)
    | Int(i: int)
    | Float(x: real)
    | Str(s: string)
    | Set(elems: set<int>)
    | List(items: seq<Value>)
    | Array(items: seq<Value>)
    | Dict(entries: seq<(Key, Value)>)

  predicate StrictlyIncreasing(s: seq<int>)
  {
    forall i, j :: 0 <= i < j < |s| ==> s[i] < s[j]
  }

  lemma NonEmptyHasMember(s: set<int>)
    requires s != {}
    ensures exists m :: m in s
  {
    if forall z :: z !in s {
      assert false;
    }
  }

  /** Every non-empty finite set of ints has a least element. */
  lemma {:induction false} HasMin(s: set<int>)
    requires s != {}
    ensures exists m :: m in s && forall x :: x in s ==> m <= x
    decreases |s|
  {
    NonEmptyHasMember(s);
    var y :| y in s;
    var w := y;
    if s != {y} {
      var r := s - {y};
      HasMin(r);
      var m :| m in r && forall x :: x in r ==> m <= x;
      w := if y < m then y else m;
      forall x | x in s
        ensures w <= x
      {
        if x != y {
          assert x in r;
        }
      }
    } else {
      forall x | x in s
        ensures w <= x
      {
        assert x == y;
      }
    }
    assert w in s && forall x :: x in s ==> w <= x;
  }

  function Min(s: set<int>): (m: int)
    requires s != {}
    ensures m in s && forall x :: x in s ==> m <= x
  {
    HasMin(s);
    var m :| m in s && forall x :: x in s ==> m <= x;
    m
  }

  /** Python's `sorted(list(s))` for a set of ints. */
  function SortedInts(s: set<int>): (r: seq<int>)
    ensures StrictlyIncreasing(r)
    ensures |r| == |s|
    ensures forall x :: x in r <==> x in s
    decreases |s|
  {
    if s == {} then []
    else
      var m := Min(s);
      var rest := SortedInts(s - {m});
      [m] + rest
  }

  /** The set-to-list step the report walk applies to every value before anything else:
      a set becomes the list of its members in ascending order; nothing else changes. */
  function Canon(v: Value): (c: Value)
    ensures !c.Set?
    ensures !v.Set? ==> c == v
    ensures v.Set? ==> c.List? && |c.items| == |v.elems|
    ensures v.Set? ==> forall i :: 0 <= i < |c.items| ==> c.items[i].Int? && c.items[i].i in v.elems
    ensures v.Set? ==> forall i, j :: 0 <= i < j < |c.items| ==> c.items[i].i < c.items[j].i
  {
    if v.Set? then
      var r := SortedInts(v.elems);
      List(seq(|r|, i requires 0 <= i < |r| => Int(r[i])))
    else v
  }

  predicate IsScalar(v: Value)
  {
    v.Null? || v.Bool? || v.Int? || v.Float? || v.Str?
  }

  /** A numeric numpy array: every item is a scalar or a nested numeric array. */
  predicate NumericArray(v: Value)
  {
    v.Array? && forall j :: 0 <= j < |v.items| ==> IsScalar(v.items[j]) || NumericArray(v.items[j])
  }

  /** Holds no set and no numpy array anywhere: ready for a JSON encoder. */
  predicate JsonReady(v: Value)
  {
    match v
    case Set(_) => false
    case Array(_) => false
    case List(items) => forall j :: 0 <= j < |items| ==> JsonReady(items[j])
    case Dict(entries) => forall j :: 0 <= j < |entries| ==> JsonReady(entries[j].1)
    case _ => true
  }

  /** `l` is `a` with every numpy array in it, at any depth, read as a list of the same
      items in the same places; everything else is equal. */
  predicate ListedAs(a: Value, l: Value)
  {
    if a.Array? then
      l.List? && |l.items| == |a.items| && forall j :: 0 <= j < |a.items| ==> ListedAs(a.items[j], l.items[j])
    else l == a
  }

  /** At most one value is `a` listed. */
  lemma {:induction false} ListedAsUnique(a: Value, l: Value, l': Value)
    requires ListedAs(a, l) && ListedAs(a, l')
    ensures l == l'
  {
    if a.Array? {
      forall j | 0 <= j < |a.items|
        ensures l.items[j] == l'.items[j]
      {
        ListedAsUnique(a.items[j], l.items[j], l'.items[j]);
      }
      assert l.items == l'.items;
    }
  }

  /** numpy's `ndarray.tolist()`: nested arrays become nested lists, items stay in place. */
  function ToList(v: Value): (r: Value)
    requires v.Array?
    ensures r.List? && |r.items| == |v.items|
    ensures forall j :: 0 <= j < |v.items| && !v.items[j].Array? ==> r.items[j] == v.items[j]
    ensures forall j :: 0 <= j < |v.items| && v.items[j].Array? ==> r.items[j].List?
    ensures ListedAs(v, r)
  {
    List(seq(|v.items|, j requires 0 <= j < |v.items| =>
      if v.items[j].Array? then ToList(v.items[j]) else v.items[j]))
  }

  /** `tolist()` of a numeric array holds plain numbers and lists only. */
  lemma {:induction false} ToListJsonReady(v: Value)
    requires NumericArray(v)
    ensures JsonReady(ToList(v))
  {
    var r := ToList(v);
    forall j | 0 <= j < |r.items|
      ensures JsonReady(r.items[j])
    {
      if v.items[j].Array? {
        ToListJsonReady(v.items[j]);
      }
    }
  }
}
