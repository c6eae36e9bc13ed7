/** `_combine_unique_sets`: the union of two lists as a list without repeats. */
module UniqueSets {

  predicate NoDuplicates<T(==)>(s: seq<T>)
  {
    forall i, j :: 0 <= i < j < |s| ==> s[i] != s[j]
  }

  /** Python's `list(set(s))`. A Python set has no defined iteration order; the model keeps
      the first occurrence of every element, and the contracts about `_combine_unique_sets`
      below state no order: they speak of elements, multiplicities and lengths only. */
  function Dedup<T(==,!new)>(s: seq<T>): (r: seq<T>)
    ensures NoDuplicates(r)
    ensures forall x :: x in r <==> x in s
    ensures |r| <= |s|
  {
    if |s| == 0 then []
    else
      var r := Dedup(s[..|s| - 1]);
      assert forall x :: x in s <==> x in s[..|s| - 1] || x == s[|s| - 1] by {
        assert s == s[..|s| - 1] + [s[|s| - 1]];
      }
      if s[|s| - 1] in r then r else r + [s[|s| - 1]]
  }

  /** `_combine_unique_sets(a, b)`, branch by branch as the source writes it. */
  function CombineUniqueSets<T(==,!new)>(a: seq<T>, b: seq<T>): (r: seq<T>)
    ensures NoDuplicates(r)
    ensures forall x :: x in r <==> x in a || x in b
    ensures |r| == 0 <==> |a| == 0 && |b| == 0
  {
    if |a| == 0 && |b| == 0 then []
    else if |a| == 0 then Dedup(b)
    else if |b| == 0 then Dedup(a)
    else
      assert a[0] in a + b;
      Dedup(a + b)
  }

  /** In a list without repeats every element occurs exactly once. */
  lemma {:induction false} DistinctCount<T>(s: seq<T>, x: T)
    requires NoDuplicates(s)
    ensures multiset(s)[x] == if x in s then 1 else 0
  {
    if |s| > 0 {
      var init := s[..|s| - 1];
      assert s == init + [s[|s| - 1]];
      DistinctCount(init, x);
      assert s[|s| - 1] !in init;
    }
  }

  /** Two lists without repeats that hold the same elements are the same multiset: they
      differ at most in order. */
  lemma SameElements<T>(r: seq<T>, s: seq<T>)
    requires NoDuplicates(r) && NoDuplicates(s)
    requires forall x :: x in r <==> x in s
    ensures multiset(r) == multiset(s)
  {
    forall x
      ensures multiset(r)[x] == multiset(s)[x]
    {
      DistinctCount(r, x);
      DistinctCount(s, x);
    }
  }

  /** A list without repeats comes back from `list(set(...))` with the same elements, each
      once, in some order. */
  lemma DedupOfDistinct<T(!new)>(s: seq<T>)
    requires NoDuplicates(s)
    ensures multiset(Dedup(s)) == multiset(s)
  {
    SameElements(Dedup(s), s);
  }

  /** Combining a result with nothing gives back the same elements, each once: the union
      is idempotent up to order. */
  lemma CombineIdempotent<T(!new)>(a: seq<T>, b: seq<T>)
    ensures multiset(CombineUniqueSets(CombineUniqueSets(a, b), [])) == multiset(CombineUniqueSets(a, b))
  {
    SameElements(CombineUniqueSets(CombineUniqueSets(a, b), []), CombineUniqueSets(a, b));
  }

  /** A list without repeats is as long as the set of its elements. */
  lemma {:induction false} DistinctCard<T>(s: seq<T>)
    requires NoDuplicates(s)
    ensures |set x | x in s| == |s|
  {
    if |s| > 0 {
      var init := s[..|s| - 1];
      DistinctCard(init);
      assert (set x | x in s) == (set x | x in init) + {s[|s| - 1]} by {
        assert s == init + [s[|s| - 1]];
      }
      assert s[|s| - 1] !in (set x | x in init);
    }
  }

  /** The result has exactly as many elements as the union of the two inputs' element sets,
      whichever order the inputs come in. */
  lemma CombineSize<T(!new)>(a: seq<T>, b: seq<T>)
    ensures |CombineUniqueSets(a, b)| == |(set x | x in a) + (set x | x in b)|
    ensures |CombineUniqueSets(a, b)| == |CombineUniqueSets(b, a)|
  {
    var r := CombineUniqueSets(a, b);
    var r' := CombineUniqueSets(b, a);
    DistinctCard(r);
    DistinctCard(r');
    assert (set x | x in r) == (set x | x in a) + (set x | x in b);
    assert (set x | x in r') == (set x | x in a) + (set x | x in b);
  }
}
