/** The omit-path language of `_prepare_report`. A path is a dotted string; at each level of
    the report a path that equals a key drops that key, and a path `first.rest` hands `rest`
    down to the children that `first` selects (`*` selects every child). Paths under
    `data_stats` may name a column, which is first rewritten into the column's positions
    through `global_stats.profile_schema`. */
module OmitPaths {
  import opened Wrappers
  import opened Text
  import opened OrderedDict
  import opened ReportValue

  const DataStats: string := "data_stats"
  const ProfileSchema: string := "profile_schema"
  const GlobalStats: string := "global_stats"
  const Wildcard: string := "*"

  /** The statistics `compact` drops from every column. */
  const VerboseStatistics: seq<string> :=
    ["times", "avg_predictions", "data_label_representation", "null_types_index", "histogram"]

  /** The five paths `compact` adds, in order: `data_stats.*.statistics.NAME` for each
      verbose statistic `NAME`. */
  const CompactPaths: seq<string> := [
    VerbosePath(VerboseStatistics[0]),
    VerbosePath(VerboseStatistics[1]),
    VerbosePath(VerboseStatistics[2]),
    VerbosePath(VerboseStatistics[3]),
    VerbosePath(VerboseStatistics[4])
  ]

  function VerbosePath(stat: string): string
  {
    ColumnPath(Wildcard, Some("statistics" + [Dot] + stat))
  }

  /** `key in omit_keys`: a key is dropped only by a path equal to it, so a bare `*` drops
      only a key literally named `*`, and an int key is never dropped. */
  predicate Omitted(k: Key, paths: seq<string>)
  {
    k.StrKey? && k.s in paths
  }

  /** `omit_key.split('.', 1)` when it has a non-empty remainder: the first segment and
      the remainder. */
  function Step(p: string): (r: Option<(string, string)>)
    ensures r.Some? ==> p == r.value.0 + [Dot] + r.value.1 && Dot !in r.value.0 && |r.value.1| > 0
  {
    match SplitFirst(p)
    case (h, Some(t)) => if |t| > 0 then Some((h, t)) else None
    case (_, None) => None
  }

  /** `p` is `first.q` for a dot-free `first` and a non-empty `q`; `first` is returned. */
  function FirstSegmentBefore(p: string, q: string): string
    requires |q| < |p|
  {
    p[..|p| - |q| - 1]
  }

  ghost predicate SplitsInto(p: string, q: string)
  {
    && 0 < |q| < |p|
    && p[|p| - |q| - 1] == Dot
    && p[|p| - |q|..] == q
    && Dot !in FirstSegmentBefore(p, q)
  }

  /** A path splits at its first dot in exactly one way. */
  lemma StepIffSplits(p: string, q: string)
    ensures Step(p).Some? && Step(p).value.1 == q <==> SplitsInto(p, q)
    ensures SplitsInto(p, q) ==> Step(p).value.0 == FirstSegmentBefore(p, q)
  {
    if SplitsInto(p, q) {
      var first := FirstSegmentBefore(p, q);
      assert p == first + [Dot] + q;
      SplitFirstAt(first, q);
    }
    if Step(p).Some? && Step(p).value.1 == q {
      var (first, rest) := Step(p).value;
      assert p[..|first|] == first;
      assert p[|first| + 1..] == q;
    }
  }

  predicate KeyMatches(k: Key, first: string)
  {
    first == Wildcard || StrKey(first) == k
  }

  /** The omit paths handed to the child stored under key `k`: the remainder of every path
      whose first segment is `*` or `k`. Paths without a dot, or with nothing after it, stop
      here. */
  function Residual(paths: seq<string>, k: Key): (r: seq<string>)
    ensures |r| <= |paths|
  {
    if |paths| == 0 then []
    else
      var rest := Residual(paths[1..], k);
      match Step(paths[0])
      case Some((first, next)) => if KeyMatches(k, first) then [next] + rest else rest
      case None => rest
  }

  /** A `data_stats` record's position is selected by `*` or by an all-digit segment with
      that value. */
  predicate IndexMatches(i: nat, first: string)
  {
    first == Wildcard || (IsDigits(first) && DigitsValue(first) == i)
  }

  /** The omit paths handed to the `data_stats` record at position `i`, from the paths that
      reached `data_stats` itself. */
  function RecordResidual(paths: seq<string>, i: nat): (r: seq<string>)
    ensures |r| <= |paths|
  {
    if |paths| == 0 then []
    else
      var rest := RecordResidual(paths[1..], i);
      match Step(paths[0])
      case Some((first, next)) => if IndexMatches(i, first) then [next] + rest else rest
      case None => rest
  }

  /** The source hands a remainder on only when it is non-empty. */
  lemma {:induction false} ResidualsNonEmpty(paths: seq<string>, k: Key, i: nat)
    ensures forall j :: 0 <= j < |Residual(paths, k)| ==> |Residual(paths, k)[j]| > 0
    ensures forall j :: 0 <= j < |RecordResidual(paths, i)| ==> |RecordResidual(paths, i)[j]| > 0
  {
    if |paths| > 0 {
      ResidualsNonEmpty(paths[1..], k, i);
    }
  }

  /** A child receives `q` exactly when some path reads `first.q` with `first` being `*`
      or the child's key. */
  lemma {:induction false} ResidualMembers(paths: seq<string>, k: Key, q: string)
    ensures q in Residual(paths, k) <==>
      exists p :: p in paths && SplitsInto(p, q) && KeyMatches(k, FirstSegmentBefore(p, q))
  {
    if |paths| > 0 {
      ResidualMembers(paths[1..], k, q);
      StepIffSplits(paths[0], q);
      assert forall p :: p in paths <==> p == paths[0] || p in paths[1..];
    }
  }

  /** A record receives `q` exactly when some path reads `first.q` with `first` being `*`
      or the record's position in digits. */
  lemma {:induction false} RecordResidualMembers(paths: seq<string>, i: nat, q: string)
    ensures q in RecordResidual(paths, i) <==>
      exists p :: p in paths && SplitsInto(p, q) && IndexMatches(i, FirstSegmentBefore(p, q))
  {
    if |paths| > 0 {
      RecordResidualMembers(paths[1..], i, q);
      StepIffSplits(paths[0], q);
      assert forall p :: p in paths <==> p == paths[0] || p in paths[1..];
    }
  }

  /** `report["global_stats"]["profile_schema"][name]`, when that lookup succeeds and gives
      a list of ints. */
  function SchemaIndices(report: Value, name: string): (r: Option<seq<int>>)
    ensures r.Some? ==> report.Dict? && Lookup(report.entries, StrKey(GlobalStats)).Some?
  {
    if !report.Dict? then None
    else
      var global: Option<Value> := Lookup(report.entries, StrKey(GlobalStats));
      if global.None? || !global.value.Dict? then None
      else
        var schema: Option<Value> := Lookup(global.value.entries, StrKey(ProfileSchema));
        if schema.None? || !schema.value.Dict? then None
        else
          var column: Option<Value> := Lookup(schema.value.entries, StrKey(name));
          if column.None? || !column.value.List? then None
          else
            var items := column.value.items;
            if forall j :: 0 <= j < |items| ==> items[j].Int? then
              Some(seq(|items|, j requires 0 <= j < |items| => items[j].i))
            else None
  }

  /** A path `data_stats.NAME...` with `NAME != "*"`: the source looks `NAME` up in the
      schema (a numeric `NAME` included). */
  predicate NeedsSchema(p: string)
  {
    var parts := Split(p);
    |parts| > 1 && parts[0] == DataStats && parts[1] != Wildcard
  }

  /** Every name the paths look up is in the schema (the source raises `KeyError`
      otherwise). */
  ghost predicate Resolves(report: Value, omit: seq<string>)
  {
    forall p :: p in omit && NeedsSchema(p) ==> SchemaIndices(report, Split(p)[1]).Some?
  }

  /** One path after the rewrite: a column name is replaced, in place, by each of the
      column's positions in turn; any other path is kept as it is. */
  function RewritePath(report: Value, p: string): (r: seq<string>)
    requires NeedsSchema(p) ==> SchemaIndices(report, Split(p)[1]).Some?
    ensures NeedsSchema(p) ==> |r| == |SchemaIndices(report, Split(p)[1]).value|
    ensures !NeedsSchema(p) ==> r == [p]
  {
    if NeedsSchema(p) then
      var parts := Split(p);
      var idxs := SchemaIndices(report, parts[1]).value;
      seq(|idxs|, j requires 0 <= j < |idxs| => Join(parts[1 := IntToStr(idxs[j])]))
    else [p]
  }

  /** The rewrite of the whole omit list, in order. */
  function Rewrite(report: Value, omit: seq<string>): (r: seq<string>)
    requires Resolves(report, omit)
    ensures (forall j :: 0 <= j < |omit| ==> !NeedsSchema(omit[j])) ==> r == omit
  {
    if |omit| == 0 then [] else RewritePath(report, omit[0]) + Rewrite(report, omit[1..])
  }

  /** The path `data_stats.NAME` followed by `.rest` when there is a rest. */
  function ColumnPath(name: string, rest: Option<string>): string
  {
    DataStats + [Dot] + name + (if rest.Some? then [Dot] + rest.value else "")
  }

  lemma SplitColumnPath(name: string, rest: Option<string>)
    requires Dot !in name
    ensures Split(ColumnPath(name, rest)) ==
      [DataStats, name] + (if rest.Some? then Split(rest.value) else [])
  {
    var p := ColumnPath(name, rest);
    assert p == DataStats + [Dot] + (name + (if rest.Some? then [Dot] + rest.value else ""));
    SplitFirstAt(DataStats, name + (if rest.Some? then [Dot] + rest.value else ""));
    if rest.Some? {
      SplitFirstAt(name, rest.value);
      assert name + [Dot] + rest.value == name + ([Dot] + rest.value);
    } else {
      SplitFirstNoDot(name);
      assert name + "" == name;
    }
  }

  /** Which paths are rewritten: `data_stats.NAME...` is when `NAME` is not `*`;
      `data_stats.*...` is not. */
  lemma ColumnPathNeedsSchema(name: string, rest: Option<string>)
    requires Dot !in name
    ensures NeedsSchema(ColumnPath(name, rest)) <==> name != Wildcard
    ensures Split(ColumnPath(name, rest))[1] == name
  {
    SplitColumnPath(name, rest);
  }

  /** A bare `data_stats`, and any path that does not start with `data_stats`, is never
      rewritten. */
  lemma OtherPathsKept(report: Value, p: string)
    requires p == DataStats || Split(p)[0] != DataStats
    ensures !NeedsSchema(p)
    ensures RewritePath(report, p) == [p]
  {
    if p == DataStats {
      SplitFirstNoDot(p);
    }
  }

  /** Writing `x` over the second segment of a column path, as the source does with
      `key_list[1] = str(i)` and `'.'.join(key_list)`, gives the column path of `x`. */
  lemma ReplaceColumn(name: string, x: string, rest: Option<string>)
    requires Dot !in name && Dot !in x
    ensures Join(Split(ColumnPath(name, rest))[1 := x]) == ColumnPath(x, rest)
  {
    SplitColumnPath(name, rest);
    SplitColumnPath(x, rest);
    var tail := if rest.Some? then Split(rest.value) else [];
    assert Split(ColumnPath(name, rest))[1 := x] == [DataStats, x] + tail;
    JoinSplit(ColumnPath(x, rest));
  }

  /** A column path turns into one path per schema position of the column, in the
      schema's order, each with the position written in decimal where the name was. */
  lemma RewriteColumnPath(report: Value, name: string, rest: Option<string>)
    requires Dot !in name && name != Wildcard
    requires SchemaIndices(report, name).Some?
    ensures Split(ColumnPath(name, rest))[1] == name
    ensures NeedsSchema(ColumnPath(name, rest))
    ensures var idxs := SchemaIndices(report, name).value;
      RewritePath(report, ColumnPath(name, rest)) ==
        seq(|idxs|, j requires 0 <= j < |idxs| => ColumnPath(IntToStr(idxs[j]), rest))
  {
    ColumnPathNeedsSchema(name, rest);
    var p := ColumnPath(name, rest);
    var idxs := SchemaIndices(report, name).value;
    var r := RewritePath(report, p);
    forall j | 0 <= j < |idxs|
      ensures r[j] == ColumnPath(IntToStr(idxs[j]), rest)
    {
      ReplaceColumn(name, IntToStr(idxs[j]), rest);
    }
  }

  /** One column path per position, as the rewrite produces them. */
  function PositionPaths(idxs: seq<int>, rest: string): seq<string>
  {
    seq(|idxs|, j requires 0 <= j < |idxs| => ColumnPath(IntToStr(idxs[j]), Some(rest)))
  }

  /** The paths `POS.rest`, one per position, as they reach `data_stats`. */
  function IndexPaths(idxs: seq<int>, rest: string): seq<string>
  {
    if |idxs| == 0 then [] else [IntToStr(idxs[0]) + [Dot] + rest] + IndexPaths(idxs[1..], rest)
  }

  lemma {:induction false} PositionPathsAtDataStats(idxs: seq<int>, rest: string)
    requires |rest| > 0
    ensures Residual(PositionPaths(idxs, rest), StrKey(DataStats)) == IndexPaths(idxs, rest)
  {
    if |idxs| > 0 {
      var x := IntToStr(idxs[0]);
      var paths := PositionPaths(idxs, rest);
      assert paths[0] == DataStats + [Dot] + (x + [Dot] + rest);
      SplitFirstAt(DataStats, x + [Dot] + rest);
      assert Step(paths[0]) == Some((DataStats, x + [Dot] + rest));
      assert paths[1..] == PositionPaths(idxs[1..], rest);
      PositionPathsAtDataStats(idxs[1..], rest);
    }
  }

  /** The path `str(x).rest` steps into `rest` at the records, and there selects exactly
      the record at position `x`. */
  lemma PositionStep(x: int, rest: string, i: nat)
    requires |rest| > 0
    ensures Step(IntToStr(x) + [Dot] + rest) == Some((IntToStr(x), rest))
    ensures IndexMatches(i, IntToStr(x)) <==> x == i
  {
    SplitFirstAt(IntToStr(x), rest);
    if x >= 0 {
      DigitsRoundTrip(x);
    } else {
      NegativeNotDigits(x);
    }
  }

  lemma {:induction false} PositionPathsAtRecord(idxs: seq<int>, rest: string, i: nat)
    requires |rest| > 0
    ensures var rs := RecordResidual(IndexPaths(idxs, rest), i);
      (forall q :: q in rs ==> q == rest) && (rest in rs <==> i in idxs)
  {
    if |idxs| > 0 {
      var x := idxs[0];
      var paths := IndexPaths(idxs, rest);
      PositionStep(x, rest, i);
      assert paths[1..] == IndexPaths(idxs[1..], rest);
      PositionPathsAtRecord(idxs[1..], rest, i);
      assert i in idxs <==> i == x || i in idxs[1..];
    }
  }

  /** Column addressing end to end: after the rewrite, the path `data_stats.NAME.rest`
      hands `rest` to the `data_stats` record at position `i` exactly when `i` is one of
      the column's schema positions, and hands nothing else to any record. */
  lemma ColumnPathReachesItsRecords(report: Value, name: string, rest: string, i: nat)
    requires Dot !in name && name != Wildcard && |rest| > 0
    requires SchemaIndices(report, name).Some?
    ensures Split(ColumnPath(name, Some(rest)))[1] == name
    ensures NeedsSchema(ColumnPath(name, Some(rest)))
    ensures var rs := RecordResidual(Residual(RewritePath(report, ColumnPath(name, Some(rest))), StrKey(DataStats)), i);
      (forall q :: q in rs ==> q == rest) && (rest in rs <==> i in SchemaIndices(report, name).value)
  {
    var idxs := SchemaIndices(report, name).value;
    RewriteColumnPath(report, name, Some(rest));
    assert RewritePath(report, ColumnPath(name, Some(rest))) == PositionPaths(idxs, rest);
    PositionPathsAtDataStats(idxs, rest);
    PositionPathsAtRecord(idxs, rest, i);
  }

  /** A path `first.q` hands `q` to every child that `first` selects. */
  lemma ResidualIncludes(paths: seq<string>, k: Key, first: string, q: string)
    requires Dot !in first && |q| > 0 && KeyMatches(k, first)
    requires first + [Dot] + q in paths
    ensures q in Residual(paths, k)
  {
    var p := first + [Dot] + q;
    assert FirstSegmentBefore(p, q) == first;
    assert SplitsInto(p, q);
    ResidualMembers(paths, k, q);
  }

  /** A path `first.q` hands `q` to every record that `first` selects. */
  lemma RecordResidualIncludes(paths: seq<string>, i: nat, first: string, q: string)
    requires Dot !in first && |q| > 0 && IndexMatches(i, first)
    requires first + [Dot] + q in paths
    ensures q in RecordResidual(paths, i)
  {
    var p := first + [Dot] + q;
    assert FirstSegmentBefore(p, q) == first;
    assert SplitsInto(p, q);
    RecordResidualMembers(paths, i, q);
  }

  /** Paths that name no column survive the rewrite. */
  lemma {:induction false} RewriteKeeps(report: Value, omit: seq<string>, p: string)
    requires Resolves(report, omit)
    requires p in omit && !NeedsSchema(p)
    ensures p in Rewrite(report, omit)
  {
    if omit[0] != p {
      RewriteKeeps(report, omit[1..], p);
    }
  }

  /** Only paths that start with `data_stats.` consult the schema. */
  lemma OutsideDataStats(first: string, q: string)
    requires Dot !in first && first != DataStats
    ensures !NeedsSchema(first + [Dot] + q)
    ensures !NeedsSchema(first)
  {
    SplitFirstAt(first, q);
    SplitFirstNoDot(first);
  }

  /** A dot-free path names no column. */
  lemma SingleSegmentNoSchema(s: string)
    requires Dot !in s
    ensures !NeedsSchema(s)
  {
    SplitFirstNoDot(s);
  }

  /** `data_stats.*.statistics.NAME` passes `*.statistics.NAME` to `data_stats` and names
      no column. */
  lemma VerbosePathShape(stat: string)
    ensures VerbosePath(stat) == DataStats + [Dot] + (Wildcard + [Dot] + ("statistics" + [Dot] + stat))
    ensures !NeedsSchema(VerbosePath(stat))
  {
    ColumnPathNeedsSchema(Wildcard, Some("statistics" + [Dot] + stat));
  }

  /** Each verbose statistic is a single key, so its compact path ends one level below
      `statistics`. */
  lemma VerboseStatisticIsKey(i: nat)
    requires i < |VerboseStatistics|
    ensures |VerboseStatistics[i]| > 0 && Dot !in VerboseStatistics[i]
  {
    assert Dot !in VerboseStatistics[0] && Dot !in VerboseStatistics[1] && Dot !in VerboseStatistics[2];
    assert Dot !in VerboseStatistics[3] && Dot !in VerboseStatistics[4];
  }

  /** A path with a wildcard first segment passes the `data_stats` level whole, and there
      the record level wants a position or `*`: a remainder whose first segment is neither
      reaches no record. */
  lemma WildcardSkipsRecordLevel(q: string, j: nat)
    requires |q| > 0
    ensures Residual([Wildcard + [Dot] + q], StrKey(DataStats)) == [q]
    ensures Step(q).None? ==> RecordResidual([q], j) == []
    ensures Step(q).Some? && !IndexMatches(j, Step(q).value.0) ==> RecordResidual([q], j) == []
  {
    SplitFirstAt(Wildcard, q);
  }

  /** `*.statistics.histogram` at the level holding `data_stats` reaches `data_stats` as
      `statistics.histogram`, which no record receives: the wildcard the docstring promises
      does not reach inside the `data_stats` list. */
  lemma WildcardMissesRecords(j: nat)
    ensures Residual(["*.statistics.histogram"], StrKey(DataStats)) == ["statistics.histogram"]
    ensures RecordResidual(["statistics.histogram"], j) == []
  {
    var first := "statistics";
    var q := first + [Dot] + "histogram";
    StatisticsHistogramText(first, q);
    WildcardSkipsRecordLevel(q, j);
    SplitFirstAt(first, "histogram");
    assert Step(q) == Some((first, "histogram"));
  }

  /** The spellings the example above works with. */
  lemma StatisticsHistogramText(first: string, q: string)
    requires first == "statistics" && q == first + [Dot] + "histogram"
    ensures q == "statistics.histogram" && Wildcard + [Dot] + q == "*.statistics.histogram"
    ensures Dot !in first && !IsDigits(first) && first != Wildcard
  {
    assert !('0' <= first[0] <= '9');
    assert |first| != |Wildcard|;
  }

  /** A bare `*` is compared with keys like any other path: it drops only a key that is
      literally `*`. */
  lemma BareWildcardDropsOnlyStar(k: Key)
    ensures Omitted(k, [Wildcard]) <==> k == StrKey(Wildcard)
  {
  }
}
