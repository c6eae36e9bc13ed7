/** What `_prepare_report` promises about its output, proved about the model. */
module PrepareProperties {
  import opened Wrappers
  import opened Text
  import opened OrderedDict
  import opened ReportValue
  import opened OmitPaths
  import opened PrepareReport

  /** The keys of `ks` that the paths do not drop, in their original order. */
  function Kept(ks: seq<Key>, paths: seq<string>): (r: seq<Key>)
    ensures |r| <= |ks|
    ensures forall k :: k in r <==> k in ks && !Omitted(k, paths)
  {
    if |ks| == 0 then []
    else
      var rest := Kept(ks[1..], paths);
      assert forall k :: k in ks <==> k == ks[0] || k in ks[1..];
      if Omitted(ks[0], paths) then rest else [ks[0]] + rest
  }

  /** Level by level, the output keys are the input keys minus the dropped ones, in input
      order. */
  lemma {:induction false} KeysOfPrepareFrom(report: Value, i: nat, fmt: Format, paths: seq<string>, leaves: Leaves)
    requires report.Dict? && i <= |report.entries| && fmt != Compact
    requires forall j :: i <= j < |report.entries| ==>
      EntryPreparable(report.entries[j].0, report.entries[j].1, paths)
    ensures Keys(PrepareFrom(report, i, fmt, paths, leaves)) == Kept(Keys(report.entries[i..]), paths)
    decreases |report.entries| - i
  {
    if i < |report.entries| {
      KeysOfPrepareFrom(report, i + 1, fmt, paths, leaves);
      var ks := Keys(report.entries[i..]);
      assert ks[1..] == Keys(report.entries[i + 1..]);
      var r := PrepareFrom(report, i, fmt, paths, leaves);
      var rest := PrepareFrom(report, i + 1, fmt, paths, leaves);
      if !Omitted(report.entries[i].0, paths) {
        assert Keys(r) == [report.entries[i].0] + Keys(rest);
      }
    }
  }

  /** `fmt_report[k]` at one level: absent when `k` is dropped or missing, otherwise the
      prepared form of the input's value under `k`. */
  lemma LookupPrepared(report: Value, i: nat, fmt: Format, paths: seq<string>, leaves: Leaves, k: Key)
    requires report.Dict? && i <= |report.entries| && fmt != Compact
    requires forall j :: i <= j < |report.entries| ==>
      EntryPreparable(report.entries[j].0, report.entries[j].1, paths)
    ensures var found := Lookup(report.entries[i..], k);
      found.Some? ==> EntryPreparable(k, found.value, paths)
    ensures var found := Lookup(report.entries[i..], k);
      Lookup(PrepareFrom(report, i, fmt, paths, leaves), k) ==
        if Omitted(k, paths) || found.None? then None
        else Some(PrepareValue(k, found.value, fmt, paths, leaves))
  {
    var f := (k': Key, v': Value) => PreparedOr(k', v', fmt, paths, leaves);
    var outs := Walks(report, i, fmt, paths, leaves);
    WalksShape(report, i, fmt, paths, leaves, outs);
    LookupInWalk(outs, report.entries, paths, f, i, k);
    var found := Lookup(report.entries[i..], k);
    if found.Some? {
      var d := report.entries[i..];
      var idx :| 0 <= idx < |d| && d[idx] == (k, found.value);
      assert report.entries[i + idx] == (k, found.value);
    }
  }

  /** The walks from every position `i..` of a level, one per position. */
  ghost function Walks(report: Value, i: nat, fmt: Format, paths: seq<string>, leaves: Leaves): (outs: seq<seq<(Key, Value)>>)
    requires report.Dict? && i <= |report.entries| && fmt != Compact
    requires forall j :: i <= j < |report.entries| ==>
      EntryPreparable(report.entries[j].0, report.entries[j].1, paths)
    ensures |outs| == |report.entries| + 1 && outs[|report.entries|] == []
    ensures forall m :: i <= m <= |report.entries| ==> outs[m] == PrepareFrom(report, m, fmt, paths, leaves)
  {
    seq(|report.entries| + 1, m requires 0 <= m <= |report.entries| =>
      if i <= m then PrepareFrom(report, m, fmt, paths, leaves) else [])
  }

  /** Each walk drops an omitted key and puts a kept entry, prepared, in front of the next. */
  lemma WalksShape(report: Value, i: nat, fmt: Format, paths: seq<string>, leaves: Leaves, outs: seq<seq<(Key, Value)>>)
    requires report.Dict? && i <= |report.entries| && fmt != Compact
    requires forall j :: i <= j < |report.entries| ==>
      EntryPreparable(report.entries[j].0, report.entries[j].1, paths)
    requires outs == Walks(report, i, fmt, paths, leaves)
    ensures forall m :: i <= m < |report.entries| && Omitted(report.entries[m].0, paths) ==> outs[m] == outs[m + 1]
    ensures forall m :: i <= m < |report.entries| && !Omitted(report.entries[m].0, paths) ==>
      outs[m] == [(report.entries[m].0, PreparedOr(report.entries[m].0, report.entries[m].1, fmt, paths, leaves))] + outs[m + 1]
  {
    forall m | i <= m < |report.entries|
      ensures Omitted(report.entries[m].0, paths) ==> outs[m] == outs[m + 1]
      ensures !Omitted(report.entries[m].0, paths) ==>
        outs[m] == [(report.entries[m].0, PreparedOr(report.entries[m].0, report.entries[m].1, fmt, paths, leaves))] + outs[m + 1]
    {
      PrepareFromStep(report, m, fmt, paths, leaves);
    }
  }

  /** The prepared value of a kept entry the walk accepts, and the input value otherwise. */
  ghost function PreparedOr(k: Key, v: Value, fmt: Format, paths: seq<string>, leaves: Leaves): Value
  {
    if fmt != Compact && !Omitted(k, paths) && EntryPreparable(k, v, paths) then
      PrepareValue(k, v, fmt, paths, leaves)
    else v
  }

  /** The same for any sequence of walks from each position that drop omitted keys and put
      `f` of each kept entry in front. */
  lemma {:induction false} LookupInWalk(outs: seq<seq<(Key, Value)>>, entries: seq<(Key, Value)>, paths: seq<string>,
                                        f: (Key, Value) -> Value, i: nat, k: Key)
    requires |outs| == |entries| + 1 && i <= |entries| && outs[|entries|] == []
    requires forall m :: i <= m < |entries| && Omitted(entries[m].0, paths) ==> outs[m] == outs[m + 1]
    requires forall m :: i <= m < |entries| && !Omitted(entries[m].0, paths) ==>
      outs[m] == [(entries[m].0, f(entries[m].0, entries[m].1))] + outs[m + 1]
    ensures var found := Lookup(entries[i..], k);
      Lookup(outs[i], k) == if Omitted(k, paths) || found.None? then None else Some(f(k, found.value))
    decreases |entries| - i
  {
    if i < |entries| {
      LookupInWalk(outs, entries, paths, f, i + 1, k);
      assert entries[i..] == [entries[i]] + entries[i + 1..];
    }
  }

  /** One turn of the walk over a level's entries. */
  lemma PrepareFromStep(report: Value, i: nat, fmt: Format, paths: seq<string>, leaves: Leaves)
    requires report.Dict? && i < |report.entries| && fmt != Compact
    requires forall j :: i <= j < |report.entries| ==>
      EntryPreparable(report.entries[j].0, report.entries[j].1, paths)
    ensures var (k, v) := report.entries[i];
      var rest := PrepareFrom(report, i + 1, fmt, paths, leaves);
      PrepareFrom(report, i, fmt, paths, leaves) ==
        if Omitted(k, paths) then rest else [(k, PrepareValue(k, v, fmt, paths, leaves))] + rest
  {
  }

  /** The position of the input entry that output entry `t` of the walk from `i` comes
      from: the `t`-th kept entry at or after `i`. */
  function OriginOf(entries: seq<(Key, Value)>, i: nat, paths: seq<string>, t: nat): (j: nat)
    ensures i <= j
    decreases |entries| - i
  {
    if i >= |entries| then i
    else if Omitted(entries[i].0, paths) then OriginOf(entries, i + 1, paths, t)
    else if t == 0 then i
    else OriginOf(entries, i + 1, paths, t - 1)
  }

  /** Every output entry comes from an input entry that was kept. */
  lemma PreparedOrigin(report: Value, i: nat, fmt: Format, paths: seq<string>, leaves: Leaves, t: nat)
    requires report.Dict? && i <= |report.entries| && fmt != Compact
    requires forall j :: i <= j < |report.entries| ==>
      EntryPreparable(report.entries[j].0, report.entries[j].1, paths)
    requires t < |PrepareFrom(report, i, fmt, paths, leaves)|
    ensures var j := OriginOf(report.entries, i, paths, t);
      && j < |report.entries|
      && !Omitted(report.entries[j].0, paths)
      && PrepareFrom(report, i, fmt, paths, leaves)[t] ==
           (report.entries[j].0, PrepareValue(report.entries[j].0, report.entries[j].1, fmt, paths, leaves))
  {
    var f := (k': Key, v': Value) => PreparedOr(k', v', fmt, paths, leaves);
    var outs := Walks(report, i, fmt, paths, leaves);
    WalksShape(report, i, fmt, paths, leaves, outs);
    OriginInWalk(outs, report.entries, paths, f, i, t);
  }

  /** The same for any sequence of walks from each position that drop omitted keys and put
      `f` of each kept entry in front. */
  lemma {:induction false} OriginInWalk(outs: seq<seq<(Key, Value)>>, entries: seq<(Key, Value)>, paths: seq<string>,
                                        f: (Key, Value) -> Value, i: nat, t: nat)
    requires |outs| == |entries| + 1 && i <= |entries| && outs[|entries|] == []
    requires forall m :: i <= m < |entries| && Omitted(entries[m].0, paths) ==> outs[m] == outs[m + 1]
    requires forall m :: i <= m < |entries| && !Omitted(entries[m].0, paths) ==>
      outs[m] == [(entries[m].0, f(entries[m].0, entries[m].1))] + outs[m + 1]
    requires t < |outs[i]|
    ensures var j := OriginOf(entries, i, paths, t);
      && j < |entries| && !Omitted(entries[j].0, paths)
      && outs[i][t] == (entries[j].0, f(entries[j].0, entries[j].1))
    decreases |entries| - i
  {
    if i == |entries| {
      assert false;
    } else if Omitted(entries[i].0, paths) {
      OriginInWalk(outs, entries, paths, f, i + 1, t);
    } else if t > 0 {
      assert outs[i][t] == outs[i + 1][t - 1];
      OriginInWalk(outs, entries, paths, f, i + 1, t - 1);
    }
  }

  /** The omit list one level of the walk works with: the caller's list (extended in compact
      mode) with column names rewritten through this level's schema. */
  function LevelPaths(report: Value, fmt: Format, omit: seq<string>): seq<string>
    requires Preparable(report, StartPaths(fmt, omit))
  {
    Rewrite(report, StartPaths(fmt, omit))
  }

  /** A key survives exactly when no (rewritten) omit path equals it, and the survivors keep
      their input order. */
  lemma PreparedKeys(report: Value, fmt: Format, omit: seq<string>, leaves: Leaves)
    requires Preparable(report, StartPaths(fmt, omit)) && LevelFormat(fmt) != Flat
    ensures Keys(Prepare(report, fmt, omit, leaves).entries) == Kept(Keys(report.entries), LevelPaths(report, fmt, omit))
  {
    KeysOfPrepareFrom(report, 0, LevelFormat(fmt), LevelPaths(report, fmt, omit), leaves);
    assert report.entries[0..] == report.entries;
  }

  /** `fmt_report[k]` at the top level. */
  lemma PreparedLookup(report: Value, fmt: Format, omit: seq<string>, leaves: Leaves, k: Key)
    requires Preparable(report, StartPaths(fmt, omit)) && LevelFormat(fmt) != Flat
    ensures var found := Lookup(report.entries, k);
      found.Some? ==> EntryPreparable(k, found.value, LevelPaths(report, fmt, omit))
    ensures var found := Lookup(report.entries, k);
      var paths := LevelPaths(report, fmt, omit);
      Lookup(Prepare(report, fmt, omit, leaves).entries, k) ==
        if Omitted(k, paths) || found.None? then None
        else Some(PrepareValue(k, found.value, LevelFormat(fmt), paths, leaves))
  {
    LookupPrepared(report, 0, LevelFormat(fmt), LevelPaths(report, fmt, omit), leaves, k);
    assert report.entries[0..] == report.entries;
  }

  /** `profile_schema`, when kept, is copied as it is: it is not walked, so no path reaches
      inside it. */
  lemma SchemaCopied(report: Value, fmt: Format, omit: seq<string>, leaves: Leaves, schema: Value)
    requires Preparable(report, StartPaths(fmt, omit)) && LevelFormat(fmt) != Flat
    requires Lookup(report.entries, StrKey(ProfileSchema)) == Some(schema)
    requires !Omitted(StrKey(ProfileSchema), LevelPaths(report, fmt, omit))
    ensures Lookup(Prepare(report, fmt, omit, leaves).entries, StrKey(ProfileSchema)) == Some(Canon(schema))
    ensures !schema.Set? ==> Lookup(Prepare(report, fmt, omit, leaves).entries, StrKey(ProfileSchema)) == Some(schema)
  {
    PreparedLookup(report, fmt, omit, leaves, StrKey(ProfileSchema));
  }

  /** A dict under an ordinary key is prepared recursively with the residual paths the key
      selects. */
  lemma ChildPrepared(report: Value, fmt: Format, omit: seq<string>, leaves: Leaves, k: Key, child: Value)
    requires Preparable(report, StartPaths(fmt, omit)) && LevelFormat(fmt) != Flat
    requires Lookup(report.entries, k) == Some(child) && child.Dict?
    requires k != StrKey(ProfileSchema) && !Omitted(k, LevelPaths(report, fmt, omit))
    ensures Preparable(child, Residual(LevelPaths(report, fmt, omit), k))
    ensures Lookup(Prepare(report, fmt, omit, leaves).entries, k) ==
      Some(Prepare(child, LevelFormat(fmt), Residual(LevelPaths(report, fmt, omit), k), leaves))
  {
    PreparedLookup(report, fmt, omit, leaves, k);
  }

  /** A `data_stats` list keeps its length: record `j` is prepared recursively with the
      residuals selected by `j` or `*` when it is a dict, an empty record becomes `{}`, and
      no record is replaced by null. */
  lemma RecordsPrepared(report: Value, fmt: Format, omit: seq<string>, leaves: Leaves, records: seq<Value>)
    requires Preparable(report, StartPaths(fmt, omit)) && LevelFormat(fmt) != Flat
    requires Lookup(report.entries, StrKey(DataStats)) == Some(List(records))
    requires !Omitted(StrKey(DataStats), LevelPaths(report, fmt, omit))
    ensures var columns := Residual(LevelPaths(report, fmt, omit), StrKey(DataStats));
      forall j :: 0 <= j < |records| ==>
        if records[j].Dict? then Preparable(records[j], RecordResidual(columns, j))
        else EmptyRecord(records[j])
    ensures var columns := Residual(LevelPaths(report, fmt, omit), StrKey(DataStats));
      var out := Lookup(Prepare(report, fmt, omit, leaves).entries, StrKey(DataStats));
      && out.Some? && out.value.List? && |out.value.items| == |records|
      && forall j :: 0 <= j < |records| ==>
           && out.value.items[j].Dict?
           && (records[j].Dict? ==>
                 out.value.items[j] == Prepare(records[j], LevelFormat(fmt), RecordResidual(columns, j), leaves))
           && (!records[j].Dict? ==> out.value.items[j] == Dict([]))
  {
    PreparedLookup(report, fmt, omit, leaves, StrKey(DataStats));
  }

  /** Any other value is a leaf: sets become sorted lists, then the format's leaf rule
      applies. */
  lemma LeafPrepared(report: Value, fmt: Format, omit: seq<string>, leaves: Leaves, k: Key, v: Value)
    requires Preparable(report, StartPaths(fmt, omit)) && LevelFormat(fmt) != Flat
    requires Lookup(report.entries, k) == Some(v) && !v.Dict?
    requires k != StrKey(ProfileSchema) && !(k == StrKey(DataStats) && (v.List? || v.Set?))
    requires !Omitted(k, LevelPaths(report, fmt, omit))
    ensures Lookup(Prepare(report, fmt, omit, leaves).entries, k) == Some(FormatLeaf(Canon(v), LevelFormat(fmt), leaves))
  {
    PreparedLookup(report, fmt, omit, leaves, k);
  }

  /** `compact` is `pretty` with the five verbose statistics paths appended to the omit
      list. */
  lemma CompactIsPretty(report: Value, omit: seq<string>, leaves: Leaves)
    requires Preparable(report, omit + CompactPaths)
    ensures Preparable(report, StartPaths(Compact, omit))
    ensures Prepare(report, Compact, omit, leaves) == Prepare(report, Pretty, omit + CompactPaths, leaves)
  {
  }

  /** In flat mode the output has no dict values and no repeated keys. */
  lemma FlatOutput(report: Value, omit: seq<string>, leaves: Leaves)
    requires Preparable(report, omit)
    ensures var out := Prepare(report, Flat, omit, leaves);
      DistinctKeys(out.entries) && forall j :: 0 <= j < |out.entries| ==> !out.entries[j].1.Dict?
  {
  }

  /** `report["data_stats"][j]["statistics"]`, when that lookup finds a list and then two
      dicts. */
  function ColumnStatistics(report: Value, j: nat): Option<seq<(Key, Value)>>
  {
    if !report.Dict? then None
    else
      var columns := Lookup(report.entries, StrKey(DataStats));
      if columns.None? || !columns.value.List? || j >= |columns.value.items| then None
      else
        var record := columns.value.items[j];
        if !record.Dict? then None
        else
          var stats := Lookup(record.entries, StrKey("statistics"));
          if stats.None? || !stats.value.Dict? then None else Some(stats.value.entries)
  }

  /** Compact's paths name no column, so they survive the top-level rewrite. */
  lemma CompactPathKept(report: Value, omit: seq<string>, i: nat)
    requires Preparable(report, StartPaths(Compact, omit))
    requires i < |CompactPaths|
    ensures CompactPaths[i] in LevelPaths(report, Compact, omit)
  {
    VerbosePathShape(VerboseStatistics[i]);
    assert CompactPaths[i] == VerbosePath(VerboseStatistics[i]);
    assert CompactPaths[i] in StartPaths(Compact, omit);
    RewriteKeeps(report, StartPaths(Compact, omit), CompactPaths[i]);
  }

  /** Compact's path for a verbose statistic reaches every `data_stats` record as
      `statistics.NAME`. */
  lemma VerbosePathReachesRecords(report: Value, omit: seq<string>, i: nat, j: nat)
    requires Preparable(report, StartPaths(Compact, omit))
    requires i < |VerboseStatistics|
    ensures "statistics" + [Dot] + VerboseStatistics[i] in
      RecordResidual(Residual(LevelPaths(report, Compact, omit), StrKey(DataStats)), j)
  {
    CompactPathKept(report, omit, i);
    VerbosePathReaches(LevelPaths(report, Compact, omit), i, j);
  }

  /** The same for any path list that holds compact's path. */
  lemma VerbosePathReaches(paths: seq<string>, i: nat, j: nat)
    requires i < |VerboseStatistics| && CompactPaths[i] in paths
    ensures "statistics" + [Dot] + VerboseStatistics[i] in RecordResidual(Residual(paths, StrKey(DataStats)), j)
  {
    var stat := VerboseStatistics[i];
    var rest := "statistics" + [Dot] + stat;
    VerbosePathShape(stat);
    assert CompactPaths[i] == VerbosePath(stat);
    ResidualIncludes(paths, StrKey(DataStats), DataStats, Wildcard + [Dot] + rest);
    RecordResidualIncludes(Residual(paths, StrKey(DataStats)), j, Wildcard, rest);
  }

  lemma StatisticPathReachesStatistics(paths: seq<string>, stat: string)
    requires |stat| > 0 && "statistics" + [Dot] + stat in paths
    ensures stat in Residual(paths, StrKey("statistics"))
  {
    ResidualIncludes(paths, StrKey("statistics"), "statistics", stat);
  }

  /** A record that receives `statistics.NAME` loses `NAME` from its statistics. */
  lemma RecordDropsStatistic(record: Value, paths: seq<string>, leaves: Leaves, stat: string)
    requires Preparable(record, paths)
    requires |stat| > 0 && Dot !in stat && "statistics" + [Dot] + stat in paths
    ensures var out := Prepare(record, Pretty, paths, leaves);
      var stats := Lookup(out.entries, StrKey("statistics"));
      stats.Some? && stats.value.Dict? ==> StrKey(stat) !in Keys(stats.value.entries)
  {
    var out := Prepare(record, Pretty, paths, leaves);
    var stats := Lookup(out.entries, StrKey("statistics"));
    if stats.Some? && stats.value.Dict? {
      OutsideDataStats("statistics", stat);
      RewriteKeeps(record, paths, "statistics" + [Dot] + stat);
      var levelPaths := LevelPaths(record, Pretty, paths);
      assert "statistics" + [Dot] + stat in levelPaths;
      PreparedLookup(record, Pretty, paths, leaves, StrKey("statistics"));
      var sv := Lookup(record.entries, StrKey("statistics")).value;
      assert sv.Dict?;
      assert StrKey("statistics") != StrKey(ProfileSchema);
      ChildPrepared(record, Pretty, paths, leaves, StrKey("statistics"), sv);
      var statPaths := Residual(levelPaths, StrKey("statistics"));
      assert stats.value == Prepare(sv, Pretty, statPaths, leaves);
      StatisticPathReachesStatistics(levelPaths, stat);
      SingleSegmentNoSchema(stat);
      RewriteKeeps(sv, statPaths, stat);
      assert Omitted(StrKey(stat), LevelPaths(sv, Pretty, statPaths));
      assert StrKey(stat) !in Kept(Keys(sv.entries), LevelPaths(sv, Pretty, statPaths));
      PreparedKeys(sv, Pretty, statPaths, leaves);
      assert StrKey(stat) !in Keys(Prepare(sv, Pretty, statPaths, leaves).entries);
    }
  }

  /** In compact mode no column's statistics keep any of the five verbose entries. */
  lemma CompactDropsVerboseStatistics(report: Value, omit: seq<string>, leaves: Leaves, j: nat, i: nat)
    requires Preparable(report, StartPaths(Compact, omit))
    requires i < |VerboseStatistics|
    ensures var stats := ColumnStatistics(Prepare(report, Compact, omit, leaves), j);
      stats.Some? ==> StrKey(VerboseStatistics[i]) !in Keys(stats.value)
  {
    var out := Prepare(report, Compact, omit, leaves);
    if ColumnStatistics(out, j).Some? {
      PreparedLookup(report, Compact, omit, leaves, StrKey(DataStats));
      var v := Lookup(report.entries, StrKey(DataStats)).value;
      assert v.List?;
      RecordsPrepared(report, Compact, omit, leaves, v.items);
      var columns := Residual(LevelPaths(report, Compact, omit), StrKey(DataStats));
      VerbosePathReachesRecords(report, omit, i, j);
      VerboseStatisticIsKey(i);
      if !v.items[j].Dict? {
        // an empty record comes back as `{}`, which has no statistics
        assert false;
      }
      RecordDropsStatistic(v.items[j], RecordResidual(columns, j), leaves, VerboseStatistics[i]);
    }
  }

  /** `data_stats: ["", set()]` comes out as `data_stats: [{}, {}]`: the loop over an empty
      record runs no turn. */
  lemma EmptyRecordsExample(leaves: Leaves)
    ensures var report := Dict([(StrKey(DataStats), List([Str(""), Set({})]))]);
      && Preparable(report, [])
      && Prepare(report, Pretty, [], leaves) == Dict([(StrKey(DataStats), List([Dict([]), Dict([])]))])
  {
    var k := StrKey(DataStats);
    var report := Dict([(k, List([Str(""), Set({})]))]);
    assert Rewrite(report, []) == [];
    assert !Omitted(k, []);
    assert RecordPreparable(Str(""), RecordResidual(Residual([], k), 0));
    assert RecordPreparable(Set({}), RecordResidual(Residual([], k), 1));
    assert PrepareValue(k, List([Str(""), Set({})]), Pretty, [], leaves) == List([Dict([]), Dict([])]);
    assert PrepareFrom(report, 0, Pretty, [], leaves) == [(k, List([Dict([]), Dict([])]))];
  }
}
