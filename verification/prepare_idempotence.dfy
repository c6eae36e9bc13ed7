/** Preparing a prepared report again changes nothing, for the formats that keep dicts
    nested. */
module PrepareIdempotence {
  import opened Wrappers
  import opened Text
  import opened OrderedDict
  import opened ReportValue
  import opened OmitPaths
  import opened PrepareReport
  import opened PrepareProperties

  /** Every numpy array in the report holds numbers. */
  ghost predicate ArraysNumeric(v: Value)
  {
    match v
    case Array(_) => NumericArray(v)
    case List(items) => forall j :: 0 <= j < |items| ==> ArraysNumeric(items[j])
    case Dict(entries) => forall j :: 0 <= j < |entries| ==> ArraysNumeric(entries[j].1)
    case _ => true
  }

  /** No `data_stats` value is a numpy array with an empty row: `tolist()` would make that
      row an empty record, which a second call turns into `{}`. */
  ghost predicate NoEmptyArrayRows(v: Value)
  {
    match v
    case List(items) => forall j :: 0 <= j < |items| ==> NoEmptyArrayRows(items[j])
    case Dict(entries) => forall j :: 0 <= j < |entries| ==>
      && NoEmptyArrayRows(entries[j].1)
      && (entries[j].0 == StrKey(DataStats) && entries[j].1.Array? ==>
            forall x :: x in entries[j].1.items ==> !EmptyRecord(x))
    case _ => true
  }

  /** Rounding a rounded number again leaves it as it is, as `round(x, 4)` does. */
  ghost predicate RoundIdempotent(leaves: Leaves)
  {
    forall x :: leaves.round4(leaves.round4(x)) == leaves.round4(x)
  }

  /** The formats whose output is a nested dict again. */
  predicate Nested(fmt: Format)
  {
    fmt == Unformatted || fmt == Pretty || fmt == Serializable
  }

  /** Formatting a formatted leaf again changes nothing. */
  lemma FormatLeafIdempotent(c: Value, fmt: Format, leaves: Leaves)
    requires fmt == Pretty ==> RoundIdempotent(leaves)
    ensures FormatLeaf(FormatLeaf(c, fmt, leaves), fmt, leaves) == FormatLeaf(c, fmt, leaves)
  {
  }

  /** The rewrite depends on the report only through the schema positions it looks up. */
  lemma {:induction false} RewriteDependsOnSchema(a: Value, b: Value, omit: seq<string>)
    requires Resolves(a, omit) && Resolves(b, omit)
    requires forall p :: p in omit && NeedsSchema(p) ==>
      SchemaIndices(a, Split(p)[1]) == SchemaIndices(b, Split(p)[1])
    ensures Rewrite(a, omit) == Rewrite(b, omit)
  {
    if |omit| > 0 {
      RewriteDependsOnSchema(a, b, omit[1..]);
    }
  }

  /** A column the prepared report still lists has the positions it had before. */
  lemma SchemaPreserved(report: Value, fmt: Format, omit: seq<string>, leaves: Leaves, name: string)
    requires Nested(fmt) && Preparable(report, omit)
    ensures var out := Prepare(report, fmt, omit, leaves);
      SchemaIndices(report, name).Some? && SchemaIndices(out, name).Some? ==>
        SchemaIndices(out, name) == SchemaIndices(report, name)
  {
    var out := Prepare(report, fmt, omit, leaves);
    if SchemaIndices(report, name).Some? && SchemaIndices(out, name).Some? {
      PreparedLookup(report, fmt, omit, leaves, StrKey(GlobalStats));
      var g := Lookup(report.entries, StrKey(GlobalStats)).value;
      ChildPrepared(report, fmt, omit, leaves, StrKey(GlobalStats), g);
      var gpaths := Residual(LevelPaths(report, fmt, omit), StrKey(GlobalStats));
      PreparedLookup(g, fmt, gpaths, leaves, StrKey(ProfileSchema));
      var s := Lookup(g.entries, StrKey(ProfileSchema)).value;
      SchemaCopied(g, fmt, gpaths, leaves, s);
    }
  }

  /** A record the walk accepts is a dict or empty. */
  lemma FirstRecordIsDict(records: Value, columns: seq<string>)
    ensures records.List? && |records.items| > 0 && RecordPreparable(records.items[0], RecordResidual(columns, 0)) ==>
      records.items[0].Dict? || EmptyRecord(records.items[0])
  {
  }

  /** `tolist()` of a numeric array with no empty row holds no record the walk accepts. */
  lemma ToListHoldsNoRecord(c: Value)
    requires NumericArray(c) && forall x :: x in c.items ==> !EmptyRecord(x)
    ensures forall j :: 0 <= j < |ToList(c).items| ==>
      !ToList(c).items[j].Dict? && !EmptyRecord(ToList(c).items[j])
  {
    forall j | 0 <= j < |ToList(c).items|
      ensures !ToList(c).items[j].Dict? && !EmptyRecord(ToList(c).items[j])
    {
      assert c.items[j] in c.items;
      if c.items[j].Array? {
        assert ToList(c).items[j] == ToList(c.items[j]);
      }
    }
  }

  /** Walking entries that are already prepared gives them back. */
  lemma {:induction false} RePrepareFrom(out: Value, t: nat, fmt: Format, paths: seq<string>, leaves: Leaves)
    requires out.Dict? && t <= |out.entries| && fmt != Compact
    requires forall s :: t <= s < |out.entries| ==>
      && !Omitted(out.entries[s].0, paths)
      && EntryPreparable(out.entries[s].0, out.entries[s].1, paths)
      && PrepareValue(out.entries[s].0, out.entries[s].1, fmt, paths, leaves) == out.entries[s].1
    ensures PrepareFrom(out, t, fmt, paths, leaves) == out.entries[t..]
    decreases |out.entries| - t
  {
    if t < |out.entries| {
      RePrepareFrom(out, t + 1, fmt, paths, leaves);
      assert out.entries[t..] == [out.entries[t]] + out.entries[t + 1..];
    }
  }

  /** `_prepare_report(_prepare_report(r, f, o), f, o) == _prepare_report(r, f, o)` for the
      nested formats, when the second call does not raise. */
  lemma {:induction false} Idempotent(report: Value, fmt: Format, omit: seq<string>, leaves: Leaves)
    requires Nested(fmt) && (fmt == Pretty ==> RoundIdempotent(leaves))
    requires ArraysNumeric(report) && (fmt == Serializable ==> NoEmptyArrayRows(report))
    requires Preparable(report, omit)
    requires Preparable(Prepare(report, fmt, omit, leaves), omit)
    ensures Prepare(Prepare(report, fmt, omit, leaves), fmt, omit, leaves) == Prepare(report, fmt, omit, leaves)
    decreases report, 1
  {
    var out := Prepare(report, fmt, omit, leaves);
    var paths := Rewrite(report, omit);
    forall p | p in omit && NeedsSchema(p)
      ensures SchemaIndices(report, Split(p)[1]) == SchemaIndices(out, Split(p)[1])
    {
      SchemaPreserved(report, fmt, omit, leaves, Split(p)[1]);
    }
    RewriteDependsOnSchema(report, out, omit);
    var entries := out.entries;
    forall t | 0 <= t < |entries|
      ensures && !Omitted(entries[t].0, paths)
              && EntryPreparable(entries[t].0, entries[t].1, paths)
              && PrepareValue(entries[t].0, entries[t].1, fmt, paths, leaves) == entries[t].1
    {
      PreparedOrigin(report, 0, fmt, paths, leaves, t);
      var j := OriginOf(report.entries, 0, paths, t);
      ValueIdempotent(report.entries[j].0, report.entries[j].1, fmt, paths, leaves);
    }
    RePrepareFrom(out, 0, fmt, paths, leaves);
  }

  /** The same, for one record of a `data_stats` list: a dict is prepared again to itself,
      and the `{}` an empty record became stays `{}`. */
  lemma {:induction false} RecordIdempotent(rec: Value, fmt: Format, paths: seq<string>, leaves: Leaves)
    requires Nested(fmt) && (fmt == Pretty ==> RoundIdempotent(leaves))
    requires ArraysNumeric(rec) && (fmt == Serializable ==> NoEmptyArrayRows(rec))
    requires RecordPreparable(rec, paths)
    requires RecordPreparable(PrepareRecord(rec, fmt, paths, leaves), paths)
    ensures PrepareRecord(PrepareRecord(rec, fmt, paths, leaves), fmt, paths, leaves) == PrepareRecord(rec, fmt, paths, leaves)
    decreases rec, 3
  {
    if rec.Dict? {
      Idempotent(rec, fmt, paths, leaves);
    } else {
      assert PrepareFrom(Dict([]), 0, fmt, Rewrite(Dict([]), paths), leaves) == [];
    }
  }

  /** The same, for one kept entry. */
  lemma {:induction false} ValueIdempotent(k: Key, v: Value, fmt: Format, paths: seq<string>, leaves: Leaves)
    requires Nested(fmt) && (fmt == Pretty ==> RoundIdempotent(leaves))
    requires ArraysNumeric(v) && (fmt == Serializable ==> NoEmptyArrayRows(v))
    requires fmt == Serializable && k == StrKey(DataStats) && v.Array? ==>
      forall x :: x in v.items ==> !EmptyRecord(x)
    requires !Omitted(k, paths) && EntryPreparable(k, v, paths)
    requires EntryPreparable(k, PrepareValue(k, v, fmt, paths, leaves), paths)
    ensures PrepareValue(k, PrepareValue(k, v, fmt, paths, leaves), fmt, paths, leaves) == PrepareValue(k, v, fmt, paths, leaves)
    decreases v, 2
  {
    var once := PrepareValue(k, v, fmt, paths, leaves);
    if k == StrKey(DataStats) && v.List? {
      var columns := Residual(paths, k);
      forall j | 0 <= j < |v.items|
        ensures PrepareRecord(once.items[j], fmt, RecordResidual(columns, j), leaves) == once.items[j]
      {
        assert once.items[j] == PrepareRecord(v.items[j], fmt, RecordResidual(columns, j), leaves);
        RecordIdempotent(v.items[j], fmt, RecordResidual(columns, j), leaves);
      }
    } else if k == StrKey(DataStats) && v.Set? {
      assert once == List([]);
    } else if k == StrKey(ProfileSchema) {
    } else if v.Dict? {
      Idempotent(v, fmt, Residual(paths, k), leaves);
    } else {
      var c := Canon(v);
      FormatLeafIdempotent(c, fmt, leaves);
      if k == StrKey(DataStats) && once.List? {
        // only `tolist()` of a numeric array lands here, and it holds no records
        assert fmt == Serializable && c.Array?;
        assert once == ToList(c) && NumericArray(c);
        ToListHoldsNoRecord(c);
        FirstRecordIsDict(once, Residual(paths, k));
        assert |once.items| == 0;
      }
    }
  }

  /** Why `Idempotent` asks for `NoEmptyArrayRows` in `serializable` mode: `tolist()` turns
      `np.array([[]])` under `data_stats` into `[[]]`, and a second call turns that empty row
      into `{}`. Every other requirement of `Idempotent` holds here. */
  lemma EmptyArrayRowNotIdempotent(leaves: Leaves)
    ensures var report := Dict([(StrKey(DataStats), Array([Array([])]))]);
      var once := Dict([(StrKey(DataStats), List([List([])]))]);
      && ArraysNumeric(report) && Preparable(report, []) && Preparable(once, [])
      && Prepare(report, Serializable, [], leaves) == once
      && Prepare(once, Serializable, [], leaves) == Dict([(StrKey(DataStats), List([Dict([])]))])
  {
    var k := StrKey(DataStats);
    var report := Dict([(k, Array([Array([])]))]);
    var once := Dict([(k, List([List([])]))]);
    assert Rewrite(report, []) == [] && Rewrite(once, []) == [];
    assert !Omitted(k, []);
    assert ToList(Array([Array([])])) == List([List([])]) by {
      assert ToList(Array([])) == List([]);
    }
    assert PrepareValue(k, Array([Array([])]), Serializable, [], leaves) == List([List([])]);
    assert PrepareFrom(report, 0, Serializable, [], leaves) == once.entries;
    assert RecordPreparable(List([]), RecordResidual(Residual([], k), 0));
    assert PrepareValue(k, List([List([])]), Serializable, [], leaves) == List([Dict([])]);
    assert PrepareFrom(once, 0, Serializable, [], leaves) == [(k, List([Dict([])]))];
  }

  /** The schema `{"a": [0]}` puts column `a` at position 0. */
  lemma ColumnAAtZero(report: Value)
    requires report == Dict([(StrKey(GlobalStats), Dict([(StrKey(ProfileSchema), Dict([(StrKey("a"), List([Int(0)]))]))]))])
    ensures SchemaIndices(report, "a") == Some([0])
  {
    var global := Dict([(StrKey(ProfileSchema), Dict([(StrKey("a"), List([Int(0)]))]))]);
    assert Lookup(report.entries, StrKey(GlobalStats)) == Some(global);
    assert Lookup(global.entries, StrKey(ProfileSchema)) == Some(Dict([(StrKey("a"), List([Int(0)]))]));
    assert Lookup([(StrKey("a"), List([Int(0)]))], StrKey("a")) == Some(List([Int(0)]));
    var items := [Int(0)];
    assert seq(|items|, j requires 0 <= j < |items| => items[j].i) == [0];
  }

  /** Why `Idempotent` asks that the second call does not raise: omitting `global_stats`
      together with a column path removes the schema the second call looks the column up
      in, and that call raises `KeyError`. The first call does not raise. */
  lemma DroppedSchemaNotPreparable(leaves: Leaves)
    ensures var schema := Dict([(StrKey(ProfileSchema), Dict([(StrKey("a"), List([Int(0)]))]))]);
      var report := Dict([(StrKey(GlobalStats), schema)]);
      var omit := [GlobalStats, DataStats + ".a.x"];
      && ArraysNumeric(report) && Preparable(report, omit)
      && Prepare(report, Pretty, omit, leaves) == Dict([])
      && !Preparable(Dict([]), omit)
  {
    var schema := Dict([(StrKey(ProfileSchema), Dict([(StrKey("a"), List([Int(0)]))]))]);
    var report := Dict([(StrKey(GlobalStats), schema)]);
    var omit := [GlobalStats, DataStats + ".a.x"];
    DroppedSchemaFirstCall(report, omit);
    DroppedSchemaOutput(report, omit, leaves);
    DroppedSchemaSecondCall(omit);
  }

  /** The column path of the example and the facts about the two paths it needs. */
  lemma DroppedSchemaPaths(omit: seq<string>)
    requires omit == [GlobalStats, DataStats + ".a.x"]
    ensures !NeedsSchema(omit[0]) && NeedsSchema(omit[1]) && Split(omit[1])[1] == "a"
  {
    var column := ColumnPath("a", Some("x"));
    assert column == omit[1];
    ColumnPathNeedsSchema("a", Some("x"));
    SingleSegmentNoSchema(GlobalStats);
  }

  lemma DroppedSchemaFirstCall(report: Value, omit: seq<string>)
    requires report == Dict([(StrKey(GlobalStats), Dict([(StrKey(ProfileSchema), Dict([(StrKey("a"), List([Int(0)]))]))]))])
    requires omit == [GlobalStats, DataStats + ".a.x"]
    ensures ArraysNumeric(report) && Preparable(report, omit)
    ensures GlobalStats in Rewrite(report, omit)
  {
    DroppedSchemaNumeric(report);
    DroppedSchemaResolves(report, omit);
    DroppedSchemaRewrite(report, omit);
    var paths := Rewrite(report, omit);
    assert EntryPreparable(report.entries[0].0, report.entries[0].1, paths);
  }

  lemma DroppedSchemaRewrite(report: Value, omit: seq<string>)
    requires report == Dict([(StrKey(GlobalStats), Dict([(StrKey(ProfileSchema), Dict([(StrKey("a"), List([Int(0)]))]))]))])
    requires omit == [GlobalStats, DataStats + ".a.x"]
    requires Resolves(report, omit)
    ensures GlobalStats in Rewrite(report, omit)
    ensures Omitted(StrKey(GlobalStats), Rewrite(report, omit))
  {
    DroppedSchemaPaths(omit);
    assert RewritePath(report, omit[0]) == [GlobalStats];
    assert Rewrite(report, omit) == RewritePath(report, omit[0]) + Rewrite(report, omit[1..]);
  }

  lemma DroppedSchemaNumeric(report: Value)
    requires report == Dict([(StrKey(GlobalStats), Dict([(StrKey(ProfileSchema), Dict([(StrKey("a"), List([Int(0)]))]))]))])
    ensures ArraysNumeric(report)
  {
    var column0 := List([Int(0)]);
    assert ArraysNumeric(column0) by {
      assert ArraysNumeric(column0.items[0]);
    }
    assert ArraysNumeric(Dict([(StrKey("a"), column0)]));
    assert ArraysNumeric(report.entries[0].1);
  }

  lemma DroppedSchemaResolves(report: Value, omit: seq<string>)
    requires report == Dict([(StrKey(GlobalStats), Dict([(StrKey(ProfileSchema), Dict([(StrKey("a"), List([Int(0)]))]))]))])
    requires omit == [GlobalStats, DataStats + ".a.x"]
    ensures Resolves(report, omit)
  {
    DroppedSchemaPaths(omit);
    ColumnAAtZero(report);
    forall p | p in omit && NeedsSchema(p)
      ensures SchemaIndices(report, Split(p)[1]).Some?
    {
      assert p == omit[1];
    }
  }

  lemma DroppedSchemaOutput(report: Value, omit: seq<string>, leaves: Leaves)
    requires report == Dict([(StrKey(GlobalStats), Dict([(StrKey(ProfileSchema), Dict([(StrKey("a"), List([Int(0)]))]))]))])
    requires omit == [GlobalStats, DataStats + ".a.x"]
    ensures Preparable(report, StartPaths(Pretty, omit))
    ensures Prepare(report, Pretty, omit, leaves) == Dict([])
  {
    DroppedSchemaFirstCall(report, omit);
    var paths := Rewrite(report, omit);
    assert Omitted(StrKey(GlobalStats), paths);
    assert PrepareFrom(report, 0, Pretty, paths, leaves) == [];
  }

  lemma DroppedSchemaSecondCall(omit: seq<string>)
    requires omit == [GlobalStats, DataStats + ".a.x"]
    ensures !Preparable(Dict([]), omit)
  {
    DroppedSchemaPaths(omit);
    assert SchemaIndices(Dict([]), "a").None?;
    assert !Resolves(Dict([]), omit) by {
      assert omit[1] in omit;
    }
  }
}
