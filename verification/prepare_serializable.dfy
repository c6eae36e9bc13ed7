/** What `serializable` mode guarantees: which inputs come out free of sets and numpy
    arrays, and which do not. */
module PrepareSerializable {
  import opened Wrappers
  import opened OrderedDict
  import opened ReportValue
  import opened OmitPaths
  import opened PrepareReport
  import opened PrepareProperties

  /** The walk meets no array it leaves alone: every kept array is a numeric array at a
      leaf, and every kept list, set or schema that is copied rather than walked holds no
      set or array once its sets are sorted. */
  ghost predicate SerialInput(report: Value, omit: seq<string>)
    decreases report, 1
  {
    && report.Dict?
    && Resolves(report, omit)
    && var paths := Rewrite(report, omit);
       forall i :: 0 <= i < |report.entries| ==>
         EntrySerialInput(report.entries[i].0, report.entries[i].1, paths)
  }

  ghost predicate EntrySerialInput(k: Key, v: Value, paths: seq<string>)
    decreases v, 2
  {
    if Omitted(k, paths) then true
    else if k == StrKey(DataStats) && v.List? then
      forall j :: 0 <= j < |v.items| && v.items[j].Dict? ==>
        SerialInput(v.items[j], RecordResidual(Residual(paths, k), j))
    else if k == StrKey(DataStats) && v.Set? then true
    else if k == StrKey(ProfileSchema) then JsonReady(Canon(v))
    else if v.Dict? then SerialInput(v, Residual(paths, k))
    else if v.Array? then NumericArray(v)
    else JsonReady(Canon(v))
  }

  /** On such input, `serializable` output holds no set and no numpy array. */
  lemma {:induction false} SerializableJsonReady(report: Value, omit: seq<string>, leaves: Leaves)
    requires Preparable(report, omit) && SerialInput(report, omit)
    ensures JsonReady(Prepare(report, Serializable, omit, leaves))
    decreases report, 1
  {
    var paths := Rewrite(report, omit);
    var entries := Prepare(report, Serializable, omit, leaves).entries;
    forall t | 0 <= t < |entries|
      ensures JsonReady(entries[t].1)
    {
      PreparedOrigin(report, 0, Serializable, paths, leaves, t);
      var j := OriginOf(report.entries, 0, paths, t);
      ValueJsonReady(report.entries[j].0, report.entries[j].1, paths, leaves);
    }
  }

  lemma {:induction false} ValueJsonReady(k: Key, v: Value, paths: seq<string>, leaves: Leaves)
    requires !Omitted(k, paths) && EntryPreparable(k, v, paths) && EntrySerialInput(k, v, paths)
    ensures JsonReady(PrepareValue(k, v, Serializable, paths, leaves))
    decreases v, 2
  {
    var out := PrepareValue(k, v, Serializable, paths, leaves);
    if k == StrKey(DataStats) && v.List? {
      forall j | 0 <= j < |v.items|
        ensures JsonReady(out.items[j])
      {
        assert out.items[j] == PrepareRecord(v.items[j], Serializable, RecordResidual(Residual(paths, k), j), leaves);
        if v.items[j].Dict? {
          SerializableJsonReady(v.items[j], RecordResidual(Residual(paths, k), j), leaves);
        } else {
          assert out.items[j] == Dict([]);
        }
      }
    } else if k == StrKey(DataStats) && v.Set? {
    } else if k == StrKey(ProfileSchema) {
    } else if v.Dict? {
      SerializableJsonReady(v, Residual(paths, k), leaves);
    } else if v.Array? {
      ToListJsonReady(v);
    }
  }

  /** The promise does not reach inside lists: `{"a": [np.array([1])]}` comes out of
      `serializable` mode unchanged, array included. */
  lemma ArrayInListSurvives(leaves: Leaves)
    ensures var report := Dict([(StrKey("a"), List([Array([Int(1)])]))]);
      && Preparable(report, [])
      && Prepare(report, Serializable, [], leaves) == report
      && !JsonReady(Prepare(report, Serializable, [], leaves))
  {
    var inner := List([Array([Int(1)])]);
    var report := Dict([(StrKey("a"), inner)]);
    assert StrKey("a") != StrKey(DataStats) && StrKey("a") != StrKey(ProfileSchema);
    assert Rewrite(report, []) == [];
    assert PrepareValue(StrKey("a"), inner, Serializable, [], leaves) == inner;
    assert PrepareFrom(report, 1, Serializable, [], leaves) == [];
    assert !JsonReady(inner.items[0]);
  }
}
