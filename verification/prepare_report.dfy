/** `_prepare_report`: the recursive walk that turns a profile report into the view a user
    asked for — keys dropped by omit paths, sets sorted into lists, leaves formatted for the
    requested output format, optionally flattened. The walk builds a new value and never
    changes its input. */
module PrepareReport {
  import opened Wrappers
  import opened Text
  import opened OrderedDict
  import opened ReportValue
  import opened OmitPaths
  import Flatten

  /** The output formats; `Unformatted` is `None` and every unrecognised name. */
  datatype Format = Unformatted | Pretty | Compact | Serializable | Flat

  /** `output_format.lower()` compared with the four names the walk knows. */
  function ParseFormat(name: Option<string>): (f: Format)
    ensures name.None? ==> f == Unformatted
    ensures name.Some? && LowerAscii(name.value) == "pretty" <==> f == Pretty
    ensures name.Some? && LowerAscii(name.value) == "compact" <==> f == Compact
    ensures name.Some? && LowerAscii(name.value) == "serializable" <==> f == Serializable
    ensures name.Some? && LowerAscii(name.value) == "flat" <==> f == Flat
  {
    if name.None? then Unformatted
    else
      var lower := LowerAscii(name.value);
      if lower == "pretty" then Pretty
      else if lower == "compact" then Compact
      else if lower == "serializable" then Serializable
      else if lower == "flat" then Flat
      else Unformatted
  }

  /** What pretty mode delegates to numpy and to `round`: the text of a list or array
      (`np.array2string` with its head/tail truncation) and `round(x, 4)`. */
  datatype Leaves = Leaves(render: Value -> string, round4: real -> real)

  /** `compact` is `pretty` at every level; only its starting omit list differs. */
  function LevelFormat(fmt: Format): (f: Format)
    ensures f != Compact
    ensures fmt == Compact ==> f == Pretty
    ensures fmt != Compact ==> f == fmt
  {
    if fmt == Compact then Pretty else fmt
  }

  /** The omit list a call starts from: `compact` appends its five paths to a copy of the
      caller's list. */
  function StartPaths(fmt: Format, omit: seq<string>): (paths: seq<string>)
    ensures fmt != Compact ==> paths == omit
    ensures |omit| <= |paths| && paths[..|omit|] == omit
    ensures forall p :: p in paths <==> p in omit || (fmt == Compact && p in CompactPaths)
  {
    if fmt == Compact then omit + CompactPaths else omit
  }

  /** The walk does not raise on `report` with these omit paths: `report` is a dict, every
      column name a path looks up is in the schema, every `data_stats` list holds records
      the walk accepts (a set there must be empty), and the same holds one level down with
      the residual paths. */
  ghost predicate Preparable(report: Value, omit: seq<string>)
    decreases report, 1
  {
    && report.Dict?
    && Resolves(report, omit)
    && var paths := Rewrite(report, omit);
       forall i :: 0 <= i < |report.entries| ==>
         EntryPreparable(report.entries[i].0, report.entries[i].1, paths)
  }

  ghost predicate EntryPreparable(k: Key, v: Value, paths: seq<string>)
    decreases v, 2
  {
    if Omitted(k, paths) then true
    else if k == StrKey(DataStats) && v.List? then
      forall j :: 0 <= j < |v.items| ==>
        RecordPreparable(v.items[j], RecordResidual(Residual(paths, k), j))
    else if k == StrKey(DataStats) && v.Set? then v.elems == {}
    else if k == StrKey(ProfileSchema) then true
    else if v.Dict? then Preparable(v, Residual(paths, k))
    else true
  }

  /** A value the walk's `for key in report` runs no turn over: an empty list, string, set
      or array. */
  predicate EmptyRecord(v: Value)
  {
    || (v.List? && |v.items| == 0)
    || (v.Str? && |v.s| == 0)
    || (v.Set? && v.elems == {})
    || (v.Array? && |v.items| == 0)
  }

  /** The walk does not raise on one record of a `data_stats` list: a dict it accepts, or an
      empty record with no path that looks up a column name (that lookup indexes the record
      with `"global_stats"`, which raises on a list, a string, a set or an array). */
  ghost predicate RecordPreparable(rec: Value, paths: seq<string>)
    decreases rec, 3
  {
    if rec.Dict? then Preparable(rec, paths)
    else EmptyRecord(rec) && forall p :: p in paths ==> !NeedsSchema(p)
  }

  /** One prepared `data_stats` record: an empty record comes back as `{}`. */
  function PrepareRecord(rec: Value, fmt: Format, paths: seq<string>, leaves: Leaves): (out: Value)
    requires fmt != Compact && RecordPreparable(rec, paths)
    ensures out.Dict?
    ensures !rec.Dict? ==> out == Dict([])
    decreases rec, 3
  {
    if rec.Dict? then Prepare(rec, fmt, paths, leaves) else Dict([])
  }

  /** `_prepare_report(report, output_format, omit_keys)`. */
  function Prepare(report: Value, fmt: Format, omit: seq<string>, leaves: Leaves): (out: Value)
    requires Preparable(report, StartPaths(fmt, omit))
    ensures out.Dict?
    ensures LevelFormat(fmt) != Flat ==> |out.entries| <= |report.entries|
    ensures LevelFormat(fmt) == Flat ==> forall j :: 0 <= j < |out.entries| ==> !out.entries[j].1.Dict?
    decreases report, 1
  {
    var f := LevelFormat(fmt);
    var paths := Rewrite(report, StartPaths(fmt, omit));
    var level := Dict(PrepareFrom(report, 0, f, paths, leaves));
    if f == Flat then Dict(Flatten.FlatDict(level, Flatten.DefaultSeparator, Flatten.NoKey))
    else level
  }

  /** The prepared entries `i..` of `report`, in input order, omitted keys left out. */
  function PrepareFrom(report: Value, i: nat, fmt: Format, paths: seq<string>, leaves: Leaves): (r: seq<(Key, Value)>)
    requires report.Dict? && i <= |report.entries|
    requires fmt != Compact
    requires forall j :: i <= j < |report.entries| ==>
      EntryPreparable(report.entries[j].0, report.entries[j].1, paths)
    ensures |r| <= |report.entries| - i
    decreases report, 0, |report.entries| - i
  {
    if i == |report.entries| then []
    else
      var (k, v) := report.entries[i];
      var rest := PrepareFrom(report, i + 1, fmt, paths, leaves);
      if Omitted(k, paths) then rest else [(k, PrepareValue(k, v, fmt, paths, leaves))] + rest
  }

  /** The output value stored under a kept key `k` whose input value is `v`. */
  function PrepareValue(k: Key, v: Value, fmt: Format, paths: seq<string>, leaves: Leaves): Value
    requires fmt != Compact
    requires !Omitted(k, paths) && EntryPreparable(k, v, paths)
    decreases v, 2
  {
    if k == StrKey(DataStats) && v.List? then
      var columns := Residual(paths, k);
      List(seq(|v.items|, j requires 0 <= j < |v.items| =>
        PrepareRecord(v.items[j], fmt, RecordResidual(columns, j), leaves)))
    else if k == StrKey(DataStats) && v.Set? then Canon(v)
    else if k == StrKey(ProfileSchema) then Canon(v)
    else if v.Dict? then Prepare(v, fmt, Residual(paths, k), leaves)
    else FormatLeaf(Canon(v), fmt, leaves)
  }

  /** Formatting of a value that is neither a dict nor a set. */
  function FormatLeaf(c: Value, fmt: Format, leaves: Leaves): (r: Value)
    ensures !c.Dict? && !c.Set? ==> !r.Dict? && !r.Set?
    ensures fmt != Pretty && !(fmt == Serializable && c.Array?) ==> r == c
    ensures fmt == Serializable && c.Array? ==> r.List? && r == ToList(c)
    ensures fmt == Pretty && (c.List? || c.Array?) ==> r == Str(leaves.render(c))
    ensures fmt == Pretty && c.Float? ==> r == Float(leaves.round4(c.x))
    ensures fmt == Pretty && !(c.List? || c.Array? || c.Float?) ==> r == c
  {
    if c.List? || c.Array? then
      if fmt == Pretty then Str(leaves.render(c))
      else if fmt == Serializable && c.Array? then ToList(c)
      else c
    else if c.Float? && fmt == Pretty then Float(leaves.round4(c.x))
    else c
  }
}
