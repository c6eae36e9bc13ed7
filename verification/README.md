# DataProfiler report helpers and profiler utilities, in Dafny

This project models the part of DataProfiler that turns a finished profile report into the
view a user asks for, plus the small utilities the profilers share:

- `calculate_quantiles`: pick the quantile values that bound `g` equal groups.
- `flat_dict`: collapse a nested dict into one level, joining keys with `_`.
- `_prepare_report`: the recursive report walk. It handles the output formats `pretty`,
  `compact`, `serializable` and `flat`, and omit paths such as `data_stats.*.statistics.times`.
  It rewrites column names in omit paths to column positions through
  `global_stats.profile_schema`, turns sets into sorted lists, keeps every `data_stats`
  record, and copies `profile_schema` without walking it.
- `dict_merge`: recursive dict merge.
- `_combine_unique_sets`: list union without repeats.
- `partition`: fixed-size chunking.
- `shuffle_in_chunks`: a lazy Fisher–Yates shuffle over a `KeyDict`, where a missing key
  reads as itself.

Values are one closed type (`ReportValue.Value`). A Python dict is a sequence of key/value
pairs in insertion order (`OrderedDict`), and an omit path is a Python string split at
dots (`Text`). The walk is a set of pure functions. Each raising case of the source is
either a precondition or an error value:

- a `KeyError` when a column name is missing from the schema, and a `TypeError` on a
  `data_stats` record that is neither a dict nor empty: the precondition
  `PrepareReport.Preparable`, a predicate that follows the walk;
- an `IndexError` in `calculate_quantiles`: `Failure(IndexOutOfRange)`;
- the `ValueError` of `range` with step 0 in `partition`: the precondition `c != 0`.

Randomness and numpy's text rendering are parameters:

- `shuffle_in_chunks` takes its draws as a sequence: draw `j` lies in `[j, n)`.
- Pretty mode takes `Leaves`, a pair of functions standing for `np.array2string` with its
  truncation and for `round(x, 4)`.

The module layout follows the source:

| module | file | source |
|---|---|---|
| `Quantiles` | `quantiles.dfy` | `calculate_quantiles` |
| `Flatten` | `flatten.dfy` | `flat_dict` |
| `OmitPaths` | `omit_paths.dfy` | omit-path rewriting and splitting inside `_prepare_report` |
| `PrepareReport` | `prepare_report.dfy` | `_prepare_report` itself |
| `PrepareProperties` | `prepare_properties.dfy` | what one call of the walk does with each key |
| `PrepareIdempotence` | `prepare_idempotence.dfy` | preparing a prepared report again |
| `PrepareSerializable` | `prepare_serializable.dfy` | the `serializable` promise |
| `DictMerge` | `dict_merge.dfy` | `dict_merge` |
| `UniqueSets` | `unique_sets.dfy` | `_combine_unique_sets` |
| `Chunks` | `chunks.dfy` | `partition` |
| `Shuffle` | `shuffle.dfy` | `shuffle_in_chunks`, `KeyDict` |

Shared modules: `Text` holds the Python string operations, `OrderedDict` holds dicts,
`ReportValue` holds the value type, and `Wrappers` holds `Option` and `Result`.

## Model

| member | source | states |
|---|---|---|
| `Quantiles.EffectiveGroups` | dataprofiler/profilers/helpers/report_helpers.py:7-9 | the requested group count is used exactly when it is given and lies in `1..N+1`; otherwise it is 4 |
| `Quantiles.QuantileIndex` | dataprofiler/profilers/helpers/report_helpers.py:10-19 | the index of boundary `i` is the ceiling of `(i+1)(N+1)/g` minus one, characterised by `idx*g < (i+1)(N+1) <= (idx+1)*g` |
| `Quantiles.QuantileIndexInRange` | dataprofiler/profilers/helpers/report_helpers.py:18-20 | with `1 <= g <= N+1` every selected index lies inside the quantile list |
| `Quantiles.QuantileIndexIncreasing` | dataprofiler/profilers/helpers/report_helpers.py:18-20 | boundary indices strictly increase, so no group is empty |
| `Quantiles.DefaultOutOfRange` | dataprofiler/profilers/helpers/report_helpers.py:8-19 | when the count falls back to 4 on fewer than three values, the last index runs past the list |
| `Quantiles.CalculateQuantiles` | dataprofiler/profilers/helpers/report_helpers.py:6-22 | the result has keys `0..g-2`, each mapped to the value at its boundary index; it fails exactly when the requested count is rejected and the list holds fewer than three values |
| `Quantiles.ThousandValuesInQuartiles` | dataprofiler/profilers/helpers/report_helpers.py:15-19 | the worked example: 999 values in 4 groups select indices 249, 499 and 749 |
| `Text.SplitFirst` | dataprofiler/profilers/helpers/report_helpers.py:130 | `split('.', 1)`: without a dot, the whole string; with one, the dot-free head and the rest, which rejoin to the input |
| `Text.SplitFirstAt` | dataprofiler/profilers/helpers/report_helpers.py:130 | splitting `a.b` with dot-free `a` gives back `a` and `b` |
| `Text.Split` | dataprofiler/profilers/helpers/report_helpers.py:95 | `split('.')` gives at least one dot-free piece, and exactly one when there is no dot |
| `Text.JoinSplit` | dataprofiler/profilers/helpers/report_helpers.py:95-102 | `'.'.join(s.split('.')) == s` |
| `Text.SplitJoin` | dataprofiler/profilers/helpers/report_helpers.py:95-102 | splitting a join of dot-free pieces gives back the pieces |
| `Text.IntToStr` | dataprofiler/profilers/helpers/report_helpers.py:101 | `str(i)` is non-empty, has no dot and is not `*` |
| `Text.DigitsRoundTrip` | dataprofiler/profilers/helpers/report_helpers.py:153 | `str(n).isdigit()` and `int(str(n)) == n` for every natural number |
| `Text.NegativeNotDigits` | dataprofiler/profilers/helpers/report_helpers.py:153 | `str(i)` of a negative number never passes `isdigit()` |
| `Text.ReplaceSpaces` | dataprofiler/profilers/helpers/report_helpers.py:39 | `replace(' ', '_')` keeps the length, puts `_` at every position that held a space, leaves no space and changes nothing else |
| `Text.LowerAscii` | dataprofiler/profilers/helpers/report_helpers.py:73 | `lower()` keeps the length, turns each of `A`-`Z` into the letter 32 code points up, keeps every other character, and leaves no upper-case ASCII letter |
| `OrderedDict.Lookup` | dataprofiler/profilers/utils.py:36 | `k in dct` exactly when the lookup finds something, and what it finds is stored under `k` |
| `OrderedDict.LookupAt` | dataprofiler/profilers/utils.py:35 | in a dict, the entry at each position is what a lookup of its key finds |
| `OrderedDict.Put` | dataprofiler/profilers/utils.py:40 | `dct[k] = v` keeps the key order, appending only a new key, and keeps the keys distinct |
| `OrderedDict.PutLookup` | dataprofiler/profilers/utils.py:40 | after `dct[k] = v`, `k` reads `v` and every other key reads what it did before |
| `OrderedDict.PutAppends` | dataprofiler/profilers/utils.py:40 | storing a new key appends it at the end |
| `OrderedDict.FromPairsAppend` | dataprofiler/profilers/helpers/report_helpers.py:39-41 | building a dict from pairs `s + t` is building from `s`, then storing the pairs of `t` in order |
| `OrderedDict.FromPairsKeys` | dataprofiler/profilers/helpers/report_helpers.py:39-41 | a dict comprehension's keys are the distinct keys of its pairs, each at its first occurrence |
| `OrderedDict.FromPairsLookup` | dataprofiler/profilers/helpers/report_helpers.py:39-41 | a key no pair holds is absent; any other key reads the value of its last pair |
| `ReportValue.SortedInts` | dataprofiler/profilers/helpers/report_helpers.py:119 | `sorted(list(s))` is strictly increasing and holds exactly the members of `s` |
| `ReportValue.Canon` | dataprofiler/profilers/helpers/report_helpers.py:117-119 | a set becomes the ascending list of its members, and any other value is unchanged |
| `ReportValue.ToList` | dataprofiler/profilers/helpers/report_helpers.py:207 | `tolist()` keeps every item in place, turns each nested array into a list of the same items at every depth, and leaves every other item equal |
| `ReportValue.ListedAsUnique` | dataprofiler/profilers/helpers/report_helpers.py:207 | the listed form of an array is unique, so `ListedAs` pins `tolist()` completely |
| `ReportValue.ToListJsonReady` | dataprofiler/profilers/helpers/report_helpers.py:206-207 | `tolist()` of a numeric array holds no set and no array |
| `Flatten.FlatDict` | dataprofiler/profilers/helpers/report_helpers.py:39-42 | the result has distinct keys and no dict values, all under the enclosing key's prefix; an empty dict gives an empty result; a non-dict becomes `{key: od}` |
| `Flatten.Compose` | dataprofiler/profilers/helpers/report_helpers.py:39 | a truthy enclosing key gives the string `str(key)` with spaces replaced, then the separator, then `str(k)`; a falsy one leaves `k` as it is |
| `Flatten.ComposedMembers` | dataprofiler/profilers/helpers/report_helpers.py:39-41 | a child's composed pairs are exactly its flattened entries, each key composed with the enclosing key and each value unchanged |
| `Flatten.LevelPairsMembers` | dataprofiler/profilers/helpers/report_helpers.py:40-41 | the pairs of one level are exactly the composed pairs of the children from position `i` on |
| `Flatten.PutAllFromPairs` | dataprofiler/profilers/helpers/report_helpers.py:39-41 | storing a flattened child's entries is the dict comprehension over its composed pairs |
| `Flatten.FlatFromPairs` | dataprofiler/profilers/helpers/report_helpers.py:39-42 | the walk over a level is the dict comprehension over that level's pairs |
| `Flatten.FlatDictContent` | dataprofiler/profilers/helpers/report_helpers.py:39-42 | the keys of `flat_dict` of a dict are the distinct composed keys in first-occurrence order; a key no pair composes to is absent; any other key reads the value of the last pair that composes to it |
| `Flatten.OverwriteExample` | dataprofiler/profilers/helpers/report_helpers.py:39-42 | `{"a": {"b": 1}, "a_b": 2}` flattens to `{"a_b": 2}`: a later equal key overwrites the earlier one and keeps its position |
| `Flatten.FlatDictOfFlat` | dataprofiler/profilers/helpers/report_helpers.py:39-42 | a dict with no dict values comes back unchanged |
| `Flatten.FlatDictIdempotent` | dataprofiler/profilers/helpers/report_helpers.py:25-42 | flattening a flattened dict changes nothing |
| `Flatten.NestedInnerExample` | dataprofiler/profilers/helpers/report_helpers.py:39-42 | `{"b": 1, "c": 2}` under the parent key `a` flattens to `{"a_b": 1, "a_c": 2}` |
| `Flatten.SpacesInnerExample` | dataprofiler/profilers/helpers/report_helpers.py:39-42 | under the parent key `a b` the key `c d` becomes `a_b_c d`: spaces are replaced in the parent only |
| `Flatten.FalsyInnerExample` | dataprofiler/profilers/helpers/report_helpers.py:39-42 | under the falsy parent key `0` the key `f` stays `f` |
| `Flatten.NestedExample` | dataprofiler/profilers/helpers/report_helpers.py:39-42 | `{"a": {"b": 1, "c": 2}}` flattens to `{"a_b": 1, "a_c": 2}` |
| `Flatten.SpacesEmptyAndFalsyExample` | dataprofiler/profilers/helpers/report_helpers.py:39-42 | spaces are replaced in enclosing keys only, an empty dict contributes nothing, and the key `0` adds no prefix |
| `OmitPaths.Step` | dataprofiler/profilers/helpers/report_helpers.py:171-177 | a path continues below a level only when it splits at a dot into a dot-free head and a non-empty rest |
| `OmitPaths.StepIffSplits` | dataprofiler/profilers/helpers/report_helpers.py:171-177 | a path splits at its first dot in exactly one way |
| `OmitPaths.Omitted` | dataprofiler/profilers/helpers/report_helpers.py:112 | `key in omit_keys`: a key is dropped only by a path equal to its text, so an int key is never dropped (its consequences are stated by `BareWildcardDropsOnlyStar` and `PreparedKeys`) |
| `OmitPaths.Residual` | dataprofiler/profilers/helpers/report_helpers.py:169-179 | the paths handed to a child are never more than the paths at its parent |
| `OmitPaths.RecordResidual` | dataprofiler/profilers/helpers/report_helpers.py:143-155 | the paths handed to a record are never more than the paths at `data_stats` |
| `OmitPaths.ResidualsNonEmpty` | dataprofiler/profilers/helpers/report_helpers.py:129-177 | every path handed to a child or a record is non-empty |
| `OmitPaths.ResidualMembers` | dataprofiler/profilers/helpers/report_helpers.py:169-179 | the child under key `k` receives `q` exactly when some path is `first.q` with `first` equal to `*` or `k` |
| `OmitPaths.RecordResidualMembers` | dataprofiler/profilers/helpers/report_helpers.py:143-155 | `data_stats` record `i` receives `q` exactly when some path is `first.q` with `first` equal to `*` or to digits whose value is `i` |
| `OmitPaths.ResidualIncludes` | dataprofiler/profilers/helpers/report_helpers.py:169-179 | a path `first.q` hands `q` to every child that `first` selects |
| `OmitPaths.RecordResidualIncludes` | dataprofiler/profilers/helpers/report_helpers.py:143-155 | a path `first.q` hands `q` to every record that `first` selects |
| `OmitPaths.SchemaIndices` | dataprofiler/profilers/helpers/report_helpers.py:98 | a column's positions are found only in a dict report that holds `global_stats` |
| `OmitPaths.RewritePath` | dataprofiler/profilers/helpers/report_helpers.py:94-105 | a column path becomes one path per schema position of its column; any other path is kept as it is |
| `OmitPaths.Rewrite` | dataprofiler/profilers/helpers/report_helpers.py:93-107 | a list in which no path names a column comes through the rewrite unchanged |
| `OmitPaths.ColumnPathNeedsSchema` | dataprofiler/profilers/helpers/report_helpers.py:96-97 | `data_stats.NAME...` consults the schema exactly when `NAME` is not `*` |
| `OmitPaths.OtherPathsKept` | dataprofiler/profilers/helpers/report_helpers.py:104-105 | `data_stats` alone, and any path not under `data_stats`, passes the rewrite unchanged |
| `OmitPaths.OutsideDataStats` | dataprofiler/profilers/helpers/report_helpers.py:96-97 | a path whose first segment is not `data_stats` never consults the schema |
| `OmitPaths.SingleSegmentNoSchema` | dataprofiler/profilers/helpers/report_helpers.py:96 | a dot-free path never consults the schema |
| `OmitPaths.ReplaceColumn` | dataprofiler/profilers/helpers/report_helpers.py:99-102 | replacing the second segment and rejoining turns `data_stats.NAME.rest` into `data_stats.X.rest` |
| `OmitPaths.RewriteColumnPath` | dataprofiler/profilers/helpers/report_helpers.py:93-105 | a column path becomes one path per schema position of the column, in schema order, with the position in decimal where the name was |
| `OmitPaths.RewriteKeeps` | dataprofiler/profilers/helpers/report_helpers.py:93-107 | a path that names no column survives the rewrite |
| `OmitPaths.PositionPathsAtDataStats` | dataprofiler/profilers/helpers/report_helpers.py:128-138 | the rewritten column paths reach `data_stats` as `POS.rest` |
| `OmitPaths.PositionPathsAtRecord` | dataprofiler/profilers/helpers/report_helpers.py:142-155 | record `i` receives `rest` exactly when `i` is one of the positions, and nothing else |
| `OmitPaths.ColumnPathReachesItsRecords` | dataprofiler/profilers/helpers/report_helpers.py:93-159 | `data_stats.NAME.rest` reaches exactly the records at NAME's schema positions, each as `rest` |
| `OmitPaths.VerbosePathShape` | dataprofiler/profilers/helpers/report_helpers.py:82-88 | each compact path is `data_stats.*.statistics.NAME` and names no column |
| `OmitPaths.VerboseStatisticIsKey` | dataprofiler/profilers/helpers/report_helpers.py:83-87 | each of the five verbose statistics is one non-empty path segment |
| `OmitPaths.BareWildcardDropsOnlyStar` | dataprofiler/profilers/helpers/report_helpers.py:112 | a bare `*` drops exactly the key literally named `*` |
| `OmitPaths.WildcardSkipsRecordLevel` | dataprofiler/profilers/helpers/report_helpers.py:127-155 | `*.q` reaches `data_stats` as `q`, and `q` reaches no record unless its first segment is `*` or the record's position |
| `OmitPaths.WildcardMissesRecords` | dataprofiler/profilers/helpers/report_helpers.py:62-66 | `*.statistics.histogram` at the level holding `data_stats` reaches `data_stats` as `statistics.histogram`, which no record receives |
| `PrepareReport.ParseFormat` | dataprofiler/profilers/helpers/report_helpers.py:72-73 | each format is chosen exactly when the lower-cased name equals it; `None` and any other name select no format |
| `PrepareReport.LevelFormat` | dataprofiler/profilers/helpers/report_helpers.py:89 | below the top, `compact` becomes `pretty`; other formats are unchanged |
| `PrepareReport.StartPaths` | dataprofiler/profilers/helpers/report_helpers.py:81-88 | compact keeps the caller's list as a prefix and adds exactly the five statistic paths as members; the other formats keep the list as it is |
| `PrepareReport.Preparable` | dataprofiler/profilers/helpers/report_helpers.py:93-159 | the walk does not raise: the report is a dict, every column name a path looks up is in the schema, every `data_stats` record is a dict or an empty record, a set under `data_stats` is empty, and the same holds one level down (its consequences are stated by the `PrepareProperties` lemmas) |
| `PrepareReport.PrepareValue` | dataprofiler/profilers/helpers/report_helpers.py:115-214 | the value stored under a kept key: records of a `data_stats` list one by one, a `profile_schema` copied, a dict walked, anything else formatted as a leaf (stated by `RecordsPrepared`, `SchemaCopied`, `ChildPrepared` and `LeafPrepared`) |
| `PrepareReport.PrepareRecord` | dataprofiler/profilers/helpers/report_helpers.py:157-159 | a `data_stats` record comes back as a dict; an empty list, string, set or array comes back as `{}` |
| `PrepareReport.Prepare` | dataprofiler/profilers/helpers/report_helpers.py:45-219 | the result is a dict; a nested format never has more entries than its input; in flat mode no value is a dict |
| `PrepareReport.PrepareFrom` | dataprofiler/profilers/helpers/report_helpers.py:109-113 | walking entries `i..` yields at most one entry per input entry |
| `PrepareReport.FormatLeaf` | dataprofiler/profilers/helpers/report_helpers.py:185-214 | pretty renders lists and arrays as text and rounds floats; serializable turns arrays into lists; anything else is unchanged |
| `PrepareProperties.Kept` | dataprofiler/profilers/helpers/report_helpers.py:109-113 | a key survives exactly when no path equals it, and the survivors keep their order |
| `PrepareProperties.KeysOfPrepareFrom` | dataprofiler/profilers/helpers/report_helpers.py:109-113 | the keys walked from position `i` are the input keys from `i` on, minus the dropped ones, in order |
| `PrepareProperties.LookupPrepared` | dataprofiler/profilers/helpers/report_helpers.py:109-214 | an output key reads nothing when it is dropped or missing; otherwise it reads the prepared input value |
| `PrepareProperties.LookupInWalk` | dataprofiler/profilers/helpers/report_helpers.py:109-115 | in any walk that drops omitted keys and prepares the others in order, a key reads nothing when it is dropped or missing, and otherwise the prepared form of the value it first holds |
| `PrepareProperties.PreparedOrigin` | dataprofiler/profilers/helpers/report_helpers.py:109-115 | every output entry comes from a kept input entry with the same key |
| `PrepareProperties.OriginInWalk` | dataprofiler/profilers/helpers/report_helpers.py:109-115 | in any such walk, output entry `t` is the `t`-th kept input entry, prepared |
| `PrepareProperties.PreparedKeys` | dataprofiler/profilers/helpers/report_helpers.py:93-113 | a report's output keys are its keys minus those equal to a rewritten path, in input order |
| `PrepareProperties.PreparedLookup` | dataprofiler/profilers/helpers/report_helpers.py:109-214 | `fmt_report[k]` is the prepared value of `report[k]` for every kept key and is absent otherwise |
| `PrepareProperties.SchemaCopied` | dataprofiler/profilers/helpers/report_helpers.py:161-163 | a kept `profile_schema` is copied without a walk; only a set there is sorted |
| `PrepareProperties.ChildPrepared` | dataprofiler/profilers/helpers/report_helpers.py:165-183 | a dict under an ordinary key is prepared recursively with the paths its key selects |
| `PrepareProperties.RecordsPrepared` | dataprofiler/profilers/helpers/report_helpers.py:123-159 | a `data_stats` list keeps its length; every record is a dict the walk accepts or an empty record; a dict record `j` is prepared with the paths selected by `j` or `*`, an empty one becomes `{}`, and no record becomes null |
| `PrepareProperties.EmptyRecordsExample` | dataprofiler/profilers/helpers/report_helpers.py:123-159 | `{"data_stats": ["", set()]}` comes out as `{"data_stats": [{}, {}]}` |
| `PrepareProperties.LeafPrepared` | dataprofiler/profilers/helpers/report_helpers.py:115-214 | any other value is sorted when it is a set, then formatted by the leaf rule |
| `PrepareProperties.CompactIsPretty` | dataprofiler/profilers/helpers/report_helpers.py:81-89 | compact is pretty with the five verbose-statistics paths appended |
| `PrepareProperties.FlatOutput` | dataprofiler/profilers/helpers/report_helpers.py:216-217 | flat output has distinct keys and no dict values |
| `PrepareProperties.CompactPathKept` | dataprofiler/profilers/helpers/report_helpers.py:81-107 | compact's paths survive the top-level rewrite |
| `PrepareProperties.VerbosePathReachesRecords` | dataprofiler/profilers/helpers/report_helpers.py:123-155 | compact's paths reach every `data_stats` record as `statistics.NAME` |
| `PrepareProperties.StatisticPathReachesStatistics` | dataprofiler/profilers/helpers/report_helpers.py:169-179 | `statistics.NAME` hands `NAME` to the `statistics` dict |
| `PrepareProperties.RecordDropsStatistic` | dataprofiler/profilers/helpers/report_helpers.py:109-183 | a record that receives `statistics.NAME` loses `NAME` from its prepared statistics |
| `PrepareProperties.CompactDropsVerboseStatistics` | dataprofiler/profilers/helpers/report_helpers.py:81-159 | in compact output no column's statistics hold any of the five verbose entries |
| `PrepareIdempotence.FormatLeafIdempotent` | dataprofiler/profilers/helpers/report_helpers.py:185-214 | formatting a formatted leaf again changes nothing, given that rounding twice equals rounding once |
| `PrepareIdempotence.RewriteDependsOnSchema` | dataprofiler/profilers/helpers/report_helpers.py:93-105 | two reports with the same schema positions for the named columns get the same rewrite |
| `PrepareIdempotence.SchemaPreserved` | dataprofiler/profilers/helpers/report_helpers.py:161-163 | a column the prepared report still lists keeps its schema positions |
| `PrepareIdempotence.RePrepareFrom` | dataprofiler/profilers/helpers/report_helpers.py:109-214 | walking entries that are already in prepared form gives them back |
| `PrepareIdempotence.Idempotent` | dataprofiler/profilers/helpers/report_helpers.py:45-219 | for the nested formats, preparing a prepared report with the same format and paths changes nothing, given that every numpy array holds numbers, that rounding twice equals rounding once in pretty mode, that no `data_stats` array has an empty row in serializable mode, and that the second call does not raise |
| `PrepareIdempotence.ValueIdempotent` | dataprofiler/profilers/helpers/report_helpers.py:115-214 | the same for one kept entry |
| `PrepareIdempotence.RecordIdempotent` | dataprofiler/profilers/helpers/report_helpers.py:155-159 | the same for one `data_stats` record: a dict is prepared again to itself, and the `{}` of an empty record stays `{}` |
| `PrepareIdempotence.ToListHoldsNoRecord` | dataprofiler/profilers/helpers/report_helpers.py:206-207 | `tolist()` of a numeric array with no empty row holds no dict and no empty record |
| `PrepareIdempotence.FirstRecordIsDict` | dataprofiler/profilers/helpers/report_helpers.py:155-159 | a record the walk accepts is a dict or an empty record |
| `PrepareIdempotence.EmptyArrayRowNotIdempotent` | dataprofiler/profilers/helpers/report_helpers.py:123-207 | `np.array([[]])` under `data_stats` becomes `[[]]` in serializable mode, and a second call turns it into `[{}]`, although every other requirement of `Idempotent` holds |
| `PrepareIdempotence.DroppedSchemaNotPreparable` | dataprofiler/profilers/helpers/report_helpers.py:93-112 | `{"global_stats": {"profile_schema": {"a": [0]}}}` with omit paths `global_stats` and `data_stats.a.x` prepares to `{}` without raising, but a second call on `{}` would raise `KeyError`, as it finds no schema for column `a` |
| `PrepareSerializable.SerializableJsonReady` | dataprofiler/profilers/helpers/report_helpers.py:54 | serializable output holds no set and no array, provided that every list, set and schema copied without a walk holds none once its sets are sorted |
| `PrepareSerializable.ValueJsonReady` | dataprofiler/profilers/helpers/report_helpers.py:185-214 | the same for one kept entry |
| `PrepareSerializable.ArrayInListSurvives` | dataprofiler/profilers/helpers/report_helpers.py:185-209 | `{"a": [np.array([1])]}` comes out of serializable mode unchanged, array included |
| `DictMerge.Merge` | dataprofiler/profilers/utils.py:10-40 | every key of `dct` stays, and distinct keys stay distinct |
| `DictMerge.MergedValue` | dataprofiler/profilers/utils.py:36-40 | the recursive merge when both sides are dicts; otherwise `merge_dct`'s value |
| `DictMerge.MergeFrom` | dataprofiler/profilers/utils.py:35-40 | the loop from position `i` keeps every key it starts with |
| `DictMerge.MergeFromKeys` | dataprofiler/profilers/utils.py:35-40 | after the loop from `i`, a key is present exactly when it was before or is among the merge keys from `i` on |
| `DictMerge.MergeFromUntouched` | dataprofiler/profilers/utils.py:35-40 | a key not merged from `i` on keeps its value |
| `DictMerge.MergeFromTouchedFirst` | dataprofiler/profilers/utils.py:35-40 | the key merged at step `i` ends with the value computed at that step |
| `DictMerge.MergeFromTouched` | dataprofiler/profilers/utils.py:35-40 | the key merged at step `t` ends with the value computed from its value before the loop |
| `DictMerge.MergeKeys` | dataprofiler/profilers/utils.py:35-40 | the merged keys are exactly the old keys plus the keys of `merge_dct` |
| `DictMerge.MergeKeepsOthers` | dataprofiler/profilers/utils.py:35-40 | a key only in `dct` keeps its value |
| `DictMerge.MergeTakesMerged` | dataprofiler/profilers/utils.py:36-40 | a key in `merge_dct` gets the recursive merge when both values are dicts; otherwise `merge_dct`'s value |
| `DictMerge.MergeIntoEmpty` | dataprofiler/profilers/utils.py:35-40 | merging into an empty dict copies `merge_dct`, order included |
| `DictMerge.MergeIntoStep` | dataprofiler/profilers/utils.py:35-40 | one turn of the loop over a copy of the earlier entries appends the entry, as its key is new and not a nested merge |
| `DictMerge.MergeIntoPrefix` | dataprofiler/profilers/utils.py:35-40 | merging the rest of `merge_dct` into its first `i` entries gives `merge_dct` |
| `UniqueSets.Dedup` | dataprofiler/profilers/utils.py:65-70 | `list(set(s))` has no repeats and the same elements as `s` |
| `UniqueSets.CombineUniqueSets` | dataprofiler/profilers/utils.py:54-70 | no repeats; the elements are those of `a` and `b`; empty exactly when both inputs are empty |
| `UniqueSets.DedupOfDistinct` | dataprofiler/profilers/utils.py:70 | `list(set(s))` of a list without repeats has the same elements, each exactly as often, in whatever order |
| `UniqueSets.CombineIdempotent` | dataprofiler/profilers/utils.py:54-70 | combining a result with an empty list gives back the same elements, each exactly as often, in whatever order |
| `UniqueSets.DistinctCount` | dataprofiler/profilers/utils.py:70 | in a list without repeats each element occurs once |
| `UniqueSets.SameElements` | dataprofiler/profilers/utils.py:70 | two lists without repeats that hold the same elements are permutations of each other |
| `UniqueSets.CombineSize` | dataprofiler/profilers/utils.py:61-70 | the result is as long as the union of the inputs' element sets, whatever order the inputs come in |
| `Chunks.CeilDiv` | dataprofiler/profilers/utils.py:101 | `math.ceil(n / c)` for `c != 0`, by its defining inequalities |
| `Chunks.Partition` | dataprofiler/profilers/utils.py:149-160 | there are `ceil(len/c)` chunks for positive `c`; none for empty data or negative `c` |
| `Chunks.PartitionConcat` | dataprofiler/profilers/utils.py:159-160 | the chunks put back together are the data |
| `Chunks.PartitionSizes` | dataprofiler/profilers/utils.py:159-160 | every chunk but the last has `c` items; the last has 1 to `c` |
| `Chunks.PartitionSlice` | dataprofiler/profilers/utils.py:159-160 | chunk `i` is `data[i*c : i*c+c]` |
| `Shuffle.SwapKeepsPermutation` | dataprofiler/profilers/utils.py:112-122 | swapping two positions of a permutation of `0..n-1` gives a permutation of `0..n-1` |
| `Shuffle.FisherYatesPermutes` | dataprofiler/profilers/utils.py:112-122 | every swap step keeps a permutation of `0..n-1` |
| `Shuffle.FisherYatesSettled` | dataprofiler/profilers/utils.py:112-122 | positions below `j` are never touched once step `j` is reached |
| `Shuffle.PermutationElements` | dataprofiler/profilers/utils.py:97-124 | a permutation of `0..n-1` holds each of `0..n-1` exactly once and nothing else |
| `Shuffle.Get` | dataprofiler/profilers/utils.py:50-51 | `KeyDict[k]`: a key never stored reads as itself (stated through `LazySwap`) |
| `Shuffle.ChunkLength` | dataprofiler/profilers/utils.py:104 | a non-empty chunk holds at most `c` items and does not run past `n`; with a positive size, every chunk that starts below `n` is non-empty |
| `Shuffle.ChunkCount` | dataprofiler/profilers/utils.py:101 | there is always at least one chunk |
| `Shuffle.ChunkEnd` | dataprofiler/profilers/utils.py:101-105 | for positive sizes, chunk `ind` starts below `n` and ends at `min(c*(ind+1), n)` |
| `Shuffle.LazySwap` | dataprofiler/profilers/utils.py:112-119 | a swap on the lazy map, where a missing key reads as itself, is one step of the eager shuffle; the value handed out is the one settled at `j` |
| `Shuffle.ShuffleChunk` | dataprofiler/profilers/utils.py:104-122 | a chunk of `size` values is the next `size` settled positions of the eager shuffle |
| `Shuffle.ShuffleInChunks` | dataprofiler/profilers/utils.py:73-124 | nothing for `n` or `c` zero; otherwise `max(ceil(n/c),1)` chunks, chunk `ind` of length `min(c, n-c*ind)` (empty when negative); for positive sizes the chunks together are the eager Fisher–Yates result and a permutation of `0..n-1` |
| `Shuffle.ShuffleShapeIsPartition` | dataprofiler/profilers/utils.py:101-105 | for positive sizes the chunks have the shapes of `partition(range(n), c)` |

## Where the code and its description differ

The model follows the code in each case.

- `data_stats` records are never replaced by null. The walk appends one recursive result
  per record, so the output list is as long as the input list (`RecordsPrepared`).
- The `serializable` format promises JSON-ready output, but only arrays stored directly
  under a key are converted. An array inside a list is copied as it is
  (`ArrayInListSurvives`). So is anything inside `profile_schema`. `SerializableJsonReady`
  states the promise under the condition that such copied values hold no array and no set.
- Column names in omit paths are rewritten at every level of the walk, each time with that
  level's own `global_stats.profile_schema`, and not only at the top. The walk raises
  `KeyError` at whichever level lacks the name (`Preparable`).
- In flat mode every nested call already returns a flattened dict, and the top level
  flattens the result again. The model does the same.
- The docstring's wildcard example, `*.test3`, does not reach into `data_stats`. At the
  level that holds `data_stats`, `*.statistics.histogram` reaches `data_stats` as
  `statistics.histogram`. The record level then reads `statistics` as a position, matches
  no record, and the histograms stay (`WildcardMissesRecords`, `WildcardSkipsRecordLevel`).
  Compact mode spells its paths `data_stats.*.statistics.NAME` for this reason.
- A bare `*` is not a wildcard. A key is dropped only when it equals a path, so `*` drops
  only a key literally named `*` (`BareWildcardDropsOnlyStar`).
- `Idempotent` does not hold for every report. In serializable mode, `np.array([[]])` under
  `data_stats` becomes `[[]]`. A second call reads `[]` as an empty record and returns
  `[{}]` (`EmptyArrayRowNotIdempotent`). And in any mode, omitting `global_stats` together
  with a column path such as `data_stats.a.x` removes the schema. The second call then
  raises `KeyError` looking up the column (`DroppedSchemaNotPreparable`).

## Left out

- Floating point: `calculate_quantiles` uses the exact ceiling of the rational
  `(i+1)(N+1)/g`, and `math.ceil(n / c)` in `shuffle_in_chunks` is also taken exactly.
  Rounding in the float quotient is not modelled.
- numpy's `array2string`, its truncation loop and `round(x, 4)` are the `Leaves`
  parameter; the text they produce is not modelled.
- Python's set order: the model's `list(set(...))` keeps first occurrences. The
  contracts about `_combine_unique_sets` state elements, multiplicities and lengths only,
  never an order. Sets in reports are sets of ints; sorting sets of other types is not
  modelled.
- String operations cover ASCII only: `isdigit()` accepts only `0`-`9`, and `lower()`
  changes only `A`-`Z`.
- `sorted()` raising `TypeError` on mixed types is not modelled, because sets hold ints.
- `Preparable` makes two cases preconditions rather than modelling the errors:
  - a `data_stats` record that is neither a dict nor empty: the recursive call indexes it
    by key and raises, or, for a list of small ints, reads it as a position-to-item map;
  - a non-empty set under `data_stats`: it becomes a list of ints, which are such records.
  An empty list, string, set or array as a record is modelled: the recursive call returns
  `{}`, unless a path there names a column, which raises.
- Schema entries are lists of ints; any other schema shape counts as a missing name.
- In-place effects are modelled as values:
  - compact mode's `omit_keys.extend` changes the caller's list;
  - `dict_merge` updates `dct` in place and shares sub-dicts with `merge_dct`.
- `shuffle_in_chunks` is a generator; the model returns all chunks at once.
- The random generator, the `DATAPROFILER_SEED` environment variable and its warning are
  the draws parameter.
- `warn_on_profile` and `generate_pool` produce warnings and process pools; they hold no
  logic to prove.
- The option test files test classes that are not part of this model.
- PrepareSerializable.SerializableJsonReady: it proves the JSON-ready promise only under
  `SerialInput`, which is a sufficient condition and not a necessary one. Without it the
  promise fails (`ArrayInListSurvives`).
- PrepareIdempotence.Idempotent: it covers the nested formats only. Nothing is stated
  about preparing flat output again. Compact is pretty with extra paths
  (`CompactIsPretty`), so it is not stated separately. It has four more requirements:
  - every numpy array in the report holds numbers (`ArraysNumeric`);
  - in pretty mode, rounding twice equals rounding once (`RoundIdempotent`);
  - in serializable mode, no `data_stats` array has an empty row (`NoEmptyArrayRows`). The
    source is not idempotent there (`EmptyArrayRowNotIdempotent`);
  - the second call does not raise: `Preparable` of the prepared report. The first call not
    raising does not imply it, as omitting `global_stats` with a column path shows
    (`DroppedSchemaNotPreparable`).
