# Route 53 record-set export, modelled in Dafny

`aws/route53/export_recrod_sets.py` lists every hosted zone of an AWS
profile and the resource record sets of each zone. It prints one table per
zone and collects the same rows, with the zone name in front, into a list
`all_records`. When the user answers "yes" it writes that list to
`aws_r53_record_sets_<profile>.csv` under a fixed header.

This project models the transformation inside `main`:

- `text.dfy`, module `Text`: the three Python string operations the script
  uses. `str.split('/')` is `Split`, with its inverse `Join`. `str.strip()`
  is `Strip`, which uses Python's full `str.isspace` set. `str.lower()` is
  `Lower`.
- `route53_export.dfy`, module `Route53Export`:
  - the entities `Zone`, `Record` and `ZoneTable`;
  - zone-id extraction (`ZoneId`);
  - the per-record flattening (`RecordRows`, `TableRows`);
  - the console report (`Report`);
  - the export list (`AllRecords`);
  - the nested loop of `main` as three methods, one per loop level
    (`CollectRecordSets` over zones, `TabulateZone` over record sets,
    `TabulateValues` over values), proved against `Report`, `TableRows`
    and `AllRecords`;
  - the export decision (`ShouldExport`), the file name (`CsvFileName`);
  - `main` itself as the method `Run`.

The provider calls are inputs. `list_hosted_zones` is the sequence `zones`.
`list_resource_record_sets` is a function `listRecordSets` from a zone id to
that zone's record sets, and it is queried with the id extracted from `Id`,
as line 25 does. A record's `ResourceRecords` key is `Some(values)` when
present and `None` when absent. Likewise `AliasTarget` is `Some(DNSName)`.
The answer typed at the prompt is an input string.

Behaviour of the script that the model keeps:
- an empty `ResourceRecords` list yields no row and never falls back to
  the alias (lines 33, 38);
- the script does not catch listing errors, so a failing call ends the
  run; the model has no failure path (see "Left out");
- the answer is stripped, then lower-cased (line 45).

## Model

The table lists members with a contract. The definitions the contracts
refer to model the source directly and carry no contract of their own:
- `ValueRows`: the rows of lines 34-36;
- `RowCount`: how many rows lines 33-41 add for one record set;
- `TableRows`: one zone's table (lines 30-41);
- `WithZone`: the export rows of lines 37 and 41;
- `Report`: the tables of lines 22-43;
- `AllRecords`: `all_records` after the loop (lines 20-41);
- `ShouldExport`: the test of lines 45-46.

| member | source | states |
|---|---|---|
| Text.Split | aws/route53/export_recrod_sets.py:23 | `split` yields at least one piece, and no piece contains the separator |
| Text.JoinSplit | aws/route53/export_recrod_sets.py:23 | joining the pieces of a split with the separator gives back the original string |
| Text.SplitJoin | aws/route53/export_recrod_sets.py:23 | splitting a join of separator-free pieces gives back the pieces, so split and join are inverse |
| Text.SplitSeveralHasSeparator | aws/route53/export_recrod_sets.py:23 | a string that splits into more than one piece contains the separator |
| Text.SplitOnePiece | aws/route53/export_recrod_sets.py:23 | a string that splits into a single piece is that piece |
| Text.SplitLastIsSuffix | aws/route53/export_recrod_sets.py:23 | the last piece (`[-1]`) is a suffix of the string and is either the whole string or directly preceded by the separator; with several pieces it is shorter than the string |
| Text.StripLeading | aws/route53/export_recrod_sets.py:45 | the result is a suffix of the input, only whitespace was dropped, and it does not start with whitespace |
| Text.StripTrailing | aws/route53/export_recrod_sets.py:45 | the result is a prefix of the input, only whitespace was dropped, and it does not end with whitespace |
| Text.Strip | aws/route53/export_recrod_sets.py:45 | `strip()` never lengthens the input, and its result neither starts nor ends with whitespace |
| Text.StripParts | aws/route53/export_recrod_sets.py:45 | `strip()` removes only whitespace: the input is whitespace, then the result, then whitespace |
| Text.StripTrailingPart | aws/route53/export_recrod_sets.py:45 | what rstrip removes is whitespace at the end of the input |
| Text.StripLeadingAfterSpace | aws/route53/export_recrod_sets.py:45 | a whitespace prefix in front of a string that does not start with whitespace is exactly what lstrip removes |
| Text.StripTrailingBeforeSpace | aws/route53/export_recrod_sets.py:45 | a whitespace suffix after a string that does not end with whitespace is exactly what rstrip removes |
| Text.StripUnique | aws/route53/export_recrod_sets.py:45 | for whitespace + core + whitespace, where the core neither starts nor ends with whitespace, `strip()` returns the core; so the result is determined by Strip's contract |
| Text.Lower | aws/route53/export_recrod_sets.py:45 | under ASCII lower-casing (`LowerChar`), `lower()` keeps the length and lower-cases each character in place |
| Text.LowerCharIs | aws/route53/export_recrod_sets.py:45 | under ASCII lower-casing (`LowerChar`), the characters that lower-case to an ASCII letter are exactly that letter and its capital |
| Text.LowerIsYes | aws/route53/export_recrod_sets.py:45-46 | a string lower-cases to "yes" iff it is three characters y/Y, e/E, s/S |
| Route53Export.ZoneId | aws/route53/export_recrod_sets.py:23 | the zone id contains no '/' |
| Route53Export.ZoneIdIsLastSegment | aws/route53/export_recrod_sets.py:23 | the zone id is a suffix of `Id`, either all of `Id` or preceded by '/'; it equals `Id` when `Id` has no '/' and is empty when `Id` ends in '/' |
| Route53Export.ZoneIdUnique | aws/route53/export_recrod_sets.py:23 | any '/'-free suffix of `Id` that is all of it or follows a '/' is the zone id, so the id is the segment after the last '/' |
| Route53Export.ZoneIdOfHostedZonePath | aws/route53/export_recrod_sets.py:23 | "/hostedzone/Z1" yields "Z1" |
| Route53Export.RecordRows | aws/route53/export_recrod_sets.py:33-41 | a record set yields RowCount rows: its number of values with `ResourceRecords`, else 1 with `AliasTarget`, else 0 |
| Route53Export.ResourceRecordsRows | aws/route53/export_recrod_sets.py:33-37 | with `ResourceRecords`, row k is `[Name, Type, values[k]]`, and there is one row per value, in order |
| Route53Export.ResourceRecordsTakePrecedence | aws/route53/export_recrod_sets.py:33-38 | with `ResourceRecords` present the alias target does not affect the rows, and an empty list yields no row |
| Route53Export.AliasTargetRow | aws/route53/export_recrod_sets.py:38-41 | without `ResourceRecords` but with `AliasTarget`, exactly one row `[Name, Type, DNSName]` |
| Route53Export.RecordWithoutValuesSkipped | aws/route53/export_recrod_sets.py:33-41 | a record set with neither key yields no row, and removing it from any position leaves the table unchanged |
| Route53Export.TableRowsAppend | aws/route53/export_recrod_sets.py:30-41 | a table's rows are the record sets' rows concatenated in record order |
| Route53Export.TableRowsCount | aws/route53/export_recrod_sets.py:30-41 | a table has as many rows as the sum of RowCount over its record sets |
| Route53Export.ValueRowsSnoc | aws/route53/export_recrod_sets.py:34-36 | each further value of `ResourceRecords` appends its row at the end |
| Route53Export.WithZoneAppend | aws/route53/export_recrod_sets.py:36-41 | putting the zone name in front distributes over concatenation: appending display rows appends the same rows, zone name first, to the export rows |
| Route53Export.WithZoneRow | aws/route53/export_recrod_sets.py:37 | one display row becomes one export row with the zone name in front |
| Route53Export.TabulateValues | aws/route53/export_recrod_sets.py:34-37 | the value loop adds one row `[Name, Type, value]` per value, in order, to the table, and the same rows with the zone name in front to `all_records`, keeping the rows already there |
| Route53Export.TabulateZone | aws/route53/export_recrod_sets.py:30-41 | the record-set loop fills the zone's table with exactly `TableRows(record_sets)` and appends those rows, zone name in front, to `all_records`, keeping the rows already there |
| Route53Export.CollectRecordSets | aws/route53/export_recrod_sets.py:20-43 | the nested loop produces exactly one table per zone as `Report` gives it, and `all_records` equals the tables' rows with the zone names in front, in order |
| Route53Export.ReportTable | aws/route53/export_recrod_sets.py:22-28 | there is one table per zone, in zone order; table i carries zone i's name, the id extracted from its `Id`, and the rows of the record sets listed under that id |
| Route53Export.ReportAppend | aws/route53/export_recrod_sets.py:22-43 | the tables of consecutive runs of zones are concatenated in zone order |
| Route53Export.AllRecordsAppend | aws/route53/export_recrod_sets.py:22-41 | the export rows of later tables are appended after those of earlier tables |
| Route53Export.ExportPrefix | aws/route53/export_recrod_sets.py:20-41 | `all_records` is only appended to: what the first i zones contribute stays a prefix of the final list, followed by the rest of the zones' rows |
| Route53Export.AllRecordsCount | aws/route53/export_recrod_sets.py:36-41 | there are as many export rows as display rows over all tables |
| Route53Export.ExportRowAt | aws/route53/export_recrod_sets.py:36-41 | display and export rows correspond one to one: the export row at offset(t) + j is row j of table t with that zone's name in front |
| Route53Export.OffsetPrefix | aws/route53/export_recrod_sets.py:36-41 | where a table's rows start in `all_records` depends only on the tables before it |
| Route53Export.OffsetAgree | aws/route53/export_recrod_sets.py:36-41 | two table lists that agree up to a position put that position's rows at the same offset |
| Route53Export.ExportRowCount | aws/route53/export_recrod_sets.py:22-41 | the number of export rows is the sum over zones and record sets of (values count, 1 for an alias, 0 otherwise) |
| Route53Export.SingleValueZone | aws/route53/export_recrod_sets.py:22-41 | one zone with one single-valued record set gives one table row `[name, type, value]` and one export row `[zone, name, type, value]` |
| Route53Export.NoZones | aws/route53/export_recrod_sets.py:20-51 | with no zones there is no table, and the export holds the header alone |
| Route53Export.ShouldExportIff | aws/route53/export_recrod_sets.py:45-46 | for any split of the answer into whitespace, a core and whitespace, the file is written iff the core is "yes" in any mix of cases |
| Route53Export.CsvFileName | aws/route53/export_recrod_sets.py:47 | the file name is "aws_r53_record_sets_", then the profile, then ".csv"; the profile can be read back from between them |
| Route53Export.CsvFileNameInjective | aws/route53/export_recrod_sets.py:47 | different profiles export to different file names |
| Route53Export.Run | aws/route53/export_recrod_sets.py:18-52 | `main` returns the report of all zones; a file is produced iff `ShouldExport(answer)`; the file is named after the profile and holds the header followed by `all_records`, unchanged and in order |

## Left out

- boto3 sessions, clients and the two listing calls (lines 6-16): these are network calls into the SDK. Their results are the inputs `zones` and `listRecordSets`. Pagination is not handled by the code, so it is not modelled.
- Authentication and listing errors: the SDK raises them and the script does not handle them, so the run simply stops. The model has no error path for them.
- PrettyTable construction and rendering, and every `print` (lines 24, 27-28, 43, 52): this is output formatting. A table is modelled only as the rows passed to `add_row`, together with the header's zone name and id.
- The `input()` prompt itself (line 45): the answer is a parameter.
- Text.Lower: lower-cases only ASCII `A`-`Z`, whereas Python's `str.lower()` is Unicode-wide and can change the length (U+0130 becomes two characters). The export decision is unaffected, because no non-ASCII character lower-cases to `y`, `e` or `s`.
- Text.LowerCharIs: holds for the ASCII `LowerChar` only; under Python's full `lower()` other characters also reach some ASCII letters (U+212A KELVIN SIGN becomes `k`), but none reaches `y`, `e` or `s`.
- File opening and `csv.writer` quoting and escaping (lines 48-51): this is I/O and library behaviour. The model gives the file name and the sequence of rows handed to the writer, not the bytes.
- argparse handling (lines 54-58) and the commented-out type filter (lines 31-32), which is inactive code.
- `ResourceRecords[i]['Value']` and `AliasTarget['DNSName']` are modelled as plain strings. A missing `Value` or `DNSName` key would raise `KeyError`; the provider always supplies these keys, so that error path is not modelled.
