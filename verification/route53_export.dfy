/**
 The record-set export of aws/route53/export_recrod_sets.py: every hosted
 zone's resource record sets are flattened into display rows
 `[name, type, value]` (one console table per zone) and, with the zone name
 in front, into the export list `all_records`; on confirmation that list is
 written to `aws_r53_record_sets_<profile>.csv` under a fixed header.

 The provider's answers (`list_hosted_zones`, `list_resource_record_sets`)
 are inputs: a sequence of zones and a function from a zone id to that
 zone's record sets. The typed answer to the prompt is an input string.
 */
module Route53Export {
  import opened Text

  datatype Option<+T> = None | Some(value: T)

  /** A hosted zone as `list_hosted_zones` returns it: `Id` is the full
      provider path ("/hostedzone/Z1"), `Name` the zone's domain name. */
  datatype Zone = Zone(id: string, name: string)

  /** A resource record set. `resourceRecords` is the list of `Value`s when
      the `ResourceRecords` key is present (possibly empty); `aliasTarget`
      is `AliasTarget.DNSName` when the `AliasTarget` key is present. */
  datatype Record = Record(
    name: string,
    rtype: string,
    resourceRecords: Option<seq<string>>,
    aliasTarget: Option<string>)

  /** A row as handed to `table.add_row` (three cells) or appended to
      `all_records` (four cells). */
  type Row = seq<string>

  /** One zone's console output: the header line's name and id, and the
      rows added to its table, in order. */
  datatype ZoneTable = ZoneTable(zoneName: string, zoneId: string, rows: seq<Row>)

  /** The exported file: its name and the rows the CSV writer receives. */
  datatype CsvFile = CsvFile(name: string, rows: seq<Row>)

  const CsvHeader: Row := ["Hosted Zone", "Record Name", "Record Type", "Record Value"]
  const CsvPrefix := "aws_r53_record_sets_"
  const CsvSuffix := ".csv"

  /* ---------------------------------------------------------------------
     Zone id
     --------------------------------------------------------------------- */

  /** `zone['Id'].split('/')[-1]`: the last '/'-separated segment of `Id`,
      which holds no '/'. */
  function ZoneId(id: string): (r: string)
    ensures '/' !in r
  {
    var parts := Split(id, '/');
    parts[|parts| - 1]
  }

  /** The zone id ends `id` and is either all of `id` or directly preceded
      by '/'; so it is `id` itself when `id` has no '/' and empty when `id`
      ends in '/'. */
  lemma ZoneIdIsLastSegment(id: string)
    ensures var r := ZoneId(id);
      && |r| <= |id| && r == id[|id| - |r|..]
      && (|r| < |id| ==> id[|id| - |r| - 1] == '/')
      && ('/' !in id ==> r == id)
      && (|id| > 0 && id[|id| - 1] == '/' ==> r == [])
  {
    SplitLastIsSuffix(id, '/');
    var r := ZoneId(id);
    if |r| < |id| {
      assert id[|id| - |r| - 1] in id;
    }
    if r != [] {
      assert r[|r| - 1] == id[|id| - 1];
    }
  }

  /** The three facts in `ZoneId`'s contract single out one suffix: any
      '/'-free suffix of `id` that is all of `id` or follows a '/' is the
      zone id. */
  lemma ZoneIdUnique(id: string, r: string)
    requires '/' !in r
    requires |r| <= |id| && r == id[|id| - |r|..]
    requires |r| < |id| ==> id[|id| - |r| - 1] == '/'
    ensures ZoneId(id) == r
  {
    ZoneIdIsLastSegment(id);
  }

  /* ---------------------------------------------------------------------
     Flattening
     --------------------------------------------------------------------- */

  /** The display rows of a list of values: one `[name, type, value]` per
      value, in order. */
  function ValueRows(name: string, rtype: string, values: seq<string>): (rows: seq<Row>)
  {
    seq(|values|, i requires 0 <= i < |values| => [name, rtype, values[i]])
  }

  /** How many rows a record set yields: its number of values when it has
      `ResourceRecords`, else one when it has `AliasTarget`, else none. */
  function RowCount(r: Record): nat
  {
    match r.resourceRecords
    case Some(values) => |values|
    case None => if r.aliasTarget.Some? then 1 else 0
  }

  /** The rows one record set adds to its zone's table (lines 33-41);
      there are `RowCount(r)` of them. */
  function RecordRows(r: Record): (rows: seq<Row>)
    ensures |rows| == RowCount(r)
  {
    match r.resourceRecords
    case Some(values) => ValueRows(r.name, r.rtype, values)
    case None =>
      match r.aliasTarget
      case Some(dnsName) => [[r.name, r.rtype, dnsName]]
      case None => []
  }

  /** The rows of a zone's table: each record set's rows, in record order. */
  function TableRows(records: seq<Record>): seq<Row>
    decreases |records|
  {
    if records == [] then []
    else TableRows(records[..|records| - 1]) + RecordRows(records[|records| - 1])
  }

  /** The export rows of a zone: each display row with the zone name in
      front. */
  function WithZone(zoneName: string, rows: seq<Row>): (out: seq<Row>)
  {
    seq(|rows|, i requires 0 <= i < |rows| => [zoneName] + rows[i])
  }

  /** The console output for a list of zones: one table per zone, in zone
      order, each headed by the zone's name and extracted id and holding the
      rows of the record sets listed for that id. */
  function Report(zones: seq<Zone>, listRecordSets: string -> seq<Record>): seq<ZoneTable>
    decreases |zones|
  {
    if zones == [] then []
    else
      var zone := zones[|zones| - 1];
      var id := ZoneId(zone.id);
      Report(zones[..|zones| - 1], listRecordSets) + [ZoneTable(zone.name, id, TableRows(listRecordSets(id)))]
  }

  /** `all_records`: the tables' rows, each with its zone's name in front,
      in table order. */
  function AllRecords(tables: seq<ZoneTable>): seq<Row>
    decreases |tables|
  {
    if tables == [] then []
    else
      var t := tables[|tables| - 1];
      AllRecords(tables[..|tables| - 1]) + WithZone(t.zoneName, t.rows)
  }

  /** The zone loop of lines 20-43: for each zone, extract its id, list its
      record sets, and tabulate them; the tables come out as `Report` gives
      them and `all_records` as `AllRecords` of those tables. */
  method CollectRecordSets(zones: seq<Zone>, listRecordSets: string -> seq<Record>)
    returns (tables: seq<ZoneTable>, allRecords: seq<Row>)
    ensures tables == Report(zones, listRecordSets)
    ensures allRecords == AllRecords(tables)
  {
    tables, allRecords := [], [];
    for i := 0 to |zones|
      invariant tables == Report(zones[..i], listRecordSets)
      invariant allRecords == AllRecords(tables)
    {
      var zone := zones[i];
      var zoneId := ZoneId(zone.id);
      var recordSets := listRecordSets(zoneId);
      var table;
      table, allRecords := TabulateZone(zone.name, recordSets, allRecords);
      tables := tables + [ZoneTable(zone.name, zoneId, table)];
      assert zones[..i + 1][..i] == zones[..i];
      assert tables[..|tables| - 1] == Report(zones[..i], listRecordSets);
    }
    assert zones[..|zones|] == zones;
  }

  /** The record-set loop of lines 27-41, run for one zone: each record
      set's rows are added to the zone's table and, with the zone name in
      front, appended to `all_records`, whose earlier rows are kept. */
  method TabulateZone(zoneName: string, recordSets: seq<Record>, allRecordsBefore: seq<Row>)
    returns (table: seq<Row>, allRecords: seq<Row>)
    ensures table == TableRows(recordSets)
    ensures allRecords == allRecordsBefore + WithZone(zoneName, table)
  {
    table, allRecords := [], allRecordsBefore;
    for j := 0 to |recordSets|
      invariant table == TableRows(recordSets[..j])
      invariant allRecords == allRecordsBefore + WithZone(zoneName, table)
    {
      var record := recordSets[j];
      ghost var tableBefore := table;
      if record.resourceRecords.Some? {
        table, allRecords := TabulateValues(zoneName, record.name, record.rtype, record.resourceRecords.value, table, allRecords);
      } else if record.aliasTarget.Some? {
        var recordValue := record.aliasTarget.value;
        table := table + [[record.name, record.rtype, recordValue]];
        allRecords := allRecords + [[zoneName, record.name, record.rtype, recordValue]];
        WithZoneRow(zoneName, [record.name, record.rtype, recordValue]);
        assert [zoneName] + [record.name, record.rtype, recordValue]
            == [zoneName, record.name, record.rtype, recordValue];
      } else {
        assert WithZone(zoneName, []) == [];
        assert tableBefore + [] == tableBefore;
        assert allRecords + [] == allRecords;
      }
      ghost var added := RecordRows(record);
      assert table == tableBefore + added;
      assert allRecords == allRecordsBefore + WithZone(zoneName, tableBefore) + WithZone(zoneName, added);
      assert TableRows(recordSets[..j + 1]) == TableRows(recordSets[..j]) + added by {
        assert recordSets[..j + 1][..j] == recordSets[..j];
      }
      WithZoneAppend(zoneName, tableBefore, added);
      ConcatAssociative(allRecordsBefore, WithZone(zoneName, tableBefore), WithZone(zoneName, added));
    }
    assert recordSets[..|recordSets|] == recordSets;
  }

  /** The value loop of lines 34-37, run for one record set: one row
      `[name, type, value]` per value, in order, is added to the table, and
      the same row with the zone name in front is appended to `all_records`. */
  method TabulateValues(zoneName: string, name: string, rtype: string, values: seq<string>,
                        tableBefore: seq<Row>, allRecordsBefore: seq<Row>)
    returns (table: seq<Row>, allRecords: seq<Row>)
    ensures table == tableBefore + ValueRows(name, rtype, values)
    ensures allRecords == allRecordsBefore + WithZone(zoneName, ValueRows(name, rtype, values))
  {
    table, allRecords := tableBefore, allRecordsBefore;
    for k := 0 to |values|
      invariant table == tableBefore + ValueRows(name, rtype, values[..k])
      invariant allRecords == allRecordsBefore + WithZone(zoneName, ValueRows(name, rtype, values[..k]))
    {
      var recordValue := values[k];
      ghost var done := ValueRows(name, rtype, values[..k]);
      var row := [name, rtype, recordValue];
      table := table + [row];
      allRecords := allRecords + [[zoneName, name, rtype, recordValue]];
      ValueRowsSnoc(name, rtype, values, k);
      ConcatAssociative(tableBefore, done, [row]);
      WithZoneAppend(zoneName, done, [row]);
      WithZoneRow(zoneName, row);
      assert [zoneName] + row == [zoneName, name, rtype, recordValue];
      ConcatAssociative(allRecordsBefore, WithZone(zoneName, done), WithZone(zoneName, [row]));
    }
    assert values[..|values|] == values;
  }

  /** Taking one more value adds its row at the end. */
  lemma ValueRowsSnoc(name: string, rtype: string, values: seq<string>, k: nat)
    requires k < |values|
    ensures ValueRows(name, rtype, values[..k + 1])
      == ValueRows(name, rtype, values[..k]) + [[name, rtype, values[k]]]
  {
    var a := ValueRows(name, rtype, values[..k + 1]);
    var b := ValueRows(name, rtype, values[..k]) + [[name, rtype, values[k]]];
    assert |a| == |b|;
    forall i | 0 <= i < |a| ensures a[i] == b[i] {
    }
  }

  /** Prefixing the zone name distributes over concatenation: appending
      display rows appends the same rows, zone name in front, to the export
      rows. */
  lemma WithZoneAppend(zoneName: string, rows: seq<Row>, more: seq<Row>)
    ensures WithZone(zoneName, rows + more) == WithZone(zoneName, rows) + WithZone(zoneName, more)
  {
    var a := WithZone(zoneName, rows + more);
    var b := WithZone(zoneName, rows) + WithZone(zoneName, more);
    assert |a| == |b|;
    forall i | 0 <= i < |a| ensures a[i] == b[i] {
      if i < |rows| {
        assert (rows + more)[i] == rows[i];
      } else {
        assert (rows + more)[i] == more[i - |rows|];
      }
    }
  }

  /** One display row becomes one export row with the zone name in front. */
  lemma WithZoneRow(zoneName: string, row: Row)
    ensures WithZone(zoneName, [row]) == [[zoneName] + row]
  {
    var w := WithZone(zoneName, [row]);
    assert w[0] == [zoneName] + row;
  }

  /* ---------------------------------------------------------------------
     Export
     --------------------------------------------------------------------- */

  /** The export decision of lines 45-46: the answer, stripped and
      lower-cased, is "yes". */
  predicate ShouldExport(answer: string)
  {
    Lower(Strip(answer)) == "yes"
  }

  /** `f'aws_r53_record_sets_{profile_name}.csv'`. */
  function CsvFileName(profile: string): (name: string)
    ensures |name| == |CsvPrefix| + |profile| + |CsvSuffix|
    ensures name[..|CsvPrefix|] == CsvPrefix
    ensures name[|name| - |CsvSuffix|..] == CsvSuffix
    ensures name[|CsvPrefix|..|name| - |CsvSuffix|] == profile
  {
    CsvPrefix + profile + CsvSuffix
  }

  /** `main(profile_name)` (lines 18-52) with the provider's answers and the
      prompt's answer as inputs: the console tables, and the file written
      when the answer is "yes" (in any case, with surrounding whitespace),
      holding the header and then `all_records` unchanged. */
  method Run(profile: string, zones: seq<Zone>, listRecordSets: string -> seq<Record>, answer: string)
    returns (report: seq<ZoneTable>, file: Option<CsvFile>)
    ensures report == Report(zones, listRecordSets)
    ensures file.Some? <==> ShouldExport(answer)
    ensures file.Some? ==> file.value == CsvFile(CsvFileName(profile), [CsvHeader] + AllRecords(report))
  {
    var allRecords;
    report, allRecords := CollectRecordSets(zones, listRecordSets);
    var exportToCsv := Lower(Strip(answer));
    if exportToCsv == "yes" {
      var csvFilename := CsvPrefix + profile + CsvSuffix;
      file := Some(CsvFile(csvFilename, [CsvHeader] + allRecords));
    } else {
      file := None;
    }
  }

  /* ---------------------------------------------------------------------
     Properties
     --------------------------------------------------------------------- */

  /** One table per zone, in the zones' order: table `i` is headed by zone
      `i`'s name and the id extracted from its `Id`, and holds the rows of
      the record sets listed for that id. */
  lemma {:induction false} ReportTable(zones: seq<Zone>, listRecordSets: string -> seq<Record>, i: nat)
    requires i < |zones|
    ensures |Report(zones, listRecordSets)| == |zones|
    ensures Report(zones, listRecordSets)[i]
      == ZoneTable(zones[i].name, ZoneId(zones[i].id), TableRows(listRecordSets(ZoneId(zones[i].id))))
    decreases |zones|
  {
    var p := zones[..|zones| - 1];
    if i < |p| {
      ReportTable(p, listRecordSets, i);
    } else if p != [] {
      ReportTable(p, listRecordSets, 0);
    }
  }

  /** A record set with `ResourceRecords` yields one row per value, in the
      values' order, each carrying the record's name and type. */
  lemma ResourceRecordsRows(r: Record, values: seq<string>)
    requires r.resourceRecords == Some(values)
    ensures |RecordRows(r)| == |values|
    ensures forall k :: 0 <= k < |values| ==> RecordRows(r)[k] == [r.name, r.rtype, values[k]]
  {
  }

  /** `ResourceRecords` takes precedence: when the key is present the alias
      target is never looked at, and an empty list yields no row at all. */
  lemma ResourceRecordsTakePrecedence(r: Record, alias: Option<string>)
    requires r.resourceRecords.Some?
    ensures RecordRows(r.(aliasTarget := alias)) == RecordRows(r)
    ensures r.resourceRecords.value == [] ==> RecordRows(r) == []
  {
  }

  /** A record set without `ResourceRecords` but with `AliasTarget` yields
      exactly one row, whose value is the alias DNS name. */
  lemma AliasTargetRow(r: Record, dnsName: string)
    requires r.resourceRecords.None? && r.aliasTarget == Some(dnsName)
    ensures RecordRows(r) == [[r.name, r.rtype, dnsName]]
  {
  }

  /** The table rows of consecutive runs of record sets are concatenated. */
  lemma {:induction false} TableRowsAppend(a: seq<Record>, b: seq<Record>)
    ensures TableRows(a + b) == TableRows(a) + TableRows(b)
    decreases |b|
  {
    if b == [] {
      assert a + b == a;
    } else {
      var b' := b[..|b| - 1];
      var last := b[|b| - 1];
      assert (a + b)[..|a + b| - 1] == a + b';
      assert (a + b)[|a + b| - 1] == last;
      assert TableRows(a + b) == TableRows(a + b') + RecordRows(last);
      assert TableRows(b) == TableRows(b') + RecordRows(last);
      TableRowsAppend(a, b');
      ConcatAssociative(TableRows(a), TableRows(b'), RecordRows(last));
    }
  }

  /** A record set with neither key adds no row: removing it from anywhere
      in the list leaves the table (and so the export) unchanged. */
  lemma RecordWithoutValuesSkipped(before: seq<Record>, r: Record, after: seq<Record>)
    requires r.resourceRecords.None? && r.aliasTarget.None?
    ensures RecordRows(r) == []
    ensures TableRows(before + [r] + after) == TableRows(before + after)
  {
    var withR := before + [r];
    assert withR[..|withR| - 1] == before;
    assert TableRows(withR) == TableRows(before) + RecordRows(r);
    calc {
      TableRows(before + [r] + after);
      { TableRowsAppend(withR, after); }
      TableRows(withR) + TableRows(after);
      TableRows(before) + TableRows(after);
      { TableRowsAppend(before, after); }
      TableRows(before + after);
    }
  }

  /** Sum of `RowCount` over a list of record sets. */
  function SumRowCount(records: seq<Record>): nat
    decreases |records|
  {
    if records == [] then 0 else SumRowCount(records[..|records| - 1]) + RowCount(records[|records| - 1])
  }

  /** A table has one row per value of each record set with
      `ResourceRecords`, one per aliased record set, none otherwise. */
  lemma {:induction false} TableRowsCount(records: seq<Record>)
    ensures |TableRows(records)| == SumRowCount(records)
    decreases |records|
  {
    if records != [] {
      TableRowsCount(records[..|records| - 1]);
    }
  }

  /** `all_records` only grows: the rows of later tables are appended after
      those of earlier ones, which stay as they were. */
  lemma {:induction false} AllRecordsAppend(a: seq<ZoneTable>, b: seq<ZoneTable>)
    ensures AllRecords(a + b) == AllRecords(a) + AllRecords(b)
    decreases |b|
  {
    if b == [] {
      assert a + b == a;
    } else {
      var b' := b[..|b| - 1];
      assert (a + b)[..|a + b| - 1] == a + b';
      AllRecordsAppend(a, b');
    }
  }

  /** The tables of consecutive runs of zones are concatenated. */
  lemma {:induction false} ReportAppend(a: seq<Zone>, b: seq<Zone>, listRecordSets: string -> seq<Record>)
    ensures Report(a + b, listRecordSets) == Report(a, listRecordSets) + Report(b, listRecordSets)
    decreases |b|
  {
    if b == [] {
      assert a + b == a;
    } else {
      var b' := b[..|b| - 1];
      assert (a + b)[..|a + b| - 1] == a + b';
      assert (a + b)[|a + b| - 1] == b[|b| - 1];
      ReportAppend(a, b', listRecordSets);
    }
  }

  /** What the first `i` zones put into `all_records` is never altered by
      the later zones: it stays a prefix of the final export rows, and the
      rest are the later zones' rows. */
  lemma {:induction false} ExportPrefix(zones: seq<Zone>, listRecordSets: string -> seq<Record>, i: nat)
    requires i <= |zones|
    ensures AllRecords(Report(zones, listRecordSets))
      == AllRecords(Report(zones[..i], listRecordSets)) + AllRecords(Report(zones[i..], listRecordSets))
  {
    var front, back := zones[..i], zones[i..];
    assert front + back == zones;
    calc {
      AllRecords(Report(zones, listRecordSets));
      { ReportAppend(front, back, listRecordSets); }
      AllRecords(Report(front, listRecordSets) + Report(back, listRecordSets));
      { AllRecordsAppend(Report(front, listRecordSets), Report(back, listRecordSets)); }
      AllRecords(Report(front, listRecordSets)) + AllRecords(Report(back, listRecordSets));
    }
  }

  /** Where a table's rows start in `all_records`: the number of rows of the
      tables before it. */
  function Offset(tables: seq<ZoneTable>, t: nat): nat
    requires t <= |tables|
    decreases t
  {
    if t == 0 then 0 else Offset(tables, t - 1) + |tables[t - 1].rows|
  }

  /** Number of display rows over all tables. */
  function SumRows(tables: seq<ZoneTable>): nat
  {
    Offset(tables, |tables|)
  }

  /** Display rows and export rows correspond one to one: there are as many
      export rows as display rows, and the export row at position
      `Offset(tables, t) + j` is row `j` of table `t` with the zone name in
      front. */
  lemma {:induction false} ExportRowAt(tables: seq<ZoneTable>, t: nat, j: nat)
    requires t < |tables| && j < |tables[t].rows|
    ensures |AllRecords(tables)| == SumRows(tables)
    ensures Offset(tables, t) + j < |AllRecords(tables)|
    ensures AllRecords(tables)[Offset(tables, t) + j] == [tables[t].zoneName] + tables[t].rows[j]
  {
    var front, upto, rest := tables[..t], tables[..t + 1], tables[t + 1..];
    var here := WithZone(tables[t].zoneName, tables[t].rows);
    assert upto[..t] == front;
    assert AllRecords(upto) == AllRecords(front) + here;
    assert upto + rest == tables;
    AllRecordsAppend(upto, rest);
    AllRecordsCount(front);
    OffsetPrefix(tables, t);
    AllRecordsCount(tables);
    assert AllRecords(tables) == AllRecords(front) + here + AllRecords(rest);
  }

  /** The export has as many rows as all tables together. */
  lemma {:induction false} AllRecordsCount(tables: seq<ZoneTable>)
    ensures |AllRecords(tables)| == SumRows(tables)
    decreases |tables|
  {
    if tables != [] {
      var p := tables[..|tables| - 1];
      AllRecordsCount(p);
      OffsetPrefix(tables, |p|);
    }
  }

  /** Offsets only depend on the tables before the position. */
  lemma {:induction false} OffsetPrefix(tables: seq<ZoneTable>, t: nat)
    requires t <= |tables|
    ensures Offset(tables[..t], t) == Offset(tables, t)
    decreases t
  {
    if t > 0 {
      OffsetPrefix(tables, t - 1);
      OffsetAgree(tables[..t], tables, t - 1);
    }
  }

  /** Two table lists that agree before position `t` have the same offset
      there. */
  lemma {:induction false} OffsetAgree(a: seq<ZoneTable>, b: seq<ZoneTable>, t: nat)
    requires t <= |a| && t <= |b|
    requires a[..t] == b[..t]
    ensures Offset(a, t) == Offset(b, t)
    decreases t
  {
    if t > 0 {
      assert a[t - 1] == a[..t][t - 1];
      assert a[..t - 1] == a[..t][..t - 1];
      assert b[..t - 1] == b[..t][..t - 1];
      OffsetAgree(a, b, t - 1);
    }
  }

  /** Total number of rows the provider's record sets yield. */
  function TotalRowCount(zones: seq<Zone>, listRecordSets: string -> seq<Record>): nat
    decreases |zones|
  {
    if zones == [] then 0
    else
      TotalRowCount(zones[..|zones| - 1], listRecordSets)
        + SumRowCount(listRecordSets(ZoneId(zones[|zones| - 1].id)))
  }

  /** The number of exported rows is the sum over all zones and record sets
      of (number of values | 1 for an alias | 0). */
  lemma {:induction false} ExportRowCount(zones: seq<Zone>, listRecordSets: string -> seq<Record>)
    ensures |AllRecords(Report(zones, listRecordSets))| == TotalRowCount(zones, listRecordSets)
    decreases |zones|
  {
    if zones != [] {
      var p := zones[..|zones| - 1];
      var tables := Report(zones, listRecordSets);
      ExportRowCount(p, listRecordSets);
      TableRowsCount(listRecordSets(ZoneId(zones[|zones| - 1].id)));
      assert tables[..|tables| - 1] == Report(p, listRecordSets);
    }
  }

  /** The export decision is exactly: the answer is some whitespace, then
      "yes" in any mix of cases, then some whitespace. For any split of the
      answer into whitespace, a core that neither starts nor ends with
      whitespace, and whitespace (every answer has one, by `StripParts`), the
      file is written iff the core is "yes" up to case. */
  lemma ShouldExportIff(pre: string, w: string, post: string)
    requires AllSpace(pre) && AllSpace(post)
    requires w == [] || (!IsSpace(w[0]) && !IsSpace(w[|w| - 1]))
    ensures ShouldExport(pre + w + post) <==>
      && |w| == 3
      && (w[0] == 'y' || w[0] == 'Y')
      && (w[1] == 'e' || w[1] == 'E')
      && (w[2] == 's' || w[2] == 'S')
  {
    StripUnique(pre, w, post);
    LowerIsYes(w);
  }

  /** Different profiles export to different files. */
  lemma CsvFileNameInjective(p: string, q: string)
    requires CsvFileName(p) == CsvFileName(q)
    ensures p == q
  {
    var n := CsvFileName(p);
    assert p == n[|CsvPrefix|..|n| - |CsvSuffix|];
  }

  /** A provider path such as "/hostedzone/Z1" yields the bare id "Z1". */
  lemma ZoneIdOfHostedZonePath()
    ensures ZoneId("/hostedzone/Z1") == "Z1"
  {
    ZoneIdUnique("/hostedzone/Z1", "Z1");
  }

  /** One zone holding one record set with a single value: one table with
      the row `[name, type, value]`, and one export row with the zone name
      in front. */
  lemma SingleValueZone(zone: Zone, listRecordSets: string -> seq<Record>, r: Record, v: string)
    requires listRecordSets(ZoneId(zone.id)) == [r]
    requires r.resourceRecords == Some([v])
    ensures Report([zone], listRecordSets) == [ZoneTable(zone.name, ZoneId(zone.id), [[r.name, r.rtype, v]])]
    ensures AllRecords(Report([zone], listRecordSets)) == [[zone.name, r.name, r.rtype, v]]
  {
    assert [r][..0] == [];
    assert TableRows([r]) == [[r.name, r.rtype, v]];
    var tables := Report([zone], listRecordSets);
    assert [zone][..0] == [];
    assert tables[..0] == [];
    var w := WithZone(zone.name, [[r.name, r.rtype, v]]);
    assert w[0] == [zone.name] + [r.name, r.rtype, v] == [zone.name, r.name, r.rtype, v];
    assert w == [w[0]];
  }

  /** With no hosted zones nothing is shown and the export holds the
      header alone. */
  lemma NoZones(listRecordSets: string -> seq<Record>)
    ensures Report([], listRecordSets) == []
    ensures [CsvHeader] + AllRecords(Report([], listRecordSets)) == [CsvHeader]
  {
  }
}
