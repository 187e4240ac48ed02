/**
 Turning the collected town records into a table (`prepare_header`,
 `prepare_data_to_write`, `write_to_csv`). The columns are the first
 record's string keys followed by every party name seen in any record,
 sorted; each row gives every column a cell, "0" for a party the town
 did not report.
 */
module CsvExport {
  import opened Results
  import opened Text
  import opened TownData

  /** The party names a record reports: the keys of its "Strany" dict. */
  function PartyNames(rec: TownRecord): set<string>
  {
    if rec.parties.Some? then rec.parties.value.Keys else {}
  }

  /** `[key for key in keys if key != "Strany"]`. */
  function BaseFieldNames(keys: seq<string>): (r: seq<string>)
    ensures forall k :: k in r <==> k in keys && k != PartiesKey
    ensures |r| <= |keys|
  {
    if keys == [] then []
    else (if keys[0] == PartiesKey then [] else [keys[0]]) + BaseFieldNames(keys[1..])
  }

  /** Every record the scraper builds has the five base columns, in their
      fixed order, as its non-party keys. */
  lemma BaseFieldNamesOfTownRecord(link: string, doc: Document)
    requires BuildTownRecord(link, doc).Ok?
    ensures BaseFieldNames(BuildTownRecord(link, doc).value.keys) == BaseColumns
  {
    BaseFieldNamesOfRecordKeys(BuildTownRecord(link, doc).value.keys);
  }

  lemma BaseFieldNamesOfRecordKeys(keys: seq<string>)
    requires keys == BaseColumns + [PartiesKey]
    ensures BaseFieldNames(keys) == BaseColumns
  {
    assert PartiesKey !in BaseColumns;
    BaseFieldNamesDropsTrailingParties(BaseColumns);
  }

  lemma {:induction false} BaseFieldNamesDropsTrailingParties(keys: seq<string>)
    requires PartiesKey !in keys
    ensures BaseFieldNames(keys + [PartiesKey]) == keys
  {
    if keys != [] {
      assert (keys + [PartiesKey])[1..] == keys[1..] + [PartiesKey];
      BaseFieldNamesDropsTrailingParties(keys[1..]);
      assert keys == [keys[0]] + keys[1..];
    }
  }

  /** A key list without repeats gives base fields without repeats. */
  lemma {:induction false} BaseFieldNamesDistinct(keys: seq<string>)
    requires Distinct(keys)
    ensures Distinct(BaseFieldNames(keys))
  {
    if keys != [] {
      BaseFieldNamesDistinct(keys[1..]);
      assert keys[0] !in keys[1..];
    }
  }

  /** `sorted(names)`: the names in ascending order, each once. */
  method SortNames(names: set<string>) returns (sorted: seq<string>)
    ensures StrictlyAscending(sorted)
    ensures forall x :: x in sorted <==> x in names
  {
    sorted := [];
    var rest := names;
    while rest != {}
      invariant forall x :: x in names <==> x in sorted || x in rest
      invariant forall i, y :: 0 <= i < |sorted| && y in rest ==> Below(sorted[i], y)
      invariant StrictlyAscending(sorted)
      decreases |rest|
    {
      MinimumExists(rest);
      var m :| m in rest && forall y :: y in rest && y != m ==> Below(m, y);
      sorted := sorted + [m];
      rest := rest - {m};
    }
  }

  /** `prepare_header`: the base fields are the first record's keys without
      "Strany", the party columns are the union of all records' party names in
      ascending order, and the header is the one followed by the other. */
  method PrepareHeader(records: seq<TownRecord>) returns (fieldnames: seq<string>, base: seq<string>, parties: seq<string>)
    requires |records| > 0
    ensures base == BaseFieldNames(records[0].keys)
    ensures fieldnames == base + parties
    ensures StrictlyAscending(parties)
    ensures forall p :: p in parties <==> exists i :: 0 <= i < |records| && p in PartyNames(records[i])
  {
    base := BaseFieldNames(records[0].keys);
    var allPartyNames: set<string> := {};
    for i := 0 to |records|
      invariant forall p :: p in allPartyNames <==> exists j :: 0 <= j < i && p in PartyNames(records[j])
    {
      if records[i].parties.Some? {
        allPartyNames := allPartyNames + records[i].parties.value.Keys;
      }
    }
    parties := SortNames(allPartyNames);
    fieldnames := base + parties;
  }

  /** `town_data.get(field, "")` for a string field. */
  function FieldOr(rec: TownRecord, field: string): string
  {
    if field in rec.fields then rec.fields[field] else ""
  }

  /** `town_data.get("Strany", {}).get(party, "0")`. */
  function VotesOr(rec: TownRecord, party: string): string
  {
    if rec.parties.Some? && party in rec.parties.value then rec.parties.value[party] else "0"
  }

  /** `row` is the flat form of `rec` under the given columns: it has exactly
      those columns; a base column that is not also a party column holds the
      record's field ("" if it has none); a party column holds the record's
      votes for that party, "0" if the record does not report it. A party
      column wins over a base column of the same name, since it is written
      last. */
  ghost predicate Flattened(rec: TownRecord, base: seq<string>, parties: seq<string>, row: map<string, string>)
  {
    && row.Keys == (set f | f in base) + (set p | p in parties)
    && (forall f :: f in base && f !in parties ==> row[f] == FieldOr(rec, f))
    && (forall p :: p in parties ==> row[p] == VotesOr(rec, p))
  }

  /** The flat form of a record is determined by the record and the columns. */
  lemma FlattenedIsUnique(rec: TownRecord, base: seq<string>, parties: seq<string>, row1: map<string, string>, row2: map<string, string>)
    requires Flattened(rec, base, parties, row1) && Flattened(rec, base, parties, row2)
    ensures row1 == row2
  {
  }

  /** One iteration of `prepare_data_to_write`: the row dict for one town. */
  method FlattenRecord(rec: TownRecord, base: seq<string>, parties: seq<string>) returns (row: map<string, string>)
    ensures Flattened(rec, base, parties, row)
  {
    row := map[];
    for k := 0 to |base|
      invariant row.Keys == set j | 0 <= j < k :: base[j]
      invariant forall j :: 0 <= j < k ==> row[base[j]] == FieldOr(rec, base[j])
    {
      row := row[base[k] := FieldOr(rec, base[k])];
    }
    var partyVotes := if rec.parties.Some? then rec.parties.value else map[];
    for k := 0 to |parties|
      invariant row.Keys == (set f | f in base) + (set j | 0 <= j < k :: parties[j])
      invariant forall f :: f in base && f !in parties[..k] ==> row[f] == FieldOr(rec, f)
      invariant forall j :: 0 <= j < k ==> row[parties[j]] == VotesOr(rec, parties[j])
    {
      row := row[parties[k] := if parties[k] in partyVotes then partyVotes[parties[k]] else "0"];
    }
    assert parties[..|parties|] == parties;
  }

  /** `prepare_data_to_write`: one row per record, in record order. */
  method PrepareDataToWrite(records: seq<TownRecord>, base: seq<string>, parties: seq<string>) returns (rows: seq<map<string, string>>)
    ensures |rows| == |records|
    ensures forall i :: 0 <= i < |records| ==> Flattened(records[i], base, parties, rows[i])
  {
    rows := [];
    for i := 0 to |records|
      invariant |rows| == i
      invariant forall j :: 0 <= j < i ==> Flattened(records[j], base, parties, rows[j])
    {
      var row := FlattenRecord(records[i], base, parties);
      rows := rows + [row];
    }
  }

  /** What is written to the output file: the header, then the rows. */
  datatype CsvFile = CsvFile(path: string, fieldnames: seq<string>, rows: seq<map<string, string>>)

  /** The table written for a non-empty list of records: the header is the
      first record's base fields followed by all party names in ascending
      order, and there is one flat row per record, in record order. */
  ghost predicate Reconciled(records: seq<TownRecord>, fieldnames: seq<string>, rows: seq<map<string, string>>)
  {
    && records != []
    && var base := BaseFieldNames(records[0].keys);
    && base <= fieldnames
    && Distinct(base)
    && StrictlyAscending(fieldnames[|base|..])
    && (forall p :: p in fieldnames[|base|..] <==> exists i :: 0 <= i < |records| && p in PartyNames(records[i]))
    && |rows| == |records|
    && forall i :: 0 <= i < |records| ==> Flattened(records[i], base, fieldnames[|base|..], rows[i])
  }

  /** `write_to_csv`: without records nothing is written and the run stops;
      otherwise the file gets the reconciled header and one flat row per
      record. */
  method WriteToCsv(outputFile: string, records: seq<TownRecord>) returns (r: Result<CsvFile>)
    requires forall rec :: rec in records ==> WellFormed(rec)
    ensures |records| == 0 ==> r == Err(NoData)
    ensures |records| > 0 ==> r.Ok? && r.value.path == outputFile
    ensures |records| > 0 ==> r.Ok? && Reconciled(records, r.value.fieldnames, r.value.rows)
  {
    if records == [] {
      return Err(NoData);
    }
    var fieldnames, base, parties := PrepareHeader(records);
    var rows := PrepareDataToWrite(records, base, parties);
    assert records[0] in records;
    BaseFieldNamesDistinct(records[0].keys);
    assert fieldnames[|base|..] == parties;
    r := Ok(CsvFile(outputFile, fieldnames, rows));
  }
}
