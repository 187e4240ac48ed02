/**
 The whole run (`main`): check the arguments, read the region listing,
 read every town page, write the table. The command-line arguments are
 given directly and the network is the parameter `fetch`.
 */
module Scraper {
  import opened Results
  import opened Text
  import opened InputChecks
  import opened TownLinks
  import opened TownData
  import opened CsvExport

  /** The run gets as far as reading the region listing: both arguments pass
      their checks and the listing page answers with status 200. */
  predicate ListingRead(inputUrl: string, outputFile: string, baseUrl: string, fetch: string -> Response)
  {
    && CheckInputUrl(inputUrl, baseUrl) == Pass
    && CheckInputFileName(outputFile) == Pass
    && fetch(inputUrl).status == 200
  }

  /** `main(base_url)` after `check_arguments`: the checks run in order and the
      first failure ends the run. Once the listing is read, `links` are its
      town links and the run ends with the error of the first town page that
      cannot be read, with the no-data error when there are no town links,
      and otherwise writes a file named as asked whose header and rows are the
      reconciled table of `records`, the records of the town pages in link
      order. */
  method Run(inputUrl: string, outputFile: string, baseUrl: string, fetch: string -> Response)
    returns (r: Result<CsvFile>, ghost links: seq<string>, ghost records: seq<TownRecord>)
    ensures !Contains(inputUrl, baseUrl) ==> r == Err(InvalidRegionUrl)
    ensures Contains(inputUrl, baseUrl) && !EndsWith(Lower(outputFile), CsvExtension) ==> r == Err(InvalidFileName)
    ensures Contains(inputUrl, baseUrl) && EndsWith(Lower(outputFile), CsvExtension) && fetch(inputUrl).status != 200
            ==> r == Err(ServerNotResponding)
    ensures ListingRead(inputUrl, outputFile, baseUrl, fetch) ==> LinksOfListing(fetch(inputUrl).document.tableHrefs, baseUrl, links)
    ensures ListingRead(inputUrl, outputFile, baseUrl, fetch) && links == [] ==> r == Err(NoData)
    ensures ListingRead(inputUrl, outputFile, baseUrl, fetch)
            && (forall t, h :: 0 <= t < |fetch(inputUrl).document.tableHrefs| && h in fetch(inputUrl).document.tableHrefs[t]
                  ==> !Contains(h, Marker))
            ==> r == Err(NoData)
    ensures ListingRead(inputUrl, outputFile, baseUrl, fetch) ==>
      forall i :: FailsFirstAt(links, fetch, i) ==> r == Err(TownOfLink(links[i], fetch(links[i])).error)
    ensures ListingRead(inputUrl, outputFile, baseUrl, fetch) && links != [] && AllTownsRead(links, fetch) ==> r.Ok?
    ensures r.Ok? ==>
      && ListingRead(inputUrl, outputFile, baseUrl, fetch)
      && r.value.path == outputFile
      && |records| == |links| > 0
      && (forall i :: 0 <= i < |links| ==> TownOfLink(links[i], fetch(links[i])) == Ok(records[i]))
      && Reconciled(records, r.value.fieldnames, r.value.rows)
      && |r.value.rows| > 0
      && BaseColumns <= r.value.fieldnames
  {
    links, records := [], [];
    var urlCheck := CheckInputUrl(inputUrl, baseUrl);
    if urlCheck.Fail? {
      r := Err(urlCheck.error);
      return;
    }
    var nameCheck := CheckInputFileName(outputFile);
    if nameCheck.Fail? {
      r := Err(nameCheck.error);
      return;
    }
    var listing := ResponseFromServer(fetch(inputUrl));
    if listing.Err? {
      r := Err(listing.error);
      return;
    }
    var townLinks := GetTownLinks(listing.value.tableHrefs, baseUrl);
    links := townLinks;
    if forall t, h :: 0 <= t < |listing.value.tableHrefs| && h in listing.value.tableHrefs[t] ==> !Contains(h, Marker) {
      NoMarkedHrefsNoLinks(listing.value.tableHrefs, baseUrl, links);
    }
    var extracted := ExtractTownData(townLinks, fetch);
    if extracted.Err? {
      r := Err(extracted.error);
      ghost var k :| FailsFirstAt(links, fetch, k) && TownOfLink(links[k], fetch(links[k])) == Err(r.error);
      forall i | FailsFirstAt(links, fetch, i)
        ensures r == Err(TownOfLink(links[i], fetch(links[i])).error)
      {
        FirstFailureUnique(links, fetch, k, i);
      }
      FirstFailureUnique(links, fetch, k, k);
      return;
    }
    records := extracted.value;
    r := WriteToCsv(outputFile, extracted.value);
    if r.Ok? {
      assert records[0] in records;
      BaseFieldNamesOfRecordKeys(records[0].keys);
    }
  }

  /** Two towns with the party sets {A: 10, B: 5} and {B: 3, C: 7}: the party
      columns are A, B, C and each town gets "0" for the party it lacks. */
  method TwoTownsScenario()
  {
    var first := TownRecord([PartiesKey], map[], Some(map["A" := "10", "B" := "5"]));
    var second := TownRecord([PartiesKey], map[], Some(map["B" := "3", "C" := "7"]));
    var records := [first, second];
    var fieldnames, base, parties := PrepareHeader(records);
    assert PartyNames(records[0]) == {"A", "B"} && PartyNames(records[1]) == {"B", "C"};
    forall x
      ensures x in parties <==> x in ["A", "B", "C"]
    {
      if x in parties {
        var i :| 0 <= i < 2 && x in PartyNames(records[i]);
      }
      if x == "A" || x == "B" {
        assert x in PartyNames(records[0]);
      } else if x == "C" {
        assert x in PartyNames(records[1]);
      }
    }
    assert Below("A", "B") && Below("B", "C") && Below("A", "C");
    AscendingUnique(parties, ["A", "B", "C"]);
    assert parties == ["A", "B", "C"];
    TwoTownsRows(first, second);
  }

  method TwoTownsRows(first: TownRecord, second: TownRecord)
    requires first.parties == Some(map["A" := "10", "B" := "5"])
    requires second.parties == Some(map["B" := "3", "C" := "7"])
  {
    var rows := PrepareDataToWrite([first, second], [], ["A", "B", "C"]);
    assert rows[0]["A"] == "10" && rows[0]["B"] == "5" && rows[0]["C"] == "0";
    assert rows[1]["A"] == "0" && rows[1]["B"] == "3" && rows[1]["C"] == "7";
  }
}
