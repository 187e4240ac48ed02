/**
 Per-town records (`extract_town_data`). A fetched page is modelled by
 what the scraper reads from it: the texts of its `h3` headings, the
 three number cells with headers sa2, sa3 and sa6 (absent when the page
 has no such cell), the party-name cells and the party-vote cells, in
 page order. The HTTP request is a parameter `fetch` that gives the
 response for a URL.
 */
module TownData {
  import opened Results
  import opened Text

  datatype Document = Document(
    tableHrefs: seq<seq<string>>,  // hrefs of the anchors in each table (listing page)
    headings: seq<string>,         // texts of the h3 elements
    voters: Option<string>,        // td.cislo with headers "sa2"
    envelopes: Option<string>,     // td.cislo with headers "sa3"
    validVotes: Option<string>,    // td.cislo with headers "sa6"
    partyNames: seq<string>,       // td.overflow_name
    partyVotes: seq<string>)       // td.cislo with headers "t1sa2 t1sb3" or "t2sa2 t2sb3"

  datatype Response = Response(status: int, document: Document)

  /** `response_from_server`: anything but status 200 stops the run. */
  function ResponseFromServer(response: Response): (r: Result<Document>)
    ensures r.Ok? <==> response.status == 200
    ensures r.Ok? ==> r.value == response.document
    ensures r.Err? ==> r.error == ServerNotResponding
  {
    if response.status != 200 then Err(ServerNotResponding) else Ok(response.document)
  }

  /** A town's data as the Python dict builds it. `keys` is the dict's
      insertion order, "Strany" included; `fields` holds the string-valued
      entries; `parties` is the "Strany" sub-dict, `None` when the dict has
      no "Strany" entry. */
  datatype TownRecord = TownRecord(
    keys: seq<string>,
    fields: map<string, string>,
    parties: Option<map<string, string>>)

  /** A record that a Python dict can be: every key appears once in the
      insertion order, and the keys are exactly the string-valued entries plus
      "Strany" when there is a party map. */
  ghost predicate WellFormed(rec: TownRecord)
  {
    && Distinct(rec.keys)
    && PartiesKey !in rec.fields
    && (set k | k in rec.keys) == rec.fields.Keys + (if rec.parties.Some? then {PartiesKey} else {})
  }

  const CodeKey := "Kód obce"
  const NameKey := "Jméno obce"
  const VotersKey := "Voliči v seznamu"
  const EnvelopesKey := "Vydané obálky"
  const ValidVotesKey := "Platné hlasy"
  const PartiesKey := "Strany"

  /** The five string columns of a town record, in insertion order. */
  const BaseColumns := [CodeKey, NameKey, VotersKey, EnvelopesKey, ValidVotesKey]

  /** The keys of a scraped town record are all different: their second
      characters already are. */
  lemma RecordKeysDistinct()
    ensures Distinct(BaseColumns + [PartiesKey])
    ensures (set k | k in BaseColumns + [PartiesKey]) == {CodeKey, NameKey, VotersKey, EnvelopesKey, ValidVotesKey, PartiesKey}
  {
    var keys := BaseColumns + [PartiesKey];
    var seconds := "ómoylt";
    assert forall i :: 0 <= i < |keys| ==> keys[i][1] == seconds[i];
    forall i, j | 0 <= i < j < |keys|
      ensures keys[i] != keys[j]
    {
      assert seconds[i] != seconds[j];
    }
  }

  /** The five string columns have different names. */
  lemma ColumnNamesDiffer()
    ensures CodeKey != NameKey && CodeKey != VotersKey && CodeKey != EnvelopesKey && CodeKey != ValidVotesKey
    ensures NameKey != VotersKey && NameKey != EnvelopesKey && NameKey != ValidVotesKey
    ensures VotersKey != EnvelopesKey && VotersKey != ValidVotesKey
    ensures EnvelopesKey != ValidVotesKey
  {
    RecordKeysDistinct();
    var keys := BaseColumns + [PartiesKey];
    assert keys[0] == CodeKey && keys[1] == NameKey && keys[2] == VotersKey && keys[3] == EnvelopesKey && keys[4] == ValidVotesKey;
  }

  /** A record with the scraper's key order, the five string columns and a
      party map is one a Python dict can be. */
  lemma ScrapedRecordWellFormed(fields: map<string, string>, parties: map<string, string>)
    requires fields.Keys == {CodeKey, NameKey, VotersKey, EnvelopesKey, ValidVotesKey}
    ensures WellFormed(TownRecord(BaseColumns + [PartiesKey], fields, Some(parties)))
  {
    RecordKeysDistinct();
  }

  /** What is cut off a town link to leave its code. */
  const TownLinkPrefix := "https://www.volby.cz/pls/ps2017nss/ps311?xjazyk=CZ&xkraj=12&xobec="

  /** What is cut off the third heading to leave the town's name. */
  const NameLabel := "Obec: "

  /** `link.replace(prefix, "")[:6]`. */
  function TownCode(link: string): (code: string)
    ensures |code| <= 6
  {
    var rest := RemoveAll(link, TownLinkPrefix);
    rest[..if |rest| < 6 then |rest| else 6]
  }

  /** A link of the form prefix + query gives the first six characters of the
      query (the town number, for the links the site publishes). */
  lemma TownCodeOfRegionLink(query: string)
    requires !Contains(query, TownLinkPrefix)
    ensures TownCode(TownLinkPrefix + query) == query[..if |query| < 6 then |query| else 6]
  {
    RemoveAllLeading(TownLinkPrefix, query);
    RemoveAllWithoutOccurrence(query, TownLinkPrefix);
  }

  /** A link without the prefix (a town of another region, `xkraj` other than
      12) keeps its first six characters as its code: for an absolute link
      that is "https:". */
  lemma TownCodeOfForeignLink(link: string)
    requires !Contains(link, TownLinkPrefix)
    ensures TownCode(link) == link[..if |link| < 6 then |link| else 6]
  {
    RemoveAllWithoutOccurrence(link, TownLinkPrefix);
  }

  /** `heading.replace("Obec: ", "").strip()`. */
  function TownName(heading: string): (name: string)
    ensures name == [] || (!IsSpace(name[0]) && !IsSpace(name[|name| - 1]))
  {
    Strip(RemoveAll(heading, NameLabel))
  }

  /** A heading "Obec: " + text gives the text with its white-space margins
      cut off, when the label does not occur again. */
  lemma TownNameOfLabelledHeading(text: string)
    requires !Contains(text, NameLabel)
    ensures TownName(NameLabel + text) == Strip(text)
  {
    RemoveAllLeading(NameLabel, text);
    RemoveAllWithoutOccurrence(text, NameLabel);
  }

  function Min(a: nat, b: nat): nat
  {
    if a < b then a else b
  }

  /** `dict(zip(names, votes))`: pairs by position up to the shorter list; a
      name that comes again overwrites the vote stored for it before. */
  function ZipToDict(names: seq<string>, votes: seq<string>): (d: map<string, string>)
    ensures forall k :: k in d <==> exists i :: 0 <= i < Min(|names|, |votes|) && names[i] == k
    decreases |names|
  {
    var n := Min(|names|, |votes|);
    if n == 0 then map[]
    else ZipToDict(names[..n - 1], votes[..n - 1])[names[n - 1] := votes[n - 1]]
  }

  /** The vote stored for a name is the one paired with its last occurrence. */
  lemma {:induction false} ZipLastOccurrenceWins(names: seq<string>, votes: seq<string>, i: nat)
    requires i < Min(|names|, |votes|)
    requires forall j :: i < j < Min(|names|, |votes|) ==> names[j] != names[i]
    ensures names[i] in ZipToDict(names, votes)
    ensures ZipToDict(names, votes)[names[i]] == votes[i]
    decreases |names|
  {
    var n := Min(|names|, |votes|);
    if i < n - 1 {
      ZipLastOccurrenceWins(names[..n - 1], votes[..n - 1], i);
    }
  }

  /** When the two lists are as long as each other and the names are all
      different, every name is paired with the vote at its own position. */
  lemma {:induction false} ZipOfMatchingLists(names: seq<string>, votes: seq<string>)
    requires |names| == |votes|
    requires Distinct(names)
    ensures forall i :: 0 <= i < |names| ==> names[i] in ZipToDict(names, votes) && ZipToDict(names, votes)[names[i]] == votes[i]
  {
    forall i | 0 <= i < |names|
      ensures names[i] in ZipToDict(names, votes) && ZipToDict(names, votes)[names[i]] == votes[i]
    {
      ZipLastOccurrenceWins(names, votes, i);
    }
  }

  /** The body of the loop in `extract_town_data` for one fetched page: the
      code from the link, the name from the third heading, the three number
      cells, and the party map. A page with fewer than three headings or
      without one of the number cells stops the run. */
  function BuildTownRecord(link: string, doc: Document): (r: Result<TownRecord>)
    ensures r.Ok? <==> |doc.headings| >= 3 && doc.voters.Some? && doc.envelopes.Some? && doc.validVotes.Some?
    ensures |doc.headings| < 3 ==> r == Err(MissingHeading)
    ensures |doc.headings| >= 3 && !(doc.voters.Some? && doc.envelopes.Some? && doc.validVotes.Some?) ==> r == Err(MissingCell)
    ensures r.Ok? ==>
      && r.value.keys == BaseColumns + [PartiesKey]
      && r.value.fields.Keys == {CodeKey, NameKey, VotersKey, EnvelopesKey, ValidVotesKey}
      && r.value.fields[CodeKey] == TownCode(link)
      && r.value.fields[NameKey] == TownName(doc.headings[2])
      && r.value.fields[VotersKey] == doc.voters.value
      && r.value.fields[EnvelopesKey] == doc.envelopes.value
      && r.value.fields[ValidVotesKey] == doc.validVotes.value
      && r.value.parties == Some(ZipToDict(doc.partyNames, doc.partyVotes))
  {
    if |doc.headings| < 3 then Err(MissingHeading)
    else if doc.voters.None? || doc.envelopes.None? || doc.validVotes.None? then Err(MissingCell)
    else
      var fields := map[
        CodeKey := TownCode(link),
        NameKey := TownName(doc.headings[2]),
        VotersKey := doc.voters.value,
        EnvelopesKey := doc.envelopes.value,
        ValidVotesKey := doc.validVotes.value];
      ColumnNamesDiffer();
      assert fields.Keys == {CodeKey, NameKey, VotersKey, EnvelopesKey, ValidVotesKey};
      Ok(TownRecord(BaseColumns + [PartiesKey], fields, Some(ZipToDict(doc.partyNames, doc.partyVotes))))
  }

  /** Every record the scraper builds is one a Python dict can be. */
  lemma BuildTownRecordWellFormed(link: string, doc: Document)
    requires BuildTownRecord(link, doc).Ok?
    ensures WellFormed(BuildTownRecord(link, doc).value)
  {
    var rec := BuildTownRecord(link, doc).value;
    ScrapedRecordWellFormed(rec.fields, rec.parties.value);
  }

  /** What one link contributes: its page is fetched, then read. */
  function TownOfLink(link: string, response: Response): Result<TownRecord>
  {
    match ResponseFromServer(response)
    case Err(e) => Err(e)
    case Ok(doc) => BuildTownRecord(link, doc)
  }

  /** The page of `links[i]` is the first that cannot be fetched or read. */
  ghost predicate FailsFirstAt(links: seq<string>, fetch: string -> Response, i: int)
  {
    && 0 <= i < |links|
    && TownOfLink(links[i], fetch(links[i])).Err?
    && forall j :: 0 <= j < i ==> TownOfLink(links[j], fetch(links[j])).Ok?
  }

  /** Every link's page can be fetched and read. */
  ghost predicate AllTownsRead(links: seq<string>, fetch: string -> Response)
  {
    forall i :: 0 <= i < |links| ==> TownOfLink(links[i], fetch(links[i])).Ok?
  }

  /** There is only one first failing page, and when there is one, not every
      page can be read. */
  lemma FirstFailureUnique(links: seq<string>, fetch: string -> Response, i: int, k: int)
    requires FailsFirstAt(links, fetch, i)
    ensures !AllTownsRead(links, fetch)
    ensures FailsFirstAt(links, fetch, k) ==> i == k
  {
  }

  /** Every record read from a town page has the scraper's key order and is
      one a Python dict can be. */
  lemma RecordsOfLinksWellFormed(links: seq<string>, fetch: string -> Response, records: seq<TownRecord>)
    requires |records| == |links|
    requires forall i :: 0 <= i < |links| ==> TownOfLink(links[i], fetch(links[i])) == Ok(records[i])
    ensures forall rec :: rec in records ==> rec.keys == BaseColumns + [PartiesKey] && WellFormed(rec)
  {
    forall rec | rec in records
      ensures rec.keys == BaseColumns + [PartiesKey] && WellFormed(rec)
    {
      var i :| 0 <= i < |records| && records[i] == rec;
      assert TownOfLink(links[i], fetch(links[i])) == Ok(rec);
      BuildTownRecordWellFormed(links[i], fetch(links[i]).document);
    }
  }

  /** `extract_town_data`: one record per link, in link order; the first link
      whose page cannot be fetched or read stops the whole run with its error. */
  method ExtractTownData(links: seq<string>, fetch: string -> Response) returns (r: Result<seq<TownRecord>>)
    ensures r.Ok? ==> |r.value| == |links|
    ensures r.Ok? ==> forall rec :: rec in r.value ==> rec.keys == BaseColumns + [PartiesKey] && WellFormed(rec)
    ensures r.Ok? ==> forall i :: 0 <= i < |links| ==> TownOfLink(links[i], fetch(links[i])) == Ok(r.value[i])
    ensures r.Err? ==> exists i :: FailsFirstAt(links, fetch, i) && TownOfLink(links[i], fetch(links[i])) == Err(r.error)
  {
    var allTownData: seq<TownRecord> := [];
    for i := 0 to |links|
      invariant |allTownData| == i
      invariant forall j :: 0 <= j < i ==> TownOfLink(links[j], fetch(links[j])) == Ok(allTownData[j])
    {
      var page := ResponseFromServer(fetch(links[i]));
      if page.Err? {
        assert FailsFirstAt(links, fetch, i);
        return Err(page.error);
      }
      var town := BuildTownRecord(links[i], page.value);
      if town.Err? {
        assert FailsFirstAt(links, fetch, i);
        return Err(town.error);
      }
      assert TownOfLink(links[i], fetch(links[i])) == Ok(town.value);
      allTownData := allTownData + [town.value];
    }
    RecordsOfLinksWellFormed(links, fetch, allTownData);
    r := Ok(allTownData);
  }
}
