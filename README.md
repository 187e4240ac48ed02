# Czech election results scraper: verified model of its data pipeline

The scraper `main.py` takes a region listing page of the 2017 Chamber of
Deputies results on volby.cz and writes one CSV row per town. The row holds
the town code, town name, registered voters, issued envelopes, valid votes,
and the votes for every party. This project models the part of the program
that transforms data, without the network, HTML parsing and file writing:

- **Input checks** (`InputChecks`): the region URL must contain the site's
  base URL, and the output file name, lower-cased, must end in `.csv`.
- **Link discovery** (`TownLinks`): from the hrefs in the listing page's
  tables, it keeps those containing `ps311` and drops repeats through a set.
  It then puts the base URL in front of each.
- **Town records** (`TownData`): for each link, the fetched page yields a
  record with these parts:
  - the code: the link with the fixed prefix removed, cut to 6 characters;
  - the name: the third `h3` with `"Obec: "` removed, then stripped;
  - the three number cells;
  - the party map `dict(zip(names, votes))`.

  The first failing page stops the whole run.
- **Table** (`CsvExport`): it builds the header from the first record's keys
  without `"Strany"`, followed by the sorted union of all party names. It
  flattens every record into a row over those columns, with `"0"` for a
  party the town does not report. An empty record list stops the run
  before anything is written.
- **Whole run** (`Scraper.Run`): the steps in the order `main` runs them.
  Its ghost results are the town links and the records it read, so that
  the written table can be stated in terms of the fetched pages.

The modules are `Results` (the error kinds and `Result`/`Outcome`) and `Text`
(Python string operations: `in`, `replace(p, "")`, `strip()`, `lower()`,
`endswith`, and the `str` order that `sorted` uses). The other modules
follow the components above.

Modelling choices:
- The network is a parameter `fetch: string -> Response` carrying a status
  code. Any status other than 200 ends the run.
- A parsed page is a `Document` holding the strings the scraper reads from
  it.
- A Python dict record is a `TownRecord`: its key order, its string-valued
  entries, and its `"Strany"` sub-dict. `TownData.WellFormed` says when such
  a value is one a dict can be: each key once, and the keys exactly the
  entries.
- `list(set(...))` is a method that picks elements by choice, so no order
  is promised.
- `sorted` is a method that repeatedly takes the least remaining name.
  `Text.AscendingUnique` shows the result does not depend on set order.

The model follows the code as written, including where the code is
fragile:
- Vote counts stay strings.
- Party names and votes are paired by `zip`, which drops the excess of the
  longer list silently. No length check fails.
- A link without the hard-coded region-12 prefix gets a silently wrong
  code (`TownData.TownCodeOfForeignLink`).
- The links come in set order, not sorted.

## Model

| member | source | states |
|---|---|---|
| InputChecks.CheckInputUrl | main.py:24-34 | a rejected region URL stops the run with the URL error |
| InputChecks.UrlAcceptedIffInfix | main.py:31 | a region URL is accepted if and only if it is `p + base_url + q` for some `p`, `q` |
| InputChecks.SiteUrlAccepted | main.py:31 | every URL that starts with the base URL is accepted |
| InputChecks.CheckInputFileName | main.py:36-41 | a rejected output name stops the run with the file-name error |
| InputChecks.FileNameAcceptedIff | main.py:38 | a name is accepted if and only if it ends in `.`, `c`/`C`, `s`/`S`, `v`/`V` |
| Text.ContainsIffInfix | main.py:31 | `sub in s` holds exactly when `s == p + sub + q` for some `p`, `q` |
| Text.ContainsInfix | main.py:66 | `sub` is found in any `p + sub + q` |
| Text.ContainsSplits | main.py:66 | a string that contains `sub` splits as `p + sub + q` |
| Text.ContainsAfterPrefix | main.py:66-68 | an href that contains the marker still contains it after the base URL is put in front |
| Text.RemoveAll | main.py:84 | `s.replace(pat, "")` never makes a string longer |
| Text.RemoveAllWithoutOccurrence | main.py:84 | `replace` leaves a string without an occurrence unchanged |
| Text.RemoveAllLeading | main.py:84 | a leading occurrence is removed and the rest is processed on its own |
| Text.StripStart | main.py:88 | the result is a suffix, everything cut is white space, and it does not start with white space |
| Text.StripEnd | main.py:88 | the result is a prefix, everything cut is white space, and it does not end with white space |
| Text.Strip | main.py:88 | the result is a contiguous piece of the input with only white space around it, and it neither starts nor ends with white space |
| Text.Lower | main.py:38 | the result is as long as the input, contains no upper-case ASCII letter, and agrees with the input position by position up to letter case |
| Text.LowerIdempotent | main.py:38 | lower-casing an already lower-cased name changes nothing |
| Text.LowerEqualIff | main.py:38 | two names lower-case alike exactly when they differ only in the case of ASCII letters, so the extension test ignores case |
| Text.BelowIrreflexive | main.py:131 | no string sorts before itself |
| Text.BelowTransitive | main.py:131 | the `str` order is transitive |
| Text.BelowTotal | main.py:131 | of two different strings one sorts before the other |
| Text.BelowAsymmetric | main.py:131 | two strings never each sort before the other |
| Text.AscendingIsDistinct | main.py:131 | a strictly ascending list has no repeats |
| Text.MinimumExists | main.py:131 | every non-empty set of names has a least element |
| Text.AscendingUnique | main.py:131 | two ascending lists with the same elements are equal, so the sorted header is deterministic |
| TownLinks.KeepResultPages | main.py:66 | the kept hrefs are exactly the input hrefs that contain `ps311` |
| TownLinks.Deduplicate | main.py:67 | the result has no repeats and holds exactly the input's hrefs |
| TownLinks.GetTownLinks | main.py:58-69 | every link is `base_url + h` for a listed `h` containing `ps311`, every such `h` gives a link, no link repeats, and every link contains the marker |
| TownLinks.NoMarkedHrefsNoLinks | main.py:60-68 | a listing none of whose hrefs contains `ps311` gives no town links |
| TownData.ResponseFromServer | main.py:50-56 | a page is read if and only if the status is 200; otherwise the run stops with the server error |
| TownData.TownCode | main.py:84-85 | the town code has at most 6 characters |
| TownData.TownCodeOfRegionLink | main.py:84-85 | for prefix + query, when the query does not contain the prefix again, the code is the first 6 characters of the query |
| TownData.TownCodeOfForeignLink | main.py:84-85 | a link without the region-12 prefix keeps its own first 6 characters as the code |
| TownData.TownName | main.py:87-88 | the town name neither starts nor ends with white space |
| TownData.TownNameOfLabelledHeading | main.py:88 | the heading `"Obec: " + text` gives `text.strip()` when the label does not occur again in `text` |
| TownData.ZipToDict | main.py:106 | the party map's keys are exactly the names among the first `min(len(names), len(votes))` positions |
| TownData.ZipLastOccurrenceWins | main.py:106 | each name maps to the vote at its last occurrence among the paired positions |
| TownData.ZipOfMatchingLists | main.py:96-106 | with lists of equal length and distinct names, each name maps to the vote at its own position |
| TownData.BuildTownRecord | main.py:84-117 | a page gives a record if and only if it has at least 3 headings and the sa2, sa3 and sa6 cells; too few headings give the heading error (`name[2]`), a missing cell the cell error (`.text` on no match); the record has the fixed keys in order, with its code, name, cells and party map |
| TownData.BuildTownRecordWellFormed | main.py:110-117 | every record built is one a Python dict can be: keys distinct, and exactly the five string entries plus `"Strany"` |
| TownData.RecordKeysDistinct | main.py:110-117 | the six keys of a town record are all different |
| TownData.ExtractTownData | main.py:79-120 | on success, one record per link in link order, each with the scraper's keys and dict-shaped; otherwise the error is that of the first failing link, and all earlier links succeeded |
| TownData.FirstFailureUnique | main.py:81-82 | there is only one first failing link, and once one fails not every page can be read |
| TownData.RecordsOfLinksWellFormed | main.py:79-120 | every record read from the town pages has the scraper's key order and is dict-shaped |
| CsvExport.BaseFieldNames | main.py:124 | the base fields are exactly the record's keys other than `"Strany"` |
| CsvExport.BaseFieldNamesOfRecordKeys | main.py:110-117 | the scraper's key order gives the five base columns in their fixed order |
| CsvExport.BaseFieldNamesOfTownRecord | main.py:110-124 | every record the scraper builds yields the five base columns as its base fields |
| CsvExport.BaseFieldNamesDistinct | main.py:124 | a record whose keys do not repeat (as a dict's never do) gives base fields that do not repeat |
| CsvExport.SortNames | main.py:131 | the sorted names are strictly ascending and exactly the input set |
| CsvExport.PrepareHeader | main.py:122-134 | header = base fields of the first record + party names; the party names are strictly ascending and exactly the union of all records' party names |
| CsvExport.FlattenedIsUnique | main.py:139-147 | a record and the columns determine its row |
| CsvExport.FlattenRecord | main.py:140-147 | the row's keys are exactly base ∪ parties; a base field holds the record's value or `""`, unless a party has the same name, in which case the party value wins; a party column holds the vote string or `"0"` |
| CsvExport.PrepareDataToWrite | main.py:136-148 | one row per record, in record order, each the flat form of its record |
| CsvExport.WriteToCsv | main.py:150-162 | no records gives the no-data error and no file; otherwise the named file gets the reconciled header, whose base fields do not repeat because the records are dict-shaped, and one flat row per record |
| Scraper.Run | main.py:165-169 | the checks fail in the source's order; once the listing is read, the town links are those of the listing, the first town page that cannot be read gives its error, a listing without `ps311` hrefs (or without links) gives the no-data error, and when every page can be read the run completes; a completed run writes the named file whose header and rows are the reconciled table of the records of the town pages, in link order, with the five base columns first |

## Left out

- HTTP requests (`requests.get`): the response for each URL is the parameter `fetch`.
- The status message and every other `print`: these are console output.
- `sys.exit`: modelled as an `Err`/`Fail` result.
- `check_arguments` (the `sys.argv` count): `Run` takes the two arguments directly.
- The BeautifulSoup search by tag, class and `headers` attribute, and `.text`. A page is the `Document` of strings that the searches return. The loops that copy `.text` into `list_of_party_names` and `votes_for_parties` are therefore not modelled.
- `find` returning the first matching cell is taken as given, in `Document.voters`/`envelopes`/`validVotes`.
- CSV serialisation: the `;` delimiter, the `utf-8-sig` encoding and the quoting of `csv.DictWriter`. `WriteToCsv` returns the header and rows that would be written.
- Text.Lower: maps only the ASCII letters. Python's `str.lower()` uses full Unicode case mapping. This cannot change whether a name ends in `.csv` unless a non-ASCII character lower-cases to one of `.`, `c`, `s`, `v`.
- TownData.TownRecord cannot hold a `"Strany"` entry whose value is not a dict. So the `isinstance` test in `prepare_header` is modelled only as "the record has a party map". The scraper itself always stores a dict there.
- The fixed argument `main("https://www.volby.cz/pls/ps2017nss/")` of the script's entry point: `Run` takes the base URL as a parameter.
- The order of `list(set(hrefs))` is left open: `Deduplicate` promises only distinctness and the same elements.
