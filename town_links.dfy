/**
 Link discovery on the region listing page (`get_town_links`). The
 listing page is given as the href values of the anchors found in each of
 its tables, table by table; finding them in the HTML is not modelled.
 */
module TownLinks {
  import opened Text

  /** Marks the hrefs of the per-town result pages. */
  const Marker := "ps311"

  /** `h` is the href of an anchor in one of the listing page's tables. */
  ghost predicate Listed(tables: seq<seq<string>>, h: string)
  {
    exists t :: 0 <= t < |tables| && h in tables[t]
  }

  /** `[href for href in all_hrefs if "ps311" in href]`: the hrefs that carry the
      marker, in their order. */
  function KeepResultPages(hrefs: seq<string>): (r: seq<string>)
    ensures forall h :: h in r <==> h in hrefs && Contains(h, Marker)
    ensures |r| <= |hrefs|
  {
    if hrefs == [] then []
    else (if Contains(hrefs[0], Marker) then [hrefs[0]] else []) + KeepResultPages(hrefs[1..])
  }

  /** `list(set(hrefs))`: the same hrefs, each once, in an order that Python
      leaves unspecified (here: whatever the choice picks). */
  method Deduplicate(hrefs: seq<string>) returns (r: seq<string>)
    ensures Distinct(r)
    ensures forall h :: h in r <==> h in hrefs
  {
    var rest := set h | h in hrefs;
    r := [];
    while rest != {}
      invariant forall h :: h in hrefs <==> h in r || h in rest
      invariant forall h :: h in r ==> h !in rest
      invariant Distinct(r)
      decreases |rest|
    {
      var h :| h in rest;
      r := r + [h];
      rest := rest - {h};
    }
  }

  /** `links` are the town links of the listing: each is `baseUrl + h` for a
      listed href `h` with the marker, every such href yields one, and no
      link appears twice. Their order is left open. */
  ghost predicate LinksOfListing(tables: seq<seq<string>>, baseUrl: string, links: seq<string>)
  {
    && Distinct(links)
    && (forall l :: l in links ==>
      && |baseUrl| <= |l|
      && l[..|baseUrl|] == baseUrl
      && Listed(tables, l[|baseUrl|..])
      && Contains(l[|baseUrl|..], Marker))
    && (forall t, h :: 0 <= t < |tables| && h in tables[t] && Contains(h, Marker) ==> baseUrl + h in links)
  }

  /** A listing none of whose hrefs carries the marker has no town links. */
  lemma NoMarkedHrefsNoLinks(tables: seq<seq<string>>, baseUrl: string, links: seq<string>)
    requires LinksOfListing(tables, baseUrl, links)
    requires forall t, h :: 0 <= t < |tables| && h in tables[t] ==> !Contains(h, Marker)
    ensures links == []
  {
    if links != [] {
      var l := links[0];
      assert l in links;
      var t :| 0 <= t < |tables| && l[|baseUrl|..] in tables[t];
      assert false;
    }
  }

  /** `get_town_links`: collect the hrefs of every table, keep those with the
      marker, drop repeats, and put `baseUrl` in front of each. */
  method GetTownLinks(tables: seq<seq<string>>, baseUrl: string) returns (links: seq<string>)
    ensures LinksOfListing(tables, baseUrl, links)
    ensures forall l :: l in links ==> Contains(l, Marker)
  {
    var allHrefs: seq<string> := [];
    for t := 0 to |tables|
      invariant forall h :: h in allHrefs <==> exists u :: 0 <= u < t && h in tables[u]
    {
      allHrefs := allHrefs + tables[t];
    }
    var hrefs311 := KeepResultPages(allHrefs);
    var unique := Deduplicate(hrefs311);
    links := seq(|unique|, i requires 0 <= i < |unique| => baseUrl + unique[i]);

    assert forall i :: 0 <= i < |links| ==> links[i][|baseUrl|..] == unique[i];
    forall l | l in links
      ensures |baseUrl| <= |l| && l[..|baseUrl|] == baseUrl
      ensures Listed(tables, l[|baseUrl|..]) && Contains(l[|baseUrl|..], Marker)
      ensures Contains(l, Marker)
    {
      var i :| 0 <= i < |links| && links[i] == l;
      var h := unique[i];
      assert l == baseUrl + h && l[|baseUrl|..] == h;
      assert h in hrefs311;
      assert h in allHrefs && Contains(h, Marker);
      var u :| 0 <= u < |tables| && h in tables[u];
      ContainsAfterPrefix(baseUrl, h, Marker);
    }
    forall t, h | 0 <= t < |tables| && h in tables[t] && Contains(h, Marker)
      ensures baseUrl + h in links
    {
      assert h in allHrefs;
      var i :| 0 <= i < |unique| && unique[i] == h;
      assert links[i] == baseUrl + h;
    }
  }
}
