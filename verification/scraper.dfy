/**
 The sample-data scraper of `scraper.py`. The court websites are never
 parsed: each court function only checks that its site answers and then
 returns its share of a fixed four-entry sample list. Whether a site answers
 is a parameter, and so are the clock readings (`tomorrow` formatted as
 `%d-%m-%Y`, `now` as an ISO timestamp).
 */
module Scraper {
  import Text
  import opened Results

  const HighCourt: string := "High Court"
  const DistrictCourt: string := "District Court"
  const SampleNote: string := "Sample data - actual scraping requires form submission and captcha"

  /** One cause-list entry as `create_sample_data` builds it. */
  datatype CauseEntry = CauseEntry(
    courtType: string,
    caseNumber: string,
    partyName: string,
    dateOfListing: string,
    scrapedAt: string,
    note: string)

  /** `create_sample_data`: the fixed sample cause list. */
  function SampleData(tomorrow: string, now: string): (r: seq<CauseEntry>)
    ensures |r| == 4
    ensures forall i :: 0 <= i < 2 ==> r[i].courtType == HighCourt
    ensures forall i :: 2 <= i < 4 ==> r[i].courtType == DistrictCourt
    ensures forall i :: 0 <= i < |r| ==> r[i].dateOfListing == tomorrow && r[i].scrapedAt == now
    ensures forall i, j :: 0 <= i < j < |r| ==> r[i].caseNumber != r[j].caseNumber
  {
    [ CauseEntry(HighCourt, "WP/12345/2024", "ABC Company vs State of Maharashtra", tomorrow, now, SampleNote),
      CauseEntry(HighCourt, "CRL/67890/2024", "State vs John Doe", tomorrow, now, SampleNote),
      CauseEntry(DistrictCourt, "CC/111/2024", "XYZ Ltd vs PQR Industries", tomorrow, now, SampleNote),
      CauseEntry(DistrictCourt, "SC/222/2024", "Ram Kumar vs Shyam Singh", tomorrow, now, SampleNote) ]
  }

  /** `[case for case in entries if case['court_type'] == court]`. */
  function OfCourt(entries: seq<CauseEntry>, court: string): (r: seq<CauseEntry>)
    ensures |r| <= |entries|
    ensures forall i :: 0 <= i < |r| ==> r[i].courtType == court && r[i] in entries
    ensures forall i :: 0 <= i < |entries| && entries[i].courtType == court ==> entries[i] in r
  {
    if entries == [] then []
    else
      var head := if entries[0].courtType == court then [entries[0]] else [];
      head + OfCourt(entries[1..], court)
  }

  /** Filtering keeps the original order: it distributes over concatenation. */
  lemma {:induction false} OfCourtAppend(a: seq<CauseEntry>, b: seq<CauseEntry>, court: string)
    ensures OfCourt(a + b, court) == OfCourt(a, court) + OfCourt(b, court)
  {
    if a == [] {
      assert a + b == b;
    } else {
      assert (a + b)[0] == a[0];
      assert (a + b)[1..] == a[1..] + b;
      OfCourtAppend(a[1..], b, court);
    }
  }

  /** Filtering a list that starts with `e`: `e` is kept exactly when it is of the court. */
  lemma OfCourtCons(e: CauseEntry, rest: seq<CauseEntry>, court: string)
    ensures OfCourt([e] + rest, court) == (if e.courtType == court then [e] else []) + OfCourt(rest, court)
  {
    assert ([e] + rest)[1..] == rest;
  }

  /** `scrape_high_court`: the High Court sample entries, or nothing when the site cannot be reached. */
  function ScrapeHighCourt(reachable: bool, tomorrow: string, now: string): (r: seq<CauseEntry>)
    ensures !reachable ==> r == []
    ensures forall i :: 0 <= i < |r| ==> r[i].courtType == HighCourt
  {
    if reachable then OfCourt(SampleData(tomorrow, now), HighCourt) else []
  }

  /** `scrape_district_court`: the District Court sample entries, or nothing when the site cannot be reached. */
  function ScrapeDistrictCourt(reachable: bool, tomorrow: string, now: string): (r: seq<CauseEntry>)
    ensures !reachable ==> r == []
    ensures forall i :: 0 <= i < |r| ==> r[i].courtType == DistrictCourt
  {
    if reachable then OfCourt(SampleData(tomorrow, now), DistrictCourt) else []
  }

  /** The sample list, entry by entry, for the court filters. */
  lemma OfCourtSample(tomorrow: string, now: string, court: string)
    ensures var d := SampleData(tomorrow, now);
      OfCourt(d, court) == (if d[0].courtType == court then [d[0]] else [])
        + ((if d[1].courtType == court then [d[1]] else [])
        + ((if d[2].courtType == court then [d[2]] else [])
        + ((if d[3].courtType == court then [d[3]] else []) + [])))
  {
    var d := SampleData(tomorrow, now);
    assert d == [d[0]] + ([d[1]] + ([d[2]] + ([d[3]] + [])));
    OfCourtCons(d[3], [], court);
    OfCourtCons(d[2], [d[3]] + [], court);
    OfCourtCons(d[1], [d[2]] + ([d[3]] + []), court);
    OfCourtCons(d[0], [d[1]] + ([d[2]] + ([d[3]] + [])), court);
  }

  /** A reachable site yields exactly its half of the sample list, in sample order. */
  lemma CourtShares(tomorrow: string, now: string)
    ensures ScrapeHighCourt(true, tomorrow, now) == SampleData(tomorrow, now)[..2]
    ensures ScrapeDistrictCourt(true, tomorrow, now) == SampleData(tomorrow, now)[2..]
  {
    HighCourtShare(tomorrow, now);
    DistrictCourtShare(tomorrow, now);
  }

  lemma HighCourtShare(tomorrow: string, now: string)
    ensures OfCourt(SampleData(tomorrow, now), HighCourt) == SampleData(tomorrow, now)[..2]
  {
    var d := SampleData(tomorrow, now);
    OfCourtSample(tomorrow, now, HighCourt);
    assert d[..2] == [d[0], d[1]];
  }

  lemma DistrictCourtShare(tomorrow: string, now: string)
    ensures OfCourt(SampleData(tomorrow, now), DistrictCourt) == SampleData(tomorrow, now)[2..]
  {
    var d := SampleData(tomorrow, now);
    OfCourtSample(tomorrow, now, DistrictCourt);
    assert d[2..] == [d[2], d[3]];
  }

  /**
   `scrape`: the list written to `cause_list.json`, High Court entries before
   District Court ones, or `None` when nothing was generated and no file is
   written.
   */
  function Scrape(highCourtReachable: bool, districtReachable: bool, tomorrow: string, now: string)
    : (r: Option<seq<CauseEntry>>)
    ensures r.Some? <==> highCourtReachable || districtReachable
    ensures r.Some? ==> forall i, j :: 0 <= i < j < |r.value| ==>
      !(r.value[i].courtType == DistrictCourt && r.value[j].courtType == HighCourt)
  {
    CourtShares(tomorrow, now);
    var all := ScrapeHighCourt(highCourtReachable, tomorrow, now)
      + ScrapeDistrictCourt(districtReachable, tomorrow, now);
    if all != [] then Some(all) else None
  }

  /** With both sites up, `scrape` writes the whole sample list; with one down, the other court's half. */
  lemma ScrapeWrites(tomorrow: string, now: string)
    ensures Scrape(true, true, tomorrow, now) == Some(SampleData(tomorrow, now))
    ensures Scrape(true, false, tomorrow, now) == Some(SampleData(tomorrow, now)[..2])
    ensures Scrape(false, true, tomorrow, now) == Some(SampleData(tomorrow, now)[2..])
    ensures Scrape(false, false, tomorrow, now) == None
  {
    CourtShares(tomorrow, now);
    var d := SampleData(tomorrow, now);
    assert d[..2] + d[2..] == d;
    assert d[..2] + [] == d[..2];
    assert [] + d[2..] == d[2..];
  }

  /** The object `json.dump` writes for an entry. */
  function AsObject(e: CauseEntry): (m: map<string, string>)
    ensures m.Keys == {"court_type", "case_number", "party_name", "date_of_listing", "scraped_at", "note"}
    ensures m["case_number"] == e.caseNumber && m["date_of_listing"] == e.dateOfListing
  {
    map["court_type" := e.courtType, "case_number" := e.caseNumber, "party_name" := e.partyName,
        "date_of_listing" := e.dateOfListing, "scraped_at" := e.scrapedAt, "note" := e.note]
  }

  function AsObjects(es: seq<CauseEntry>): (r: seq<map<string, string>>)
    ensures |r| == |es|
    ensures forall i :: 0 <= i < |es| ==> r[i] == AsObject(es[i])
  {
    if es == [] then [] else [AsObject(es[0])] + AsObjects(es[1..])
  }

  // ---------------------------------------------------------------------------
  // scrape_case_by_number
  // ---------------------------------------------------------------------------

  const CaseNote: string := "Sample data - actual scraping requires Selenium WebDriver"
  const ListedForHearing: string := "Listed for hearing"
  const HighCourtOfMumbai: string := "High Court of Mumbai"
  const DistrictCourtMumbai: string := "District Court Mumbai"

  /** The keys of the dict `scrape_case_by_number` returns, in insertion order. */
  const CaseKeys: seq<string> :=
    ["case_type", "case_number", "year", "party_name", "date_of_listing", "court_name", "status", "scraped_at", "note"]

  function Keys(items: seq<(string, string)>): (ks: seq<string>)
    ensures |ks| == |items|
    ensures forall i :: 0 <= i < |items| ==> ks[i] == items[i].0
  {
    if items == [] then [] else [items[0].0] + Keys(items[1..])
  }

  /**
   `scrape_case_by_number`: a sample record for the searched case, dated
   `today`. It echoes the search fields, names the case number among the
   parties, and names the Mumbai High Court exactly when the case type is
   'High Court'.
   */
  function ScrapeCaseByNumber(caseType: string, caseNumber: string, year: string, today: string, now: string)
    : (r: seq<(string, string)>)
    ensures Keys(r) == CaseKeys
    ensures r[0].1 == caseType && r[1].1 == caseNumber && r[2].1 == year
    ensures Text.Contains(r[3].1, caseNumber)
    ensures r[4].1 == today
    ensures r[5].1 == HighCourtOfMumbai <==> caseType == HighCourt
    ensures r[5].1 == HighCourtOfMumbai || r[5].1 == DistrictCourtMumbai
  {
    var party := "Sample Party vs Another Party (" + caseNumber + ")";
    Text.ContainsMiddle("Sample Party vs Another Party (", caseNumber, ")");
    var court := if caseType == HighCourt then HighCourtOfMumbai else DistrictCourtMumbai;
    var r := [("case_type", caseType), ("case_number", caseNumber), ("year", year), ("party_name", party),
              ("date_of_listing", today), ("court_name", court), ("status", ListedForHearing),
              ("scraped_at", now), ("note", CaseNote)];
    assert Keys(r) == CaseKeys;
    r
  }
}
