/**
 The extraction loops of `debug_scraper.py`, from the point where the HTML
 has been reduced to cell texts: every row is the list of its cells'
 `get_text(strip=True)`. Fetching the page and parsing it are left to the
 caller; a page that could not be fetched or parsed is `None`.
 */
module DebugScraper {
  import opened Results
  import Text
  import Scraper

  /** The texts of one row's cells, in document order. */
  type Row = seq<string>

  /** A page element as the rows found in it. */
  type Element = seq<Row>

  /**
   The High Court page as `enhanced_scrape_high_court` searches it: the
   `div`/`section`/`article` containers with a case-like class, the tables
   with a cause-list class or id, and all tables, each in document order.
   */
  datatype HighCourtPage = HighCourtPage(caseContainers: seq<Element>, specificTables: seq<Element>, allTables: seq<Element>)

  /**
   An element `enhanced_scrape_district_court` looks at, with its whole
   stripped text: a `table`, read by its `tr` rows of `td`/`th` cells, or a
   `div`/`section`, read as one row of one cell holding that text.
   */
  datatype DistrictElement = Table(text: string, rows: seq<Row>) | Block(text: string)

  /** One extracted cause-list entry. */
  datatype ExtractedCase = ExtractedCase(
    courtType: string,
    caseNumber: string,
    partyName: string,
    dateOfListing: string,
    scrapedAt: string,
    rawData: seq<string>)

  /** `cells[i] if len(cells) > i else ''`. */
  function CellOr(cells: Row, i: nat): (t: string)
    ensures i < |cells| ==> t == cells[i]
    ensures i >= |cells| ==> t == ""
  {
    if i < |cells| then cells[i] else ""
  }

  /**
   The record built from a row: cells 0, 1 and 2 are the case number, the
   parties and the listing date, a missing cell giving the empty string, and
   the row itself is kept unchanged as the raw data.
   */
  function ToCase(courtType: string, cells: Row, now: string): (c: ExtractedCase)
    ensures c.courtType == courtType && c.scrapedAt == now && c.rawData == cells
    ensures [c.caseNumber, c.partyName, c.dateOfListing] == (cells + ["", "", ""])[..3]
  {
    ExtractedCase(courtType, CellOr(cells, 0), CellOr(cells, 1), CellOr(cells, 2), now, cells)
  }

  // ---------------------------------------------------------------------------
  // High Court
  // ---------------------------------------------------------------------------

  /** `text and ('/' in text or text.isdigit())`. */
  predicate LooksLikeCaseNumber(text: string) {
    text != "" && (Text.Contains(text, "/") || Text.IsDigitString(text))
  }

  /** A row is taken when it has at least two cells and one of them looks like a case number. */
  predicate HighCourtRow(cells: Row) {
    |cells| >= 2 && exists i :: 0 <= i < |cells| && LooksLikeCaseNumber(cells[i])
  }

  /** The High Court records of a run of rows: one per qualifying row, in row order. */
  function HighCourtCases(rows: seq<Row>, now: string): (r: seq<ExtractedCase>)
    ensures |r| <= |rows|
    ensures forall k :: 0 <= k < |r| ==>
      r[k] == ToCase(Scraper.HighCourt, r[k].rawData, now) && HighCourtRow(r[k].rawData)
  {
    if rows == [] then []
    else
      var head := if HighCourtRow(rows[0]) then [ToCase(Scraper.HighCourt, rows[0], now)] else [];
      head + HighCourtCases(rows[1..], now)
  }

  /** Records come out in traversal order: extraction distributes over concatenation. */
  lemma {:induction false} HighCourtCasesAppend(a: seq<Row>, b: seq<Row>, now: string)
    ensures HighCourtCases(a + b, now) == HighCourtCases(a, now) + HighCourtCases(b, now)
  {
    if a == [] {
      assert a + b == b;
    } else {
      assert (a + b)[0] == a[0];
      assert (a + b)[1..] == a[1..] + b;
      HighCourtCasesAppend(a[1..], b, now);
    }
  }

  /** Extending the rows by one row adds that row's record, if it qualifies, at the end. */
  lemma HighCourtCasesSnoc(rows: seq<Row>, cells: Row, now: string)
    ensures HighCourtCases(rows + [cells], now)
      == HighCourtCases(rows, now) + (if HighCourtRow(cells) then [ToCase(Scraper.HighCourt, cells, now)] else [])
  {
    HighCourtCasesAppend(rows, [cells], now);
    assert [cells][1..] == [];
  }

  /** Every qualifying row yields its record. */
  lemma {:induction false} HighCourtCasesComplete(rows: seq<Row>, i: int, now: string)
    requires 0 <= i < |rows| && HighCourtRow(rows[i])
    ensures ToCase(Scraper.HighCourt, rows[i], now) in HighCourtCases(rows, now)
  {
    if i > 0 {
      assert rows[1..][i - 1] == rows[i];
      HighCourtCasesComplete(rows[1..], i - 1, now);
    }
  }

  /** All rows of a run of elements, element after element. */
  function Rows(elements: seq<Element>): seq<Row> {
    if elements == [] then [] else elements[0] + Rows(elements[1..])
  }

  /** The elements in the order the three strategies try them. */
  function PageElements(page: HighCourtPage): seq<Element> {
    page.caseContainers + page.specificTables + page.allTables
  }

  /** Rows distribute over concatenation of element runs. */
  lemma {:induction false} RowsAppend(a: seq<Element>, b: seq<Element>)
    ensures Rows(a + b) == Rows(a) + Rows(b)
  {
    if a == [] {
      assert a + b == b;
    } else {
      assert (a + b)[0] == a[0];
      assert (a + b)[1..] == a[1..] + b;
      RowsAppend(a[1..], b);
    }
  }

  lemma RowsSingle(e: Element)
    ensures Rows([e]) == e
  {
    assert [e][1..] == [];
  }

  lemma RowsAround(elements: seq<Element>, i: int)
    requires 0 <= i < |elements|
    ensures Rows(elements) == Rows(elements[..i]) + elements[i] + Rows(elements[i + 1..])
  {
    assert elements == elements[..i] + elements[i..];
    RowsAppend(elements[..i], elements[i..]);
    assert elements[i..][0] == elements[i];
    assert elements[i..][1..] == elements[i + 1..];
  }

  /** The records of a run of elements, as a multiset, include those of any one element. */
  lemma ElementRecordsIncluded(elements: seq<Element>, i: int, now: string)
    requires 0 <= i < |elements|
    ensures multiset(HighCourtCases(elements[i], now)) <= multiset(HighCourtCases(Rows(elements), now))
  {
    RowsAround(elements, i);
    HighCourtCasesAppend(Rows(elements[..i]) + elements[i], Rows(elements[i + 1..]), now);
    HighCourtCasesAppend(Rows(elements[..i]), elements[i], now);
  }

  /** A qualifying row of any element of a run is recorded at least once in the run's records. */
  lemma RecordedInRun(elements: seq<Element>, i: int, r: int, now: string)
    requires 0 <= i < |elements| && 0 <= r < |elements[i]| && HighCourtRow(elements[i][r])
    ensures multiset(HighCourtCases(Rows(elements), now))[ToCase(Scraper.HighCourt, elements[i][r], now)] >= 1
  {
    HighCourtCasesComplete(elements[i], r, now);
    ElementRecordsIncluded(elements, i, now);
  }

  /**
   The strategies are not exclusive: a table that has a cause-list class or
   id is also among all tables, and each qualifying row of it is then
   recorded once per strategy that found it.
   */
  lemma SharedTableRecordedTwice(page: HighCourtPage, i: int, j: int, r: int, now: string)
    requires 0 <= i < |page.specificTables| && 0 <= j < |page.allTables|
    requires page.specificTables[i] == page.allTables[j]
    requires 0 <= r < |page.allTables[j]| && HighCourtRow(page.allTables[j][r])
    ensures multiset(HighCourtCases(Rows(PageElements(page)), now))[ToCase(Scraper.HighCourt, page.allTables[j][r], now)] >= 2
  {
    var front := page.caseContainers + page.specificTables;
    var k := |page.caseContainers| + i;
    assert front[k] == page.allTables[j];
    RecordedInRun(front, k, r, now);
    RecordedInRun(page.allTables, j, r, now);
    assert PageElements(page) == front + page.allTables;
    RowsAppend(front, page.allTables);
    HighCourtCasesAppend(Rows(front), Rows(page.allTables), now);
  }

  /** The test of one row: `len(cells) >= 2` and then `any(...)` over its cell texts. */
  method QualifiesAsCase(cells: Row) returns (taken: bool)
    ensures taken <==> HighCourtRow(cells)
  {
    taken := false;
    if |cells| >= 2 {
      var k := 0;
      while k < |cells|
        invariant 0 <= k <= |cells|
        invariant taken <==> exists j :: 0 <= j < k && LooksLikeCaseNumber(cells[j])
      {
        if LooksLikeCaseNumber(cells[k]) {
          taken := true;
        }
        k := k + 1;
      }
    }
  }

  /** The inner loop over one element's rows, appending to `causeList`. */
  method ScrapeRows(causeList: seq<ExtractedCase>, rows: seq<Row>, now: string) returns (out: seq<ExtractedCase>)
    ensures out == causeList + HighCourtCases(rows, now)
  {
    out := causeList;
    var r := 0;
    while r < |rows|
      invariant 0 <= r <= |rows|
      invariant out == causeList + HighCourtCases(rows[..r], now)
    {
      var cells := rows[r];
      var taken := QualifiesAsCase(cells);
      assert rows[..r + 1] == rows[..r] + [cells];
      HighCourtCasesSnoc(rows[..r], cells, now);
      if taken {
        out := out + [ToCase(Scraper.HighCourt, cells, now)];
      }
      r := r + 1;
    }
    assert rows[..r] == rows;
  }

  /**
   `enhanced_scrape_high_court`: walk the strategies' elements, their rows
   and their cells, and record every qualifying row.
   */
  method EnhancedScrapeHighCourt(page: Option<HighCourtPage>, now: string) returns (causeList: seq<ExtractedCase>)
    ensures page.None? ==> causeList == []
    ensures page.Some? ==> causeList == HighCourtCases(Rows(PageElements(page.value)), now)
  {
    causeList := [];
    if page.None? {
      return;
    }
    var elements := PageElements(page.value);
    var e := 0;
    while e < |elements|
      invariant 0 <= e <= |elements|
      invariant causeList == HighCourtCases(Rows(elements[..e]), now)
    {
      assert elements[..e + 1] == elements[..e] + [elements[e]];
      RowsAppend(elements[..e], [elements[e]]);
      RowsSingle(elements[e]);
      HighCourtCasesAppend(Rows(elements[..e]), elements[e], now);
      causeList := ScrapeRows(causeList, elements[e], now);
      e := e + 1;
    }
    assert elements[..e] == elements;
  }

  // ---------------------------------------------------------------------------
  // District Court
  // ---------------------------------------------------------------------------

  /** The element's lower-cased text mentions 'case no', 'vs', 'petitioner' or 'respondent'. */
  predicate MentionsCase(text: string) {
    var t := Text.Lower(text);
    Text.Contains(t, "case no") || Text.Contains(t, "vs") || Text.Contains(t, "petitioner") || Text.Contains(t, "respondent")
  }

  /** The rows an element is read as. */
  function ElementRows(e: DistrictElement): seq<Row> {
    match e
    case Table(_, rows) => rows
    case Block(text) => [[text]]
  }

  /** One District Court record per row with at least one cell, in row order. */
  function DistrictRowCases(rows: seq<Row>, now: string): (r: seq<ExtractedCase>)
    ensures |r| <= |rows|
    ensures rows == [] ==> r == []
    ensures forall k :: 0 <= k < |r| ==>
      r[k] == ToCase(Scraper.DistrictCourt, r[k].rawData, now) && r[k].rawData != []
  {
    if rows == [] then []
    else
      var head := if rows[0] != [] then [ToCase(Scraper.DistrictCourt, rows[0], now)] else [];
      head + DistrictRowCases(rows[1..], now)
  }

  /** The records of one element: none unless its text mentions a case. */
  function ElementCases(e: DistrictElement, now: string): (r: seq<ExtractedCase>)
    ensures !MentionsCase(e.text) ==> r == []
  {
    if MentionsCase(e.text) then DistrictRowCases(ElementRows(e), now) else []
  }

  /** The records of a run of elements, element after element. */
  function DistrictCases(elements: seq<DistrictElement>, now: string): (r: seq<ExtractedCase>)
    ensures elements == [] ==> r == []
    ensures forall k :: 0 <= k < |r| ==> r[k].courtType == Scraper.DistrictCourt && r[k].rawData != []
  {
    if elements == [] then []
    else ElementCases(elements[0], now) + DistrictCases(elements[1..], now)
  }

  /**
   `enhanced_scrape_district_court`: walk the elements and, for each one that
   mentions a case, its rows, recording every row with at least one cell.
   */
  method EnhancedScrapeDistrictCourt(page: Option<seq<DistrictElement>>, now: string) returns (causeList: seq<ExtractedCase>)
    ensures page.None? ==> causeList == []
    ensures page.Some? ==> causeList == DistrictCases(page.value, now)
  {
    causeList := [];
    if page.None? {
      return;
    }
    var elements := page.value;
    var e := 0;
    while e < |elements|
      invariant 0 <= e <= |elements|
      invariant causeList == DistrictCases(elements[..e], now)
    {
      assert elements[..e + 1] == elements[..e] + [elements[e]];
      DistrictCasesSnocElement(elements[..e], elements[e], now);
      causeList := DistrictScrapeElement(causeList, elements[e], now);
      e := e + 1;
    }
    assert elements[..e] == elements;
  }

  /** One step of the element loop: the keyword test, then the row loop if it passes. */
  method DistrictScrapeElement(causeList: seq<ExtractedCase>, e: DistrictElement, now: string) returns (out: seq<ExtractedCase>)
    ensures out == causeList + ElementCases(e, now)
  {
    if MentionsCase(e.text) {
      out := DistrictScrapeRows(causeList, ElementRows(e), now);
    } else {
      out := causeList;
    }
  }

  /** The inner loop over one matching element's rows, appending to `causeList`. */
  method DistrictScrapeRows(causeList: seq<ExtractedCase>, rows: seq<Row>, now: string) returns (out: seq<ExtractedCase>)
    ensures out == causeList + DistrictRowCases(rows, now)
  {
    out := causeList;
    var r := 0;
    while r < |rows|
      invariant 0 <= r <= |rows|
      invariant out == causeList + DistrictRowCases(rows[..r], now)
    {
      var cells := rows[r];
      assert rows[..r + 1] == rows[..r] + [cells];
      DistrictRowCasesSnoc(rows[..r], cells, now);
      if cells != [] {
        out := out + [ToCase(Scraper.DistrictCourt, cells, now)];
      }
      r := r + 1;
    }
    assert rows[..r] == rows;
  }

  /** Every record comes from one of the given rows: nothing is made up. */
  lemma {:induction false} DistrictRowCasesFromRows(rows: seq<Row>, now: string)
    ensures forall k :: 0 <= k < |DistrictRowCases(rows, now)| ==> DistrictRowCases(rows, now)[k].rawData in rows
  {
    if rows != [] {
      DistrictRowCasesFromRows(rows[1..], now);
      var head := if rows[0] != [] then [ToCase(Scraper.DistrictCourt, rows[0], now)] else [];
      assert DistrictRowCases(rows, now) == head + DistrictRowCases(rows[1..], now);
      forall k | 0 <= k < |DistrictRowCases(rows, now)|
        ensures DistrictRowCases(rows, now)[k].rawData in rows
      {
        if k >= |head| {
          assert DistrictRowCases(rows, now)[k] == DistrictRowCases(rows[1..], now)[k - |head|];
          assert DistrictRowCases(rows[1..], now)[k - |head|].rawData in rows[1..];
        }
      }
    }
  }

  /** Rows are handled in order: extraction distributes over concatenation of rows. */
  lemma {:induction false} DistrictRowCasesAppend(a: seq<Row>, b: seq<Row>, now: string)
    ensures DistrictRowCases(a + b, now) == DistrictRowCases(a, now) + DistrictRowCases(b, now)
  {
    if a == [] {
      assert a + b == b;
    } else {
      assert (a + b)[0] == a[0];
      assert (a + b)[1..] == a[1..] + b;
      DistrictRowCasesAppend(a[1..], b, now);
    }
  }

  /** One more row adds its record at the end exactly when it has at least one cell. */
  lemma DistrictRowCasesSnoc(rows: seq<Row>, cells: Row, now: string)
    ensures DistrictRowCases(rows + [cells], now)
      == DistrictRowCases(rows, now) + (if cells != [] then [ToCase(Scraper.DistrictCourt, cells, now)] else [])
  {
    DistrictRowCasesAppend(rows, [cells], now);
    assert [cells][1..] == [];
  }

  lemma DistrictCasesSnocElement(elements: seq<DistrictElement>, e: DistrictElement, now: string)
    ensures DistrictCases(elements + [e], now) == DistrictCases(elements, now) + ElementCases(e, now)
  {
    DistrictCasesAppend(elements, [e], now);
    assert [e][1..] == [];
  }

  /** One more element adds, at the end, the records of its rows exactly when its text mentions a case. */
  lemma DistrictCasesSnoc(elements: seq<DistrictElement>, e: DistrictElement, now: string)
    ensures DistrictCases(elements + [e], now)
      == DistrictCases(elements, now) + (if MentionsCase(e.text) then DistrictRowCases(ElementRows(e), now) else [])
  {
    DistrictCasesSnocElement(elements, e, now);
  }

  /** Records come out in traversal order: extraction distributes over concatenation of elements. */
  lemma {:induction false} DistrictCasesAppend(a: seq<DistrictElement>, b: seq<DistrictElement>, now: string)
    ensures DistrictCases(a + b, now) == DistrictCases(a, now) + DistrictCases(b, now)
  {
    if a == [] {
      assert a + b == b;
    } else {
      assert (a + b)[0] == a[0];
      assert (a + b)[1..] == a[1..] + b;
      DistrictCasesAppend(a[1..], b, now);
    }
  }

  /** The number of rows with at least one cell. */
  function NonEmptyRows(rows: seq<Row>): nat {
    if rows == [] then 0 else (if rows[0] != [] then 1 else 0) + NonEmptyRows(rows[1..])
  }

  /** Each row with at least one cell yields exactly one record. */
  lemma {:induction false} DistrictRowCasesCount(rows: seq<Row>, now: string)
    ensures |DistrictRowCases(rows, now)| == NonEmptyRows(rows)
  {
    if rows != [] {
      DistrictRowCasesCount(rows[1..], now);
    }
  }

  /** Every row with at least one cell yields its record. */
  lemma {:induction false} DistrictRowCasesComplete(rows: seq<Row>, i: int, now: string)
    requires 0 <= i < |rows| && rows[i] != []
    ensures ToCase(Scraper.DistrictCourt, rows[i], now) in DistrictRowCases(rows, now)
  {
    if i > 0 {
      assert rows[1..][i - 1] == rows[i];
      DistrictRowCasesComplete(rows[1..], i - 1, now);
    }
  }

  /** Every row with at least one cell, of every element that mentions a case, yields its record. */
  lemma {:induction false} DistrictCasesComplete(elements: seq<DistrictElement>, k: int, i: int, now: string)
    requires 0 <= k < |elements| && MentionsCase(elements[k].text)
    requires 0 <= i < |ElementRows(elements[k])| && ElementRows(elements[k])[i] != []
    ensures ToCase(Scraper.DistrictCourt, ElementRows(elements[k])[i], now) in DistrictCases(elements, now)
  {
    if k == 0 {
      DistrictRowCasesComplete(ElementRows(elements[0]), i, now);
    } else {
      assert elements[1..][k - 1] == elements[k];
      DistrictCasesComplete(elements[1..], k - 1, i, now);
    }
  }

  /**
   A `div` or `section` that mentions a case yields exactly one record: its
   whole text as case number and as raw data, the other fields empty.
   */
  lemma BlockYieldsOne(text: string, now: string)
    requires MentionsCase(text)
    ensures DistrictCases([Block(text)], now) == [ExtractedCase(Scraper.DistrictCourt, text, "", "", now, [text])]
  {
    assert [[text]][1..] == [];
    assert [Block(text)][1..] == [];
  }
}
