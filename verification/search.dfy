/**
 The two request handlers of `app.py` that hold logic: `/search`, which
 validates the form, looks the case up and logs the query, and
 `/download_pdf/<id>`, which finds a logged query by id and renders it.
 Flask's request, flash and redirect become the `SearchForm` input and the
 outcome datatypes; the case lookup is a parameter.
 */
module Search {
  import opened Results
  import Text
  import opened QueryLog
  import Scraper
  import PdfGenerator

  /** The three form fields; `None` when the field was not submitted. */
  datatype SearchForm = SearchForm(caseType: Option<string>, caseNumber: Option<string>, year: Option<string>)

  /** A validated search. */
  datatype CaseKey = CaseKey(caseType: string, caseNumber: string, year: string)

  const FieldsRequired: string := "All fields are required"
  const YearNotFourDigits: string := "Year must be a 4-digit number"
  const CaseNotFound: string := "Case not found or unavailable"
  const QueryNotFound: string := "Query not found"
  const SearchErrorPrefix: string := "Search error: "
  const PdfErrorPrefix: string := "PDF generation error: "

  /** Python truthiness of a form field: submitted and not empty. */
  predicate Filled(f: Option<string>) {
    f.Some? && f.value != ""
  }

  /** `year.isdigit() and len(year) == 4`. */
  predicate FourDigitYear(year: string) {
    Text.IsDigitString(year) && |year| == 4
  }

  /**
   The guard of `search_case`: every field must be filled, and then the year
   must be exactly four decimal digits; the first failing check names the
   message flashed.
   */
  function ValidateSearch(form: SearchForm): (r: Result<CaseKey, string>)
    ensures r.Ok? <==>
      Filled(form.caseType) && Filled(form.caseNumber) && Filled(form.year) && FourDigitYear(form.year.value)
    ensures r.Ok? ==> r.value == CaseKey(form.caseType.value, form.caseNumber.value, form.year.value)
    ensures !(Filled(form.caseType) && Filled(form.caseNumber) && Filled(form.year)) ==> r == Err(FieldsRequired)
    ensures Filled(form.caseType) && Filled(form.caseNumber) && Filled(form.year) && !FourDigitYear(form.year.value) ==>
      r == Err(YearNotFourDigits)
    ensures r.Err? ==> r.error == FieldsRequired || r.error == YearNotFourDigits
  {
    if !(Filled(form.caseType) && Filled(form.caseNumber) && Filled(form.year)) then Err(FieldsRequired)
    else if !Text.IsDigitString(form.year.value) || |form.year.value| != 4 then Err(YearNotFourDigits)
    else Ok(CaseKey(form.caseType.value, form.caseNumber.value, form.year.value))
  }

  /** Python truthiness of the lookup's answer: a dict with at least one entry. */
  predicate Found(caseData: Option<seq<(string, string)>>) {
    caseData.Some? && caseData.value != []
  }

  /** `str(e)` of the `sqlite3` errors. */
  function DbErrorText(e: DbError): string {
    match e
    case NoSuchTable => "no such table: queries"
    case DatabaseFull => "database or disk is full"
  }

  /** What `/search` answers: a flashed message and a redirect, or the results page. */
  datatype SearchOutcome = Flash(message: string) | ShowResults(caseData: seq<(string, string)>, queryId: nat)

  /**
   `search_case`. The log gains a row exactly when the form is valid, the
   lookup found data and the insert succeeds; otherwise it is left as it was.
   The row holds the searched fields and the case data.
   */
  function SearchCase(
    store: Store, form: SearchForm, lookup: CaseKey -> Option<seq<(string, string)>>, createdAt: string
  ): (r: (Store, SearchOutcome))
    ensures ValidateSearch(form).Err? ==> r == (store, Flash(ValidateSearch(form).error))
    ensures r.1.ShowResults? <==>
      ValidateSearch(form).Ok? && Found(lookup(ValidateSearch(form).value))
      && store.tableExists && store.lastId < MaxRowId
    ensures r.1.ShowResults? ==>
      var key := ValidateSearch(form).value;
      && r.1.caseData == lookup(key).value
      && r.0.rows == store.rows + [QueryRecord(r.1.queryId, key.caseType, key.caseNumber, key.year,
                                                Dict(r.1.caseData), createdAt)]
      && (Valid(store) ==> Valid(r.0) && forall i :: 0 <= i < |store.rows| ==> store.rows[i].id < r.1.queryId)
    ensures ValidateSearch(form).Ok? && !Found(lookup(ValidateSearch(form).value)) ==> r == (store, Flash(CaseNotFound))
    ensures ValidateSearch(form).Ok? && Found(lookup(ValidateSearch(form).value)) && !store.tableExists ==>
      r == (store, Flash(SearchErrorPrefix + DbErrorText(NoSuchTable)))
    ensures ValidateSearch(form).Ok? && Found(lookup(ValidateSearch(form).value)) && store.tableExists && store.lastId >= MaxRowId ==>
      r == (store, Flash(SearchErrorPrefix + DbErrorText(DatabaseFull)))
    ensures r.1.ShowResults? ==> r.0.tableExists && r.0.lastId == r.1.queryId && r.1.queryId == store.lastId + 1
    ensures r.1.Flash? ==> r.0 == store
  {
    match ValidateSearch(form)
    case Err(message) => (store, Flash(message))
    case Ok(key) =>
      var caseData := lookup(key);
      if !Found(caseData) then (store, Flash(CaseNotFound))
      else
        match SaveQuery(store, key.caseType, key.caseNumber, key.year, Dict(caseData.value), createdAt)
        case Err(e) => (store, Flash(SearchErrorPrefix + DbErrorText(e)))
        case Ok(saved) => (saved.store, ShowResults(caseData.value, saved.id))
  }

  /** The lookup `app.py` wires in: `scrape_case_by_number`, with today's date and the time as parameters. */
  function SampleLookup(today: string, now: string): CaseKey -> Option<seq<(string, string)>> {
    (key: CaseKey) => Some(Scraper.ScrapeCaseByNumber(key.caseType, key.caseNumber, key.year, today, now))
  }

  /**
   With the sample lookup, every valid search on an initialised log that is
   not full is saved under the next id and echoes the searched fields.
   */
  lemma ValidSearchIsSaved(store: Store, form: SearchForm, today: string, now: string, createdAt: string)
    requires store.tableExists && store.lastId < MaxRowId
    requires ValidateSearch(form).Ok?
    ensures var r := SearchCase(store, form, SampleLookup(today, now), createdAt);
      && r.1.ShowResults?
      && r.1.queryId == store.lastId + 1
      && r.1.caseData[0].1 == form.caseType.value
      && r.1.caseData[1].1 == form.caseNumber.value
      && r.1.caseData[2].1 == form.year.value
  {
    var key := ValidateSearch(form).value;
    var data := Scraper.ScrapeCaseByNumber(key.caseType, key.caseNumber, key.year, today, now);
    assert |Scraper.Keys(data)| == 9;
    assert SampleLookup(today, now)(key) == Some(data);
  }

  // ---------------------------------------------------------------------------
  // /download_pdf/<int:query_id>
  // ---------------------------------------------------------------------------

  /** `next((q for q in queries if q['id'] == query_id), None)`. */
  function FirstWithId(qs: seq<QueryRecord>, id: nat): (r: Option<QueryRecord>)
    ensures r.None? <==> forall i :: 0 <= i < |qs| ==> qs[i].id != id
    ensures r.Some? ==> r.value.id == id
    ensures r.Some? ==> exists k :: 0 <= k < |qs| && qs[k] == r.value && (forall j :: 0 <= j < k ==> qs[j].id != id)
  {
    if qs == [] then None
    else if qs[0].id == id then Some(qs[0])
    else
      var r := FirstWithId(qs[1..], id);
      assert forall i :: 1 <= i < |qs| ==> qs[1..][i - 1] == qs[i];
      r
  }

  /**
   Because ids are unique, the first match in any listing of the log is the
   one row of the log with that id, whatever order rows with equal
   timestamps come in.
   */
  lemma FirstWithIdIsUnique(s: Store, listing: seq<QueryRecord>, id: nat)
    requires multiset(listing) == multiset(s.rows)
    ensures FirstWithId(listing, id).Some? <==> exists i :: 0 <= i < |s.rows| && s.rows[i].id == id
    ensures Valid(s) ==>
      forall i :: 0 <= i < |s.rows| && s.rows[i].id == id ==> FirstWithId(listing, id) == Some(s.rows[i])
  {
    var r := FirstWithId(listing, id);
    forall i | 0 <= i < |s.rows| && s.rows[i].id == id
      ensures r.Some?
    {
      assert s.rows[i] in multiset(listing);
    }
    if r.Some? {
      assert r.value in multiset(s.rows);
    }
    if Valid(s) {
      forall i | 0 <= i < |s.rows| && s.rows[i].id == id
        ensures r == Some(s.rows[i])
      {
        assert r.value in multiset(s.rows);
        var j :| 0 <= j < |s.rows| && s.rows[j] == r.value;
        assert j == i;
      }
    }
  }

  /** What `/download_pdf` answers: the rendered file and its download name, or a flashed message. */
  datatype DownloadOutcome =
    | SendFile(pdf: PdfGenerator.CasePdf, downloadName: string)
    | DownloadFlash(message: string)

  /** `download_pdf`: render the logged query with the requested id, if there is one. */
  function DownloadPdf(store: Store, queryId: nat): (r: DownloadOutcome)
    ensures !store.tableExists ==> r == DownloadFlash(PdfErrorPrefix + DbErrorText(NoSuchTable))
    ensures store.tableExists ==>
      (r.SendFile? <==> exists i :: 0 <= i < |store.rows| && store.rows[i].id == queryId)
    ensures Valid(store) ==> forall i :: 0 <= i < |store.rows| && store.rows[i].id == queryId ==>
      r == SendFile(PdfGenerator.GenerateCasePdf(store.rows[i]), PdfGenerator.PdfFileName(queryId))
    ensures store.tableExists && (forall i :: 0 <= i < |store.rows| ==> store.rows[i].id != queryId) ==>
      r == DownloadFlash(QueryNotFound)
    ensures r.SendFile? ==> r.pdf.path == "static/" + r.downloadName
  {
    match GetAllQueries(store)
    case Err(e) => DownloadFlash(PdfErrorPrefix + DbErrorText(e))
    case Ok(queries) =>
      FirstWithIdIsUnique(store, queries, queryId);
      match FirstWithId(queries, queryId)
      case None => DownloadFlash(QueryNotFound)
      case Some(q) =>
        var pdf := PdfGenerator.GenerateCasePdf(q);
        SendFile(pdf, PdfGenerator.PdfFileName(queryId))
  }

  /**
   A search that was saved can be downloaded under the id it returned, and
   the document shows exactly the searched fields and the looked-up data.
   */
  lemma SearchThenDownload(
    store: Store, form: SearchForm, lookup: CaseKey -> Option<seq<(string, string)>>, createdAt: string)
    requires Valid(store)
    requires SearchCase(store, form, lookup, createdAt).1.ShowResults?
    ensures var (store', outcome) := SearchCase(store, form, lookup, createdAt);
      var key := ValidateSearch(form).value;
      DownloadPdf(store', outcome.queryId) == SendFile(
        PdfGenerator.GenerateCasePdf(
          QueryRecord(outcome.queryId, key.caseType, key.caseNumber, key.year, Dict(outcome.caseData), createdAt)),
        PdfGenerator.PdfFileName(outcome.queryId))
  {
    var (store', outcome) := SearchCase(store, form, lookup, createdAt);
    assert store'.rows[|store.rows|].id == outcome.queryId;
  }
}
