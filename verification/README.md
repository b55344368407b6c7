# Court cause-list scraper, modelled in Dafny

This project models the logic of a small Flask application. The application
looks up Indian court cases, logs every successful search in SQLite, renders a logged
search as a PDF, and checks whether a case is listed for tomorrow. The
network, the HTML parser, SQLite, FPDF, Flask and the clock are all
replaced by parameters or abstract values. The rules between those calls
are written as pure Dafny functions, with contracts and lemmas.

Modules, one per source file, plus two support modules:

- `Results`: `Option` and `Result`.
- `Text`: the ASCII behaviour of the Python `str` operations the code
  uses. These are `strip`, `lower`, `title`, `isdigit`, `replace`, `in`
  and `str(int)`.
- `QueryLog` (`database.py`): the `queries` table as an append-only state
  machine. It includes the AUTOINCREMENT counter and the
  `ORDER BY created_at DESC` listing.
- `Search` (`app.py`): the `/search` guard and save rule, and the
  `/download_pdf` id lookup.
- `CaseChecker` (`case_checker.py`): the listed/not-listed verdict.
- `Scraper` (`scraper.py`): the fixed sample list, the court filters,
  `scrape`, and `scrape_case_by_number`.
- `DebugScraper` (`debug_scraper.py`): the two extraction loops. They
  start from rows already reduced to cell texts.
- `PdfGenerator` (`pdf_generator.py`): the document's text lines and its
  output path.

## Model

| member | source | states |
|---|---|---|
| QueryLog.InitDb | database.py:13-27 | Afterwards the table exists. An existing table is left exactly as it was. A fresh file gets an empty table with the counter at 0. |
| QueryLog.InitDbIdempotent | database.py:16-18 | Re-running `init_db` after any history of calls changes nothing. |
| QueryLog.SaveQuery | database.py:29-39 | Fails with "no such table" when the table is missing. Fails with SQLITE_FULL when the counter is at 2^63-1. Otherwise it adds exactly one row at the end, carrying the given fields and the returned id. That id is the new counter value, above every earlier id. The AUTOINCREMENT invariant is kept. |
| QueryLog.GetAllQueries | database.py:41-60 | Fails exactly when the table is missing. Otherwise it returns every stored row exactly once, as a multiset, with `created_at` non-increasing. |
| QueryLog.SortNewestFirst | database.py:44-47 | The result is a permutation of the rows, ordered newest `created_at` first. |
| QueryLog.InsertByTime | database.py:46 | Inserting into a newest-first listing keeps it newest-first. It adds exactly the one row. |
| QueryLog.TextLeTotal | database.py:46 | Text comparison under BINARY collation is total. |
| QueryLog.TextLeTransitive | database.py:46 | Text comparison under BINARY collation is transitive. |
| QueryLog.NewestFirstPairwise | database.py:46 | If adjacent rows are newest-first, then any two rows are in that order. |
| QueryLog.Step | database.py:13-39 | A single `init_db` or `save_query` keeps the AUTOINCREMENT invariant. Existing rows stay as a prefix, and the counter never decreases. |
| QueryLog.ReplayAppendOnly | database.py:18-35 | Over any history of calls, earlier rows are never changed, removed or reordered. Ids stay unique and increasing. |
| QueryLog.SequentialSavesIncrease | database.py:18-39 | Two successive successful saves return strictly increasing ids. |
| QueryLog.FirstSaveIsOne | database.py:18-39 | On a freshly initialised database, the first save returns id 1 and stores exactly that row. |
| Search.ValidateSearch | app.py:40-46 | Accepts exactly when all three fields are non-empty and the year is four ASCII digits. An empty field is reported as "All fields are required" before the year is checked. A filled form with a bad year gets "Year must be a 4-digit number". |
| Search.SearchCase | app.py:35-62 | A row is appended exactly when the form is valid, the lookup returned non-empty data, and the insert succeeds. That row holds the searched fields and the data, and the counter moves to the returned id, which is one above the old counter. An invalid form flashes its validation message. Empty data flashes "Case not found or unavailable". A failed insert flashes "Search error: " followed by the SQLite message for a missing table or a full counter. On every flash the log is unchanged. |
| Search.ValidSearchIsSaved | app.py:49-58 | With the sample lookup, every valid search is saved under the next id and echoes the searched fields. |
| Search.FirstWithId | app.py:69 | Returns None exactly when no row has the id. Otherwise it returns the first row, in listing order, with that id. |
| Search.FirstWithIdIsUnique | app.py:68-69 | In any listing of the log, a match exists exactly when the log holds that id. With unique ids, the match is the one row with that id. |
| Search.DownloadPdf | app.py:64-80 | A missing table gives the error flash. Otherwise a document is sent exactly when some row has the id. Under the AUTOINCREMENT invariant, which makes ids unique, it renders that row under `case_<id>.pdf`. With no such row, the answer is "Query not found". |
| Search.SearchThenDownload | app.py:49-76 | A saved search can be downloaded under its returned id. The document shows exactly the searched fields and the data. |
| CaseChecker.AnyFrom | case_checker.py:21-25 | The loop reports a hit exactly when some element from index k on passes the test. |
| CaseChecker.CheckCase | case_checker.py:7-27 | No verdict without the file. Otherwise "listed" holds exactly when some case's stripped, lower-cased number equals the lower-cased stripped input and its listing date contains tomorrow's date. An empty list gives "not listed". |
| CaseChecker.InputCaseInsensitive | case_checker.py:15-22 | Inputs that are equal once lower-cased get the same verdict. |
| CaseChecker.InputPaddingIgnored | case_checker.py:15 | Whitespace around the typed input does not change the verdict. |
| CaseChecker.DateContainsTomorrow | case_checker.py:23 | A listing date with extra text around tomorrow's date still counts. |
| CaseChecker.MissingCaseNumber | case_checker.py:22 | A case without `case_number` can match only an input that is blank after stripping. |
| CaseChecker.SampleCasesListed | case_checker.py:21-25 | Every case in the sample list is reported as listed when it is checked on the day the list was made. |
| Scraper.SampleData | scraper.py:21-61 | Four entries: two High Court then two District Court. All are dated tomorrow, and their case numbers are distinct. |
| Scraper.OfCourt | scraper.py:75-93 | Keeps only entries of the given court, and keeps every such entry. |
| Scraper.OfCourtAppend | scraper.py:75-93 | The filter distributes over concatenation, so the original order is kept. |
| Scraper.ScrapeHighCourt | scraper.py:63-79 | Returns only High Court entries. An unreachable site gives the empty list. |
| Scraper.ScrapeDistrictCourt | scraper.py:81-97 | Returns only District Court entries. An unreachable site gives the empty list. |
| Scraper.HighCourtShare | scraper.py:74-75 | The High Court filter gives the first two sample entries, in order. |
| Scraper.DistrictCourtShare | scraper.py:92-93 | The District Court filter gives the last two sample entries, in order. |
| Scraper.CourtShares | scraper.py:63-97 | A reachable site yields exactly its half of the sample list. |
| Scraper.Scrape | scraper.py:108-145 | A list is written exactly when at least one site answers. No District Court entry comes before a High Court entry. |
| Scraper.ScrapeWrites | scraper.py:118-138 | The written list for each of the four reachability combinations: the whole list, either half, or nothing. |
| Scraper.AsObject | scraper.py:27-34 | The JSON object has the six keys and carries the entry's number and date. |
| Scraper.AsObjects | scraper.py:103 | One object per entry, in order. |
| Scraper.ScrapeCaseByNumber | scraper.py:147-165 | Has the nine keys in insertion order and echoes type, number and year. The party name contains the case number, and the listing date is today. The court is "High Court of Mumbai" exactly when the type is "High Court", and otherwise "District Court Mumbai". |
| DebugScraper.ToCase | debug_scraper.py:83-90 | Cells 0, 1 and 2 become case number, parties and date, with missing cells read as "". The raw data is the row, unchanged. |
| DebugScraper.HighCourtCases | debug_scraper.py:77-91 | Every record comes from a qualifying row (at least two cells, one that looks like a case number) and is built by `ToCase`. |
| DebugScraper.HighCourtCasesAppend | debug_scraper.py:71-91 | Records come out in traversal order. |
| DebugScraper.HighCourtCasesSnoc | debug_scraper.py:77-91 | One more row adds its record at the end exactly when that row qualifies. |
| DebugScraper.HighCourtCasesComplete | debug_scraper.py:79-91 | Every qualifying row yields its record. |
| DebugScraper.ElementRecordsIncluded | debug_scraper.py:75-91 | The records of a run of elements include, counted with multiplicity, the records of each element in it. |
| DebugScraper.SharedTableRecordedTwice | debug_scraper.py:59-91 | The strategies are not exclusive. A table found both as a cause-list table and among all tables has each of its qualifying rows recorded at least twice. |
| DebugScraper.QualifiesAsCase | debug_scraper.py:79-82 | The row test holds exactly when there are at least two cells and one is non-empty and either contains '/' or is all digits. |
| DebugScraper.ScrapeRows | debug_scraper.py:77-91 | The row loop appends exactly the records of the qualifying rows, in order. |
| DebugScraper.EnhancedScrapeHighCourt | debug_scraper.py:44-93 | No page gives no records. Otherwise the three nested loops give exactly the records of the qualifying rows of all strategies' elements, in order. |
| DebugScraper.DistrictRowCases | debug_scraper.py:113-125 | Each record is `ToCase` of its raw data, which has at least one cell. No rows give no records. |
| DebugScraper.ElementCases | debug_scraper.py:109-111 | An element whose lower-cased text mentions none of the four keywords yields nothing. |
| DebugScraper.DistrictCases | debug_scraper.py:108-125 | All records are District Court records with non-empty raw data. No elements give no records. |
| DebugScraper.EnhancedScrapeDistrictCourt | debug_scraper.py:95-127 | No page gives no records. Otherwise the element loop and the row loop together produce exactly `DistrictCases` of the page's elements. |
| DebugScraper.DistrictScrapeElement | debug_scraper.py:109-125 | One step of the element loop appends exactly that element's records: none unless its text mentions a keyword. |
| DebugScraper.DistrictScrapeRows | debug_scraper.py:112-125 | The row loop appends exactly the records of the rows with at least one cell, in row order. |
| DebugScraper.DistrictRowCasesFromRows | debug_scraper.py:113-123 | Every record's raw data is one of the given rows: no record is made up. |
| DebugScraper.DistrictRowCasesAppend | debug_scraper.py:113-125 | Rows are handled in order: extraction distributes over concatenation of rows. |
| DebugScraper.DistrictRowCasesSnoc | debug_scraper.py:113-125 | One more row adds its record at the end exactly when that row has at least one cell. |
| DebugScraper.DistrictCasesSnoc | debug_scraper.py:108-125 | One more element adds its rows' records at the end exactly when its lower-cased text mentions a keyword. Otherwise it adds nothing. |
| DebugScraper.DistrictCasesAppend | debug_scraper.py:108-125 | Elements are handled in order: extraction distributes over concatenation of elements. |
| DebugScraper.DistrictRowCasesCount | debug_scraper.py:113-125 | Each row with at least one cell yields exactly one record. |
| DebugScraper.DistrictRowCasesComplete | debug_scraper.py:115-125 | Every row with at least one cell yields its record. |
| DebugScraper.DistrictCasesComplete | debug_scraper.py:108-125 | Every row with at least one cell, in every element whose text mentions a case, yields its District Court record. |
| DebugScraper.BlockYieldsOne | debug_scraper.py:112-125 | A matching `div` or `section` yields one record, with its whole text as case number and raw data. |
| PdfGenerator.Label | pdf_generator.py:32 | Same length, and no underscore. Each '_' becomes ' ' and other non-letters are kept. Each letter stays the same letter, and is upper-case exactly when it starts a word. |
| PdfGenerator.LabelStable | pdf_generator.py:32 | Title-casing a label again changes nothing. |
| PdfGenerator.EntryLine | pdf_generator.py:32 | The line is the label, then ": ", then the value, which can be read back after it. |
| PdfGenerator.BodyLines | pdf_generator.py:29-34 | A dict gives one line per item, in order. Each line is the item's `label: value` line, so the label and value can be read back. Anything else gives one line, its string form. |
| PdfGenerator.PdfPathInjective | pdf_generator.py:37-38 | Distinct ids are written to distinct paths. |
| PdfGenerator.GenerateCasePdf | pdf_generator.py:6-38 | The lines are the title, the four query fields in order, the heading, then the body lines. The path is `static/case_<id>.pdf`. |
| Text.LowerChar | case_checker.py:22 | An upper-case ASCII letter becomes the same letter in lower case, 32 code points up. Every other character, lower-case letters included, is unchanged. |
| Text.Lower | case_checker.py:22 | Applies `LowerChar` to every character. |
| Text.LowerAppend | case_checker.py:22 | Lower-casing distributes over concatenation. |
| Text.LowerIdempotent | case_checker.py:22 | Lower-casing twice is lower-casing once. |
| Text.Strip | case_checker.py:15 | The result is trimmed, and is the input with its leading and trailing whitespace removed. |
| Text.StripUnique | case_checker.py:15 | Stripping whitespace-padded trimmed text gives back exactly that text. |
| Text.StripSplit | case_checker.py:15 | Every string is its stripped form wrapped in whitespace. |
| Text.StripPadded | case_checker.py:15 | Extra whitespace around the argument does not change the result. |
| Text.StripIdempotent | case_checker.py:15 | Stripping twice is stripping once. |
| Text.LowerStripCommute | case_checker.py:15-22 | `strip` and `lower` commute. |
| Text.ContainsIff | case_checker.py:23 | `needle in hay` holds exactly when the needle occurs at some index. |
| Text.ContainsMiddle | case_checker.py:23 | A string is contained in anything built around it. |
| Text.Title | pdf_generator.py:32 | Non-letters are unchanged. Each letter stays the same letter, and is upper-case exactly when it does not follow a letter. |
| Text.TitleIdempotent | pdf_generator.py:32 | Title-casing twice is title-casing once. |
| Text.NatToString | pdf_generator.py:37 | Decimal digits with no leading zero. |
| Text.ParseNatToString | pdf_generator.py:37 | Reading the decimal text back gives the number. |
| Text.NatToStringInjective | pdf_generator.py:37 | Distinct numbers have distinct decimal texts. |

## Left out

- HTTP: the sessions, headers and `session.get` calls, and `debug_response`. A site's reachability is a boolean parameter, and a page that could not be fetched or parsed is `None`.
- HTML parsing: BeautifulSoup's `find_all` and `get_text`. The extractors start from elements already given as rows of stripped cell texts. For High Court pages the three strategies' element lists are inputs.
- SQLite: connections and SQL text. The table is a sequence of rows plus the AUTOINCREMENT counter. A failed insert leaves the file unchanged.
- QueryLog.SaveQuery: storage is taken to be always available. "unable to open database file", "disk I/O error" and "database is locked" are not modelled, so the only failures are a missing table and a full counter. In the source any of these can reach the "Search error: " flash (app.py:60-61).
- QueryLog.GetAllQueries: the same storage errors are not modelled, so it fails only when the table is missing. In the source they can reach the "PDF generation error: " flash (app.py:78-79).
- Concurrency: `app.run(debug=True)` serves requests on threads, and `sqlite3.connect` waits only 5 seconds for a lock. The model takes concurrent calls to run in some serial order, which is what `Replay` describes, since SQLite's transactions serialise them. A lock timeout is one of the storage errors above.
- JSON: `json.dumps` and `json.loads` of the payload are taken as the identity, so the payload is stored as it was given. Writing `cause_list.json` (`save_to_json`) is file I/O and is left out. `scrape` returns the list it would write.
- Clocks: `datetime.now`, `timedelta` and `strftime` values are parameters. Each call takes one `now`, while the source reads the clock once per record.
- FPDF: fonts, cell sizes, line breaks and the file write are left out. The document is its list of text lines.
- Flask: routing and templates are left out. `flash`, `redirect` and `send_file` are replaced by outcome values: the flashed message, and the document together with its download name. The `index` and `/queries` routes only load and render data, and are left out.
- Printing, `input()` and `time.sleep` are left out.
- `run_flask.py` is pip and subprocess plumbing and is left out. `main.py` is glue that imports a function that does not exist.
- Unicode: `strip`, `lower`, `title` and `isdigit` are modelled for ASCII only. Non-ASCII characters count as neither letters, digits nor whitespace.
- `created_at` ordering: ties between equal timestamps are left unspecified, because the query orders by `created_at` alone and SQLite leaves ties in any order. No tie-break by id is modelled, since the code has none.
- `save_query` does not check for empty fields. Validation happens only in `/search`, and the model follows the code there too.
- Search.SearchCase: templates are assumed to render. A failure in `render_template` would flash "Search error" after the row was already saved (app.py:58-61), and the model does not have that outcome. An exception raised by the lookup itself is not modelled either, because the sample lookup never raises.
- Search.DownloadPdf: rendering errors from FPDF or the file system are not modelled. Only a missing table reaches the "PDF generation error" flash.
- CaseChecker.CheckCase: the file is taken to be a JSON list of objects, and any field the check reads is taken to be a string. The script crashes on other shapes, and the model does not reproduce those crashes. Malformed JSON raises `JSONDecodeError`, because only `FileNotFoundError` is caught (case_checker.py:10). An element that is not an object has no `.get`, so `case.get` raises `AttributeError` before anything else (case_checker.py:22). A `case_number` that is null or a number makes `.strip()` raise (case_checker.py:22). A null `date_of_listing` makes `in` raise. A list-valued one turns `in` into a list-membership test (case_checker.py:23). In the model a non-string field is simply absent and reads as "".
