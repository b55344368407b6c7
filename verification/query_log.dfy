/**
 The query log of `database.py`: one SQLite table `queries` whose primary key
 is `INTEGER PRIMARY KEY AUTOINCREMENT`. The table is kept as the sequence of
 its rows in insertion order, together with the AUTOINCREMENT counter SQLite
 keeps in `sqlite_sequence`. The stored payload is opaque to the log.
 */
module QueryLog {
  import opened Results

  /** The largest rowid SQLite hands out; past it AUTOINCREMENT fails with SQLITE_FULL. */
  const MaxRowId: nat := 0x7FFF_FFFF_FFFF_FFFF

  /**
   The searched case data as the application passes it around: a dict, given
   by its items in iteration order with each value in its `str()` form, or
   any other JSON value, given by its `str()` form.
   */
  datatype Payload = Dict(items: seq<(string, string)>) | Scalar(text: string)

  /** One row of `queries`, as `get_all_queries` hands it out. */
  datatype QueryRecord = QueryRecord(
    id: nat,
    caseType: string,
    caseNumber: string,
    year: string,
    payload: Payload,
    createdAt: string)

  /**
   The database file: whether `queries` has been created, its rows in
   insertion order, and the AUTOINCREMENT counter (the largest id ever issued).
   */
  datatype Store = Store(tableExists: bool, rows: seq<QueryRecord>, lastId: nat)

  /** What `sqlite3` raises: `no such table: queries`, `database or disk is full`. */
  datatype DbError = NoSuchTable | DatabaseFull

  /** The result of a successful `save_query`: the new database and the id it returned. */
  datatype Saved = Saved(store: Store, id: nat)

  /** A database file that has never been initialised. */
  const Fresh: Store := Store(false, [], 0)

  /**
   What AUTOINCREMENT guarantees of a database that only ever sees
   `init_db` and `save_query`: ids are positive, never above the counter, and
   strictly increasing in insertion order (so never reused).
   */
  predicate Valid(s: Store) {
    && (!s.tableExists ==> s.rows == [] && s.lastId == 0)
    && s.lastId <= MaxRowId
    && (forall i :: 0 <= i < |s.rows| ==> 1 <= s.rows[i].id <= s.lastId)
    && (forall i, j :: 0 <= i < j < |s.rows| ==> s.rows[i].id < s.rows[j].id)
  }

  /** `init_db`: `CREATE TABLE IF NOT EXISTS queries (...)`. */
  function InitDb(s: Store): (r: Store)
    ensures r.tableExists
    ensures s.tableExists ==> r == s
    ensures Valid(s) ==> Valid(r) && r.rows == s.rows && r.lastId == s.lastId
  {
    if s.tableExists then s else Store(true, [], 0)
  }

  /** Running `init_db` again, as every start of the application does, changes nothing. */
  lemma InitDbIdempotent(s: Store, saves: seq<Op>)
    requires Valid(s)
    ensures InitDb(Replay(InitDb(s), saves)) == Replay(InitDb(s), saves)
  {
    ReplayAppendOnly(InitDb(s), saves);
  }

  /**
   `save_query`: insert one row with a fresh AUTOINCREMENT id and the given
   `created_at` (SQLite's CURRENT_TIMESTAMP), and return the id.
   */
  function SaveQuery(
    s: Store, caseType: string, caseNumber: string, year: string, payload: Payload, createdAt: string
  ): (r: Result<Saved, DbError>)
    ensures !s.tableExists ==> r == Err(NoSuchTable)
    ensures s.tableExists && s.lastId >= MaxRowId ==> r == Err(DatabaseFull)
    ensures r.Ok? <==> s.tableExists && s.lastId < MaxRowId
    ensures r.Ok? ==>
      && r.value.store.tableExists
      && r.value.store.rows == s.rows + [QueryRecord(r.value.id, caseType, caseNumber, year, payload, createdAt)]
      && r.value.store.lastId == r.value.id
      && s.lastId < r.value.id
    ensures r.Ok? && Valid(s) ==>
      && Valid(r.value.store)
      && (forall i :: 0 <= i < |s.rows| ==> s.rows[i].id < r.value.id)
  {
    if !s.tableExists then Err(NoSuchTable)
    else if s.lastId >= MaxRowId then Err(DatabaseFull)
    else
      var id := s.lastId + 1;
      Ok(Saved(Store(true, s.rows + [QueryRecord(id, caseType, caseNumber, year, payload, createdAt)], id), id))
  }

  // ---------------------------------------------------------------------------
  // ORDER BY created_at DESC
  // ---------------------------------------------------------------------------

  /**
   SQLite's BINARY collation on text: compare character by character, a
   proper prefix sorting first.
   */
  predicate TextLe(a: string, b: string)
    decreases |a|
  {
    a == [] || (b != [] && (a[0] < b[0] || (a[0] == b[0] && TextLe(a[1..], b[1..]))))
  }

  lemma {:induction false} TextLeTotal(a: string, b: string)
    ensures TextLe(a, b) || TextLe(b, a)
    decreases |a|
  {
    if a != [] && b != [] && a[0] == b[0] {
      TextLeTotal(a[1..], b[1..]);
    }
  }

  lemma {:induction false} TextLeTransitive(a: string, b: string, c: string)
    requires TextLe(a, b) && TextLe(b, c)
    ensures TextLe(a, c)
    decreases |a|
  {
    if a != [] && a[0] == b[0] && b[0] == c[0] {
      TextLeTransitive(a[1..], b[1..], c[1..]);
    }
  }

  /** Each row's `created_at` is at most the one before it. */
  predicate NewestFirst(qs: seq<QueryRecord>) {
    forall i :: 0 < i < |qs| ==> TextLe(qs[i].createdAt, qs[i - 1].createdAt)
  }

  /** In a newest-first listing, every later row is at most as new as every earlier one. */
  lemma {:induction false} NewestFirstPairwise(qs: seq<QueryRecord>, i: int, j: int)
    requires NewestFirst(qs)
    requires 0 <= i <= j < |qs|
    ensures TextLe(qs[j].createdAt, qs[i].createdAt)
    decreases j - i
  {
    if i == j {
      TextLeTotal(qs[i].createdAt, qs[i].createdAt);
    } else {
      NewestFirstPairwise(qs, i, j - 1);
      TextLeTransitive(qs[j].createdAt, qs[j - 1].createdAt, qs[i].createdAt);
    }
  }

  /** Put `q` into a newest-first listing, ahead of every row at most as new as it. */
  function InsertByTime(q: QueryRecord, qs: seq<QueryRecord>): (r: seq<QueryRecord>)
    requires NewestFirst(qs)
    ensures NewestFirst(r)
    ensures multiset(r) == multiset(qs) + multiset{q}
    ensures |r| > 0 && (r[0] == q || (qs != [] && r[0] == qs[0]))
  {
    if qs == [] then [q]
    else if TextLe(qs[0].createdAt, q.createdAt) then [q] + qs
    else
      TextLeTotal(qs[0].createdAt, q.createdAt);
      var rest := InsertByTime(q, qs[1..]);
      assert qs == [qs[0]] + qs[1..];
      [qs[0]] + rest
  }

  /** Sort rows newest `created_at` first; rows with equal timestamps may come in any order. */
  function SortNewestFirst(qs: seq<QueryRecord>): (r: seq<QueryRecord>)
    ensures NewestFirst(r)
    ensures multiset(r) == multiset(qs)
  {
    if qs == [] then []
    else
      assert qs == [qs[0]] + qs[1..];
      InsertByTime(qs[0], SortNewestFirst(qs[1..]))
  }

  /**
   `get_all_queries`: every row exactly once, newest `created_at` first, each
   with the payload it was saved with.
   */
  function GetAllQueries(s: Store): (r: Result<seq<QueryRecord>, DbError>)
    ensures r.Err? <==> !s.tableExists
    ensures r.Err? ==> r.error == NoSuchTable
    ensures r.Ok? ==> multiset(r.value) == multiset(s.rows) && NewestFirst(r.value)
  {
    if !s.tableExists then Err(NoSuchTable) else Ok(SortNewestFirst(s.rows))
  }

  // ---------------------------------------------------------------------------
  // The log over a whole history of calls
  // ---------------------------------------------------------------------------

  /** A call the application makes on the log. */
  datatype Op =
    | Init
    | Save(caseType: string, caseNumber: string, year: string, payload: Payload, createdAt: string)

  /**
   One call on the log. A `save_query` that raises leaves the file as it
   was, since SQLite rolls the failed statement back.
   */
  function Step(s: Store, op: Op): (r: Store)
    ensures Valid(s) ==> Valid(r) && s.rows <= r.rows && s.lastId <= r.lastId
    ensures s.tableExists ==> r.tableExists
  {
    match op
    case Init => InitDb(s)
    case Save(t, n, y, p, at) =>
      match SaveQuery(s, t, n, y, p, at)
      case Ok(saved) => saved.store
      case Err(_) => s
  }

  /** Replay a history of calls, oldest first. */
  function Replay(s: Store, ops: seq<Op>): Store
    decreases |ops|
  {
    if ops == [] then s else Replay(Step(s, ops[0]), ops[1..])
  }

  /**
   Over any history, the log only grows at its end: every row present before
   is still there, unchanged and in place, and the AUTOINCREMENT invariant holds.
   */
  lemma {:induction false} ReplayAppendOnly(s: Store, ops: seq<Op>)
    requires Valid(s)
    ensures Valid(Replay(s, ops))
    ensures s.rows <= Replay(s, ops).rows
    ensures s.lastId <= Replay(s, ops).lastId
    ensures s.tableExists ==> Replay(s, ops).tableExists
    decreases |ops|
  {
    if ops != [] {
      ReplayAppendOnly(Step(s, ops[0]), ops[1..]);
    }
  }

  /** Two successful saves return strictly increasing ids. */
  lemma SequentialSavesIncrease(
    s: Store, t1: string, n1: string, y1: string, p1: Payload, at1: string,
    t2: string, n2: string, y2: string, p2: Payload, at2: string)
    requires Valid(s)
    requires SaveQuery(s, t1, n1, y1, p1, at1).Ok?
    requires SaveQuery(SaveQuery(s, t1, n1, y1, p1, at1).value.store, t2, n2, y2, p2, at2).Ok?
    ensures SaveQuery(s, t1, n1, y1, p1, at1).value.id
      < SaveQuery(SaveQuery(s, t1, n1, y1, p1, at1).value.store, t2, n2, y2, p2, at2).value.id
  {
  }

  /** On a freshly initialised database the first save returns id 1. */
  lemma FirstSaveIsOne(t: string, n: string, y: string, p: Payload, at: string)
    ensures SaveQuery(InitDb(Fresh), t, n, y, p, at) == Ok(Saved(Store(true, [QueryRecord(1, t, n, y, p, at)], 1), 1))
  {
    assert [] + [QueryRecord(1, t, n, y, p, at)] == [QueryRecord(1, t, n, y, p, at)];
  }
}
