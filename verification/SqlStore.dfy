/** The SQL backend: the urls table with its two unique keys, the statements db.go sends, and its
    agreement with the in-memory store. */
module SqlStores {
  import opened Optional
  import opened Stores

  datatype SqlRow = SqlRow(id: string, originalURL: string, userID: string, isDeleted: bool)

  type Table = set<SqlRow>

  // Neither two rows share an id, nor two rows a URL.
  ghost predicate Unique(t: Table) {
    forall r, q :: r in t && q in t && (r.id == q.id || r.originalURL == q.originalURL) ==> r == q
  }

  predicate Conflicts(t: Table, row: Row) {
    exists r :: r in t && (r.id == row.id || r.originalURL == row.originalURL)
  }

  function NewRow(row: Row): SqlRow {
    SqlRow(row.id, row.originalURL, row.userID, false)
  }

  datatype SqlResult = SqlOk | SqlExists(existingID: string) | SqlFailed

  class DbStore {
    var rows: Table

    constructor ()
      ensures rows == {}
    {
      rows := {};
    }

    /** The insertion of one row. A row with this URL is left as it is and its id is returned; otherwise a
        taken id is an error. */
    method Upsert(row: Row) returns (id: Option<string>)
      modifies this
      ensures rows == if Conflicts(old(rows), row) then old(rows) else old(rows) + {NewRow(row)}
      ensures match id
              case Some(returned) =>
                exists r :: r in rows && r.id == returned && r.originalURL == row.originalURL
              case None => forall r :: r in old(rows) ==> r.originalURL != row.originalURL
      ensures id.None? <==>
                (exists r :: r in old(rows) && r.id == row.id)
                && forall r :: r in old(rows) ==> r.originalURL != row.originalURL
      ensures Unique(old(rows)) ==> Unique(rows)
    {
      if r :| r in rows && r.originalURL == row.originalURL {
        return Some(r.id);
      }
      if r :| r in rows && r.id == row.id {
        return None;
      }
      rows := rows + {NewRow(row)};
      assert NewRow(row) in rows;
      return Some(row.id);
    }

    method Add(row: Row) returns (result: SqlResult)
      modifies this
      ensures Unique(old(rows)) ==> (rows, result) == Insert(old(rows), row) && Unique(rows)
    {
      var existingID := Upsert(row);
      if existingID.None? {
        return SqlFailed;
      }
      if existingID.value != row.id {
        return SqlExists(existingID.value);
      }
      return SqlOk;
    }

    // Inserting several rows stores all of them or, on any conflict with the table or among them, none.
    method AddBatch(batch: seq<Row>) returns (result: SqlResult)
      modifies this
      ensures (rows, result) == InsertAll(old(rows), batch)
      ensures Unique(old(rows)) ==> Unique(rows)
    {
      if |batch| == 0 {
        assert rows + NewRows(batch) == rows;
        return SqlOk;
      }
      if BatchConflicts(rows, batch) {
        return SqlFailed;
      }
      rows := rows + NewRows(batch);
      return SqlOk;
    }

    method Get(id: string) returns (result: GetResult)
      ensures match result
              case NotFound => forall r :: r in rows ==> r.id != id
              case Gone => exists r :: r in rows && r.id == id && r.isDeleted
              case Found(url) => exists r :: r in rows && r.id == id && !r.isDeleted && r.originalURL == url
    {
      if r :| r in rows && r.id == id {
        return if r.isDeleted then Gone else Found(r.originalURL);
      }
      return NotFound;
    }

    // The selected rows come in any order.
    method GetUserURLs(userID: string) returns (result: seq<UserURL>)
      ensures |result| == |Matching(rows, userID)|
      ensures forall i :: 0 <= i < |result| ==>
                SqlRow(result[i].shortURL, result[i].originalURL, userID, false) in rows
      ensures forall i, j :: 0 <= i < j < |result| ==> result[i] != result[j]
    {
      result := [];
      var rest := Matching(rows, userID);
      while rest != {}
        invariant rest <= Matching(rows, userID)
        invariant |result| + |rest| == |Matching(rows, userID)|
        invariant forall i :: 0 <= i < |result| ==>
                    SqlRow(result[i].shortURL, result[i].originalURL, userID, false) in Matching(rows, userID) - rest
        invariant forall i, j :: 0 <= i < j < |result| ==> result[i] != result[j]
      {
        var r :| r in rest;
        assert r == SqlRow(r.id, r.originalURL, userID, false);
        result := result + [UserURL(r.id, r.originalURL)];
        rest := rest - {r};
      }
    }

    // A row keeps its id, URL and user; it is deleted if it was, or if it is named and belongs to the user.
    method DeleteBatch(userID: string, ids: seq<string>)
      modifies this
      ensures rows == MarkDeleted(old(rows), userID, ids)
      ensures Updated(old(rows), rows, userID, ids)
      ensures Unique(old(rows)) ==> Unique(rows)
    {
      if |ids| == 0 {
        NoneMarked(rows, userID, ids);
        MarkedKeepsKeys(rows, userID, ids);
        return;
      }
      var rest, marked: Table := rows, {};
      while rest != {}
        invariant rest <= rows
        invariant marked == MarkDeleted(rows - rest, userID, ids)
        invariant rows == old(rows)
      {
        var r :| r in rest;
        MarkedMore(rows - rest, r, userID, ids);
        assert rows - (rest - {r}) == rows - rest + {r};
        marked := marked + {if r.userID == userID && r.id in ids then r.(isDeleted := true) else r};
        rest := rest - {r};
      }
      assert rows - rest == rows;
      MarkedKeepsKeys(rows, userID, ids);
      rows := marked;
    }

    method GetStats() returns (stats: Statistics)
      ensures stats == Statistics(|LiveRows(rows)|, |LiveUsers(rows)|)
    {
      var rest, urls, users: set<string> := rows, 0, {};
      while rest != {}
        invariant rest <= rows
        invariant urls == |LiveRows(rows - rest)| && users == LiveUsers(rows - rest)
      {
        var r :| r in rest;
        LiveMore(rows - rest, r);
        assert rows - (rest - {r}) == rows - rest + {r};
        if !r.isDeleted {
          urls := urls + 1;
          users := users + {r.userID};
        }
        rest := rest - {r};
      }
      assert rows - rest == rows;
      stats := Statistics(urls, |users|);
    }
  }

  // The live rows of a user.
  function Matching(t: Table, userID: string): Table {
    set r | r in t && r.userID == userID && !r.isDeleted
  }

  function Marked(r: SqlRow, userID: string, ids: seq<string>): SqlRow {
    r.(isDeleted := r.isDeleted || (r.userID == userID && r.id in ids))
  }

  function MarkDeleted(t: Table, userID: string, ids: seq<string>): Table {
    set r | r in t :: Marked(r, userID, ids)
  }

  lemma NoneMarked(t: Table, userID: string, ids: seq<string>)
    requires ids == []
    ensures MarkDeleted(t, userID, ids) == t
  {
    assert forall r :: r in t ==> r == Marked(r, userID, ids);
  }

  // The rows after are those before, each deleted if it was, or if it is named and belongs to the user.
  ghost predicate Updated(before: Table, after: Table, userID: string, ids: seq<string>) {
    forall r :: r in after <==>
      exists was: bool :: r.(isDeleted := was) in before
        && (r.isDeleted <==> was || (r.userID == userID && r.id in ids))
  }

  lemma MarkedKeepsKeys(t: Table, userID: string, ids: seq<string>)
    ensures Updated(t, MarkDeleted(t, userID, ids), userID, ids)
    ensures Unique(t) ==> Unique(MarkDeleted(t, userID, ids))
  {
    var marked := MarkDeleted(t, userID, ids);
    forall r ensures r in marked <==>
      exists was: bool :: r.(isDeleted := was) in t && (r.isDeleted <==> was || (r.userID == userID && r.id in ids)) {
      if r in marked {
        var q :| q in t && r == Marked(q, userID, ids);
        assert r.(isDeleted := q.isDeleted) == q;
      }
      if was: bool :| r.(isDeleted := was) in t && (r.isDeleted <==> was || (r.userID == userID && r.id in ids)) {
        assert r == Marked(r.(isDeleted := was), userID, ids);
      }
    }
  }

  lemma MarkedMore(t: Table, r: SqlRow, userID: string, ids: seq<string>)
    ensures MarkDeleted(t + {r}, userID, ids) == MarkDeleted(t, userID, ids) + {Marked(r, userID, ids)}
  {
    assert r in t + {r};
    forall q | q in t ensures Marked(q, userID, ids) in MarkDeleted(t + {r}, userID, ids) {
      assert q in t + {r};
    }
  }

  lemma LiveMore(t: Table, r: SqlRow)
    requires r !in t
    ensures |LiveRows(t + {r})| == |LiveRows(t)| + (if r.isDeleted then 0 else 1)
    ensures LiveUsers(t + {r}) == LiveUsers(t) + (if r.isDeleted then {} else {r.userID})
  {
    assert LiveRows(t + {r}) == LiveRows(t) + (if r.isDeleted then {} else {r});
    assert r in t + {r};
    forall q | q in t && !q.isDeleted ensures q.userID in LiveUsers(t + {r}) {
      assert q in t + {r};
    }
  }

  function LiveRows(t: Table): Table {
    set r | r in t && !r.isDeleted
  }

  function LiveUsers(t: Table): set<string> {
    set r | r in t && !r.isDeleted :: r.userID
  }

  function NewRows(batch: seq<Row>): Table {
    set i | 0 <= i < |batch| :: NewRow(batch[i])
  }

  /** What Add answers: an existing id that differs from the new one is reported; a taken id under
      another URL is an error. */
  ghost function AddAnswer(t: Table, row: Row): SqlResult {
    if exists r :: r in t && r.originalURL == row.originalURL then
      var r :| r in t && r.originalURL == row.originalURL;
      if r.id == row.id then SqlOk else SqlExists(r.id)
    else if exists r :: r in t && r.id == row.id then SqlFailed
    else SqlOk
  }

  ghost function Insert(t: Table, row: Row): (Table, SqlResult) {
    (if Conflicts(t, row) then t else t + {NewRow(row)}, AddAnswer(t, row))
  }

  predicate BatchConflicts(t: Table, batch: seq<Row>) {
    || (exists i :: 0 <= i < |batch| && Conflicts(t, batch[i]))
    || (exists i, j :: 0 <= i < |batch| && 0 <= j < i
          && (batch[i].id == batch[j].id || batch[i].originalURL == batch[j].originalURL))
  }

  function InsertAll(t: Table, batch: seq<Row>): (Table, SqlResult) {
    if BatchConflicts(t, batch) then (t, SqlFailed) else (t + NewRows(batch), SqlOk)
  }

  // ---- Agreement with the two-map store ----

  function RowOf(s: Store, id: string): SqlRow
    requires id in s.data
  {
    SqlRow(id, s.data[id].originalURL, s.data[id].userID, s.data[id].deleted)
  }

  function TableOf(s: Store): Table {
    set id | id in s.data :: RowOf(s, id)
  }

  lemma TableOfUnique(s: Store)
    requires Inverse(s)
    ensures Unique(TableOf(s))
    ensures forall id :: id in s.data <==> exists r :: r in TableOf(s) && r.id == id
    ensures forall url :: url in s.urlToID <==> exists r :: r in TableOf(s) && r.originalURL == url
  {
    forall id | id in s.data ensures exists r :: r in TableOf(s) && r.id == id {
      assert RowOf(s, id) in TableOf(s);
    }
    forall url | url in s.urlToID ensures exists r :: r in TableOf(s) && r.originalURL == url {
      var id := s.urlToID[url];
      assert RowOf(s, id) in TableOf(s);
    }
  }

  // Both report success, or the same existing id.
  predicate SameAnswer(a: AddResult, b: SqlResult) {
    match a
    case Added => b == SqlOk
    case AlreadyExists(id) => b == SqlExists(id)
  }

  lemma TablePut(s: Store, row: Row)
    requires row.id !in s.data
    ensures TableOf(Put(s, row)) == TableOf(s) + {NewRow(row)}
  {
    var t := Put(s, row);
    forall r ensures r in TableOf(t) <==> r in TableOf(s) + {NewRow(row)} {
      if r == NewRow(row) { assert row.id in t.data; }
      if r in TableOf(s) { assert r.id in s.data && r.id in t.data; }
    }
  }

  /** Add answers alike in both stores exactly when an unknown URL comes with a new id and a known URL
      with an id other than the one it has. Otherwise the map store overwrites where SQL fails, or
      reports a duplicate where SQL reports success. */
  lemma AddAgrees(s: Store, row: Row)
    requires Inverse(s)
    ensures SameAnswer(AddTo(s, row).1, Insert(TableOf(s), row).1)
       <==> if row.originalURL in s.urlToID then s.urlToID[row.originalURL] != row.id else row.id !in s.data
    ensures row.originalURL in s.urlToID || row.id !in s.data ==>
              Insert(TableOf(s), row).0 == TableOf(AddTo(s, row).0)
  {
    TableOfUnique(s);
    if row.originalURL in s.urlToID {
      var id := s.urlToID[row.originalURL];
      assert RowOf(s, id) in TableOf(s);
    } else if row.id !in s.data {
      TablePut(s, row);
    }
  }

  lemma {:induction false} TablePutAll(s: Store, rows: seq<Row>)
    requires FreshRows(s, rows) && forall i :: 0 <= i < |rows| ==> rows[i].originalURL !in s.urlToID
    ensures TableOf(PutAll(s, rows)) == TableOf(s) + NewRows(rows)
    decreases rows
  {
    if rows == [] {
      assert NewRows(rows) == {};
    } else {
      var rest := rows[1..];
      assert forall i :: 0 <= i < |rest| ==> rest[i] == rows[i + 1];
      TablePut(s, rows[0]);
      TablePutAll(Put(s, rows[0]), rest);
      assert NewRows(rows) == {NewRow(rows[0])} + NewRows(rest) by {
        forall i | 0 < i < |rows| ensures NewRow(rows[i]) in NewRows(rest) { assert rest[i - 1] == rows[i]; }
      }
    }
  }

  /** A batch of new ids and different URLs is accepted by both stores or by neither, with the same rows. */
  lemma BatchAgrees(s: Store, rows: seq<Row>)
    requires Inverse(s) && FreshRows(s, rows)
    ensures InsertAll(TableOf(s), rows)
         == (TableOf(AddBatchTo(s, rows).0), if AddBatchTo(s, rows).1.Added? then SqlOk else SqlFailed)
  {
    FirstKnownNone(s, rows);
    TableOfUnique(s);
    if FirstKnown(s, rows).None? {
      TablePutAll(s, rows);
    } else {
      var i :| 0 <= i < |rows| && rows[i].originalURL in s.urlToID;
      assert Conflicts(TableOf(s), rows[i]);
    }
  }

  lemma DeleteAgrees(s: Store, userID: string, ids: seq<string>)
    ensures MarkDeleted(TableOf(s), userID, ids) == TableOf(DeleteFrom(s, userID, ids))
  {
    var t := DeleteFrom(s, userID, ids);
    forall r ensures r in MarkDeleted(TableOf(s), userID, ids) <==> r in TableOf(t) {
      if r in TableOf(t) {
        var was := RowOf(s, r.id);
        assert was in TableOf(s);
        assert r == Marked(was, userID, ids);
      }
      if r in MarkDeleted(TableOf(s), userID, ids) {
        var was :| was in TableOf(s) && r == Marked(was, userID, ids);
        assert was.id in s.data && r.id in t.data;
      }
    }
  }

  ghost function SqlStep(t: Table, op: Op): Table {
    match op
    case Add(row) => Insert(t, row).0
    case AddBatch(rows) => InsertAll(t, rows).0
    case Delete(userID, ids) => MarkDeleted(t, userID, ids)
  }

  ghost function SqlRun(t: Table, ops: seq<Op>): Table
    decreases ops
  {
    if ops == [] then t else SqlRun(SqlStep(t, ops[0]), ops[1..])
  }

  // The two stores answer an operation alike; a batch is accepted by both or by neither.
  ghost predicate SameReply(s: Store, t: Table, op: Op) {
    match op
    case Add(row) => SameAnswer(AddTo(s, row).1, Insert(t, row).1)
    case AddBatch(rows) => InsertAll(t, rows).1 == if AddBatchTo(s, rows).1.Added? then SqlOk else SqlFailed
    case Delete(_, _) => true
  }

  ghost predicate SameReplies(s: Store, t: Table, ops: seq<Op>)
    decreases ops
  {
    ops == [] || (SameReply(s, t, ops[0]) && SameReplies(Step(s, ops[0]), SqlStep(t, ops[0]), ops[1..]))
  }

  /** Through every fresh run the table holds exactly the entries of the maps, its ids and its URLs are
      unique, and every operation of the run is answered alike. */
  lemma {:induction false} RunsAgree(s: Store, ops: seq<Op>)
    requires Inverse(s) && FreshRun(s, ops)
    ensures SqlRun(TableOf(s), ops) == TableOf(Run(s, ops)) && Unique(SqlRun(TableOf(s), ops))
    ensures SameReplies(s, TableOf(s), ops)
    decreases ops
  {
    TableOfUnique(s);
    if ops != [] {
      match ops[0] {
        case Add(row) => AddAgrees(s, row);
        case AddBatch(rows) => BatchAgrees(s, rows);
        case Delete(userID, ids) => DeleteAgrees(s, userID, ids);
      }
      StepSafe(s, ops[0]);
      RunsAgree(Step(s, ops[0]), ops[1..]);
    }
  }

  // ---- The same answers ----

  ghost function Select(t: Table, id: string): GetResult {
    if exists r :: r in t && r.id == id then
      var r :| r in t && r.id == id;
      if r.isDeleted then Gone else Found(r.originalURL)
    else NotFound
  }

  lemma {:induction false} SameCount(s: Store, ids: set<string>, t: Table)
    requires forall id :: id in ids ==> id in s.data
    requires t == set id | id in ids :: RowOf(s, id)
    ensures |t| == |ids|
    decreases ids
  {
    if id :| id in ids {
      var rest := set i | i in ids - {id} :: RowOf(s, i);
      SameCount(s, ids - {id}, rest);
      assert t == rest + {RowOf(s, id)} && RowOf(s, id) !in rest;
    }
  }

  /** Over related states the two stores answer every query alike: lookups, the entries and the length of
      every user's list, and the statistics. */
  lemma QueriesAgree(s: Store, id: string, userID: string)
    requires Inverse(s)
    ensures Select(TableOf(s), id) == Lookup(s, id)
    ensures forall i, url :: SqlRow(i, url, userID, false) in TableOf(s)
              <==> i in LiveOf(s, userID) && s.data[i].originalURL == url
    ensures |Matching(TableOf(s), userID)| == |LiveOf(s, userID)|
    ensures |LiveRows(TableOf(s))| == |Live(s)| && LiveUsers(TableOf(s)) == Owners(s)
  {
    TableOfUnique(s);
    if id in s.data { assert RowOf(s, id) in TableOf(s); }
    forall i, url | i in LiveOf(s, userID) && s.data[i].originalURL == url
      ensures SqlRow(i, url, userID, false) in TableOf(s) {
      assert RowOf(s, i) in TableOf(s);
    }
    SameCount(s, LiveOf(s, userID), Matching(TableOf(s), userID));
    SameCount(s, Live(s), LiveRows(TableOf(s)));
    forall user ensures user in LiveUsers(TableOf(s)) <==> user in Owners(s) {
      if user in Owners(s) {
        var i :| i in Live(s) && s.data[i].userID == user;
        assert RowOf(s, i) in TableOf(s);
      }
      if user in LiveUsers(TableOf(s)) {
        var r :| r in TableOf(s) && !r.isDeleted && r.userID == user;
        assert r.id in Live(s);
      }
    }
  }
}
