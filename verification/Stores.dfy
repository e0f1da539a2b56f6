/** The in-memory URL store: two maps kept under one lock, so that every operation is one step. */
module Stores {
  import opened Optional

  datatype Row = Row(id: string, originalURL: string, userID: string)

  datatype UserURL = UserURL(shortURL: string, originalURL: string)

  datatype UrlInfo = UrlInfo(originalURL: string, userID: string, deleted: bool)

  datatype Store = Store(data: map<string, UrlInfo>, urlToID: map<string, string>)

  datatype AddResult = Added | AlreadyExists(existingID: string)

  datatype GetResult = Found(originalURL: string) | NotFound | Gone

  datatype Statistics = Statistics(urls: nat, users: nat)

  const EMPTY := Store(map[], map[])

  // ---- What each operation does to the maps ----

  function Put(s: Store, row: Row): Store {
    Store(s.data[row.id := UrlInfo(row.originalURL, row.userID, false)], s.urlToID[row.originalURL := row.id])
  }

  function AddTo(s: Store, row: Row): (Store, AddResult) {
    if row.originalURL in s.urlToID then (s, AlreadyExists(s.urlToID[row.originalURL]))
    else (Put(s, row), Added)
  }

  function PutAll(s: Store, rows: seq<Row>): Store
    decreases rows
  {
    if rows == [] then s else PutAll(Put(s, rows[0]), rows[1..])
  }

  // The id under which the first already known URL of the batch is stored.
  function FirstKnown(s: Store, rows: seq<Row>): Option<string> {
    if rows == [] then None
    else if rows[0].originalURL in s.urlToID then Some(s.urlToID[rows[0].originalURL])
    else FirstKnown(s, rows[1..])
  }

  function AddBatchTo(s: Store, rows: seq<Row>): (Store, AddResult) {
    match FirstKnown(s, rows)
    case Some(id) => (s, AlreadyExists(id))
    case None => (PutAll(s, rows), Added)
  }

  function DeleteFrom(s: Store, userID: string, ids: seq<string>): Store {
    s.(data := map id | id in s.data ::
         if id in ids && s.data[id].userID == userID then s.data[id].(deleted := true) else s.data[id])
  }

  function Lookup(s: Store, id: string): GetResult {
    if id !in s.data then NotFound
    else if s.data[id].deleted then Gone
    else Found(s.data[id].originalURL)
  }

  function Live(s: Store): set<string> {
    set id | id in s.data && !s.data[id].deleted
  }

  function LiveOf(s: Store, userID: string): set<string> {
    set id | id in s.data && s.data[id].userID == userID && !s.data[id].deleted
  }

  function Owners(s: Store): set<string> {
    OwnersIn(s, Live(s))
  }

  function OwnersIn(s: Store, ids: set<string>): set<string>
    requires ids <= s.data.Keys
  {
    set id | id in ids :: s.data[id].userID
  }

  lemma OwnersMore(s: Store, ids: set<string>, id: string)
    requires ids <= s.data.Keys && id in s.data
    ensures OwnersIn(s, ids + {id}) == OwnersIn(s, ids) + {s.data[id].userID}
  {
    assert id in ids + {id};
    forall other | other in ids ensures s.data[other].userID in OwnersIn(s, ids + {id}) {
      assert other in ids + {id};
    }
  }

  // The loop of DeleteBatch marks one id after the other.
  lemma DeleteOneMore(s: Store, userID: string, ids: seq<string>, i: nat)
    requires i < |ids|
    ensures var t := DeleteFrom(s, userID, ids[..i]);
            DeleteFrom(s, userID, ids[..i + 1])
              == if ids[i] in t.data && t.data[ids[i]].userID == userID then
                   t.(data := t.data[ids[i] := t.data[ids[i]].(deleted := true)])
                 else t
  {
    assert ids[..i + 1] == ids[..i] + [ids[i]];
  }

  // What the loop of GetStats has counted when these ids are left.
  ghost predicate Counted(s: Store, rest: set<string>, urls: nat, users: set<string>) {
    urls == |Live(s) - rest| && users == OwnersIn(s, Live(s) - rest)
  }

  lemma CountMore(s: Store, rest: set<string>, urls: nat, users: set<string>, id: string)
    requires Counted(s, rest, urls, users) && id in rest && id in s.data
    ensures if s.data[id].deleted then Counted(s, rest - {id}, urls, users)
            else Counted(s, rest - {id}, urls + 1, users + {s.data[id].userID})
  {
    var seen := Live(s) - rest;
    if s.data[id].deleted {
      assert Live(s) - (rest - {id}) == seen;
    } else {
      assert Live(s) - (rest - {id}) == seen + {id};
      OwnersMore(s, seen, id);
    }
  }

  // One entry for each of the ids, in whatever order.
  ghost predicate Lists(list: seq<UserURL>, s: Store, ids: set<string>) {
    && (forall i, j :: 0 <= i < j < |list| ==> list[i].shortURL != list[j].shortURL)
    && (forall i :: 0 <= i < |list| ==>
          && list[i].shortURL in ids && list[i].shortURL in s.data
          && list[i].originalURL == s.data[list[i].shortURL].originalURL)
    && |list| == |ids|
  }

  lemma ListsAdd(list: seq<UserURL>, s: Store, ids: set<string>, id: string)
    requires Lists(list, s, ids) && id !in ids && id in s.data
    ensures Lists(list + [UserURL(id, s.data[id].originalURL)], s, ids + {id})
  {
  }

  lemma OneLess(all: set<string>, rest: set<string>, id: string)
    requires id in rest
    ensures all - (rest - {id}) == if id in all then all - rest + {id} else all - rest
  {
  }

  // ---- The class ----

  class MemStore {
    var data: map<string, UrlInfo>
    var urlToID: map<string, string>

    ghost function Contents(): Store
      reads this
    {
      Store(data, urlToID)
    }

    constructor ()
      ensures Contents() == EMPTY
    {
      data, urlToID := map[], map[];
    }

    method Add(row: Row) returns (result: AddResult)
      modifies this
      ensures (Contents(), result) == AddTo(old(Contents()), row)
    {
      if row.originalURL in urlToID {
        return AlreadyExists(urlToID[row.originalURL]);
      }
      data := data[row.id := UrlInfo(row.originalURL, row.userID, false)];
      urlToID := urlToID[row.originalURL := row.id];
      return Added;
    }

    method AddBatch(rows: seq<Row>) returns (result: AddResult)
      modifies this
      ensures (Contents(), result) == AddBatchTo(old(Contents()), rows)
    {
      var i := 0;
      while i < |rows|
        invariant i <= |rows|
        invariant FirstKnown(Contents(), rows) == FirstKnown(Contents(), rows[i..])
      {
        if rows[i].originalURL in urlToID {
          return AlreadyExists(urlToID[rows[i].originalURL]);
        }
        i := i + 1;
      }
      i := 0;
      while i < |rows|
        invariant i <= |rows|
        invariant PutAll(Contents(), rows[i..]) == PutAll(old(Contents()), rows)
      {
        data := data[rows[i].id := UrlInfo(rows[i].originalURL, rows[i].userID, false)];
        urlToID := urlToID[rows[i].originalURL := rows[i].id];
        i := i + 1;
      }
      return Added;
    }

    method Get(id: string) returns (result: GetResult)
      ensures result == Lookup(Contents(), id)
    {
      if id !in data {
        return NotFound;
      }
      if data[id].deleted {
        return Gone;
      }
      return Found(data[id].originalURL);
    }

    // The range over the map visits the ids in any order.
    method GetUserURLs(userID: string) returns (result: seq<UserURL>)
      ensures Lists(result, Contents(), LiveOf(Contents(), userID))
    {
      result := [];
      var rest := data.Keys;
      ghost var mine := LiveOf(Contents(), userID);
      while rest != {}
        invariant rest <= data.Keys
        invariant Lists(result, Contents(), mine - rest)
      {
        var id :| id in rest;
        OneLess(mine, rest, id);
        if data[id].userID == userID && !data[id].deleted {
          ListsAdd(result, Contents(), mine - rest, id);
          result := result + [UserURL(id, data[id].originalURL)];
        }
        rest := rest - {id};
      }
      assert mine - rest == mine;
    }

    method DeleteBatch(userID: string, ids: seq<string>)
      modifies this
      ensures Contents() == DeleteFrom(old(Contents()), userID, ids)
    {
      if |ids| == 0 {
        return;
      }
      var i := 0;
      while i < |ids|
        invariant i <= |ids|
        invariant Contents() == DeleteFrom(old(Contents()), userID, ids[..i])
      {
        DeleteOneMore(old(Contents()), userID, ids, i);
        if ids[i] in data && data[ids[i]].userID == userID {
          data := data[ids[i] := data[ids[i]].(deleted := true)];
        }
        i := i + 1;
      }
      assert ids[..i] == ids;
    }

    method GetStats() returns (stats: Statistics)
      ensures stats == Statistics(|Live(Contents())|, |Owners(Contents())|)
    {
      var userSet: set<string> := {};
      var urls := 0;
      var rest := data.Keys;
      assert Live(Contents()) - rest == {};
      while rest != {}
        invariant rest <= data.Keys
        invariant Counted(Contents(), rest, urls, userSet)
      {
        var id :| id in rest;
        CountMore(Contents(), rest, urls, userSet, id);
        if !data[id].deleted {
          userSet := userSet + {data[id].userID};
          urls := urls + 1;
        }
        rest := rest - {id};
      }
      assert Live(Contents()) - {} == Live(Contents());
      stats := Statistics(urls, |userSet|);
    }
  }

  // ---- The two maps are inverse ----

  ghost predicate Inverse(s: Store) {
    && (forall id :: id in s.data ==>
          s.data[id].originalURL in s.urlToID && s.urlToID[s.data[id].originalURL] == id)
    && (forall url :: url in s.urlToID ==>
          s.urlToID[url] in s.data && s.data[s.urlToID[url]].originalURL == url)
  }

  /** Adding one row keeps the maps inverse exactly when it is refused or its id is new. */
  lemma AddKeepsInverse(s: Store, row: Row)
    requires Inverse(s)
    ensures Inverse(AddTo(s, row).0) <==> row.originalURL in s.urlToID || row.id !in s.data
  {
    var t := AddTo(s, row).0;
    if row.originalURL !in s.urlToID && row.id in s.data {
      var url := s.data[row.id].originalURL;
      assert url in t.urlToID && t.urlToID[url] == row.id;
      assert t.data[row.id].originalURL != url;
    }
  }

  // Ids that are new and pairwise different, URLs pairwise different.
  ghost predicate FreshRows(s: Store, rows: seq<Row>) {
    && (forall i :: 0 <= i < |rows| ==> rows[i].id !in s.data)
    && (forall i, j :: 0 <= i < j < |rows| ==> rows[i].id != rows[j].id && rows[i].originalURL != rows[j].originalURL)
  }

  lemma FirstKnownNone(s: Store, rows: seq<Row>)
    ensures FirstKnown(s, rows).None? <==> forall i :: 0 <= i < |rows| ==> rows[i].originalURL !in s.urlToID
  {
  }

  // The i-th row is the first whose URL is stored already.
  ghost predicate FirstStored(s: Store, rows: seq<Row>, i: nat) {
    i < |rows| && rows[i].originalURL in s.urlToID && forall j :: 0 <= j < i ==> rows[j].originalURL !in s.urlToID
  }

  /** A batch is refused if and only if some URL of it is stored, with the id of the first one. */
  lemma {:induction false} RefusedWith(s: Store, rows: seq<Row>, id: string)
    ensures AddBatchTo(s, rows).1 == AlreadyExists(id)
       <==> exists i: nat :: FirstStored(s, rows, i) && id == s.urlToID[rows[i].originalURL]
    decreases rows
  {
    if rows != [] && rows[0].originalURL in s.urlToID {
      assert FirstStored(s, rows, 0);
    } else if rows != [] {
      RefusedWith(s, rows[1..], id);
      if i: nat :| FirstStored(s, rows[1..], i) && id == s.urlToID[rows[1..][i].originalURL] {
        assert forall j :: 0 < j <= i + 1 ==> rows[j] == rows[1..][j - 1];
        assert FirstStored(s, rows, i + 1);
      }
      if i: nat :| FirstStored(s, rows, i) && id == s.urlToID[rows[i].originalURL] {
        assert forall j :: 0 < j <= i ==> rows[j] == rows[1..][j - 1];
        assert FirstStored(s, rows[1..], i - 1);
      }
    }
  }

  function Ids(rows: seq<Row>): set<string> {
    set i | 0 <= i < |rows| :: rows[i].id
  }

  function URLs(rows: seq<Row>): set<string> {
    set i | 0 <= i < |rows| :: rows[i].originalURL
  }

  lemma IdsCons(rows: seq<Row>)
    requires rows != []
    ensures Ids(rows) == {rows[0].id} + Ids(rows[1..])
    ensures URLs(rows) == {rows[0].originalURL} + URLs(rows[1..])
  {
    forall i | 0 < i < |rows| ensures rows[i].id in Ids(rows[1..]) && rows[i].originalURL in URLs(rows[1..]) {
      assert rows[1..][i - 1] == rows[i];
    }
    assert forall i :: 0 <= i < |rows[1..]| ==> rows[1..][i] == rows[i + 1];
  }

  // t has what s has, and the row.
  ghost predicate Holds(t: Store, row: Row) {
    && row.id in t.data && t.data[row.id] == UrlInfo(row.originalURL, row.userID, false)
    && row.originalURL in t.urlToID && t.urlToID[row.originalURL] == row.id
  }

  ghost predicate Extends(s: Store, t: Store) {
    && (forall id :: id in s.data ==> id in t.data && t.data[id] == s.data[id])
    && (forall url :: url in s.urlToID ==> url in t.urlToID && t.urlToID[url] == s.urlToID[url])
  }

  lemma ExtendsChain(s: Store, t: Store, u: Store)
    requires Extends(s, t) && Extends(t, u)
    ensures Extends(s, u)
    ensures forall row :: Holds(t, row) ==> Holds(u, row)
  {
  }

  lemma {:induction false} PutAllKeys(s: Store, rows: seq<Row>)
    ensures PutAll(s, rows).data.Keys == s.data.Keys + Ids(rows)
    ensures PutAll(s, rows).urlToID.Keys == s.urlToID.Keys + URLs(rows)
    decreases rows
  {
    if rows != [] {
      PutAllKeys(Put(s, rows[0]), rows[1..]);
      IdsCons(rows);
    }
  }

  // None of the URLs is stored yet.
  ghost predicate UnknownRows(s: Store, rows: seq<Row>) {
    forall i :: 0 <= i < |rows| ==> rows[i].originalURL !in s.urlToID
  }

  lemma PutFirst(s: Store, rows: seq<Row>)
    requires rows != [] && FreshRows(s, rows) && UnknownRows(s, rows)
    ensures FreshRows(Put(s, rows[0]), rows[1..]) && UnknownRows(Put(s, rows[0]), rows[1..])
    ensures Extends(s, Put(s, rows[0])) && Holds(Put(s, rows[0]), rows[0])
  {
    var rest := rows[1..];
    assert forall i :: 0 <= i < |rest| ==> rest[i] == rows[i + 1];
  }

  lemma {:induction false} PutAllHolds(s: Store, rows: seq<Row>)
    requires FreshRows(s, rows) && UnknownRows(s, rows)
    ensures Extends(s, PutAll(s, rows))
    ensures forall row :: row in rows ==> Holds(PutAll(s, rows), row)
    decreases rows
  {
    if rows != [] {
      PutFirst(s, rows);
      PutAllHolds(Put(s, rows[0]), rows[1..]);
      ExtendsChain(s, Put(s, rows[0]), PutAll(s, rows));
      assert forall row :: row in rows ==> row == rows[0] || row in rows[1..];
    }
  }

  /** Storing a batch of new rows adds exactly those rows. */
  lemma {:induction false} PutAllContents(s: Store, rows: seq<Row>)
    requires FreshRows(s, rows)
    requires forall i :: 0 <= i < |rows| ==> rows[i].originalURL !in s.urlToID
    ensures Extends(s, PutAll(s, rows))
    ensures forall i :: 0 <= i < |rows| ==> Holds(PutAll(s, rows), rows[i])
    ensures PutAll(s, rows).data.Keys == s.data.Keys + Ids(rows)
    ensures PutAll(s, rows).urlToID.Keys == s.urlToID.Keys + URLs(rows)
  {
    PutAllKeys(s, rows);
    PutAllHolds(s, rows);
  }

  lemma BatchKeepsInverse(s: Store, rows: seq<Row>)
    requires Inverse(s) && FreshRows(s, rows)
    ensures Inverse(AddBatchTo(s, rows).0)
  {
    FirstKnownNone(s, rows);
    if FirstKnown(s, rows).None? { PutAllContents(s, rows); }
  }

  // ---- Runs ----

  datatype Op = Add(row: Row) | AddBatch(rows: seq<Row>) | Delete(userID: string, ids: seq<string>)

  function Step(s: Store, op: Op): Store {
    match op
    case Add(row) => AddTo(s, row).0
    case AddBatch(rows) => AddBatchTo(s, rows).0
    case Delete(userID, ids) => DeleteFrom(s, userID, ids)
  }

  ghost predicate FreshOp(s: Store, op: Op) {
    match op
    case Add(row) => row.id !in s.data
    case AddBatch(rows) => FreshRows(s, rows)
    case Delete(_, _) => true
  }

  function Run(s: Store, ops: seq<Op>): Store
    decreases ops
  {
    if ops == [] then s else Run(Step(s, ops[0]), ops[1..])
  }

  // Every added id is new when it is added, and no batch repeats a URL.
  ghost predicate FreshRun(s: Store, ops: seq<Op>)
    decreases ops
  {
    ops == [] || (FreshOp(s, ops[0]) && FreshRun(Step(s, ops[0]), ops[1..]))
  }

  // Ids stay, with their URL and owner; what is deleted stays deleted.
  ghost predicate Later(s: Store, t: Store) {
    forall id :: id in s.data ==>
      && id in t.data && t.data[id].originalURL == s.data[id].originalURL && t.data[id].userID == s.data[id].userID
      && (s.data[id].deleted ==> t.data[id].deleted)
  }

  /** One step: the maps stay inverse, nothing known changes but by its owner's delete, what is new is live. */
  lemma StepSafe(s: Store, op: Op)
    requires Inverse(s) && FreshOp(s, op)
    ensures Inverse(Step(s, op)) && Later(s, Step(s, op))
    ensures forall id :: id in Step(s, op).data && Step(s, op).data[id].deleted ==>
              id in s.data && (s.data[id].deleted || (op.Delete? && op.userID == s.data[id].userID && id in op.ids))
    ensures forall id :: id in Live(s) && op.Delete? && op.userID == s.data[id].userID && id in op.ids ==>
              Lookup(Step(s, op), id) == Gone
  {
    match op
    case Add(row) => AddKeepsInverse(s, row);
    case AddBatch(rows) =>
      BatchKeepsInverse(s, rows);
      FirstKnownNone(s, rows);
      if FirstKnown(s, rows).None? { PutAllContents(s, rows); }
    case Delete(_, _) =>
  }

  /** In every state a fresh run comes to, the maps are inverse, and no id has changed its URL or owner
      or come back from being deleted. */
  lemma {:induction false} RunSafe(s: Store, ops: seq<Op>)
    requires Inverse(s) && FreshRun(s, ops)
    ensures Inverse(Run(s, ops)) && Later(s, Run(s, ops))
    decreases ops
  {
    if ops != [] {
      StepSafe(s, ops[0]);
      RunSafe(Step(s, ops[0]), ops[1..]);
    }
  }

  // Some delete among the operations is by this user and names this id.
  ghost predicate DeletedBy(ops: seq<Op>, userID: string, id: string) {
    exists i :: 0 <= i < |ops| && ops[i].Delete? && ops[i].userID == userID && id in ops[i].ids
  }

  /** A live id of a run can be gone at its end only through a delete by its owner that names it. */
  lemma {:induction false} OnlyOwnerDeletes(s: Store, ops: seq<Op>, id: string)
    requires Inverse(s) && FreshRun(s, ops) && id in Live(s)
    ensures Lookup(Run(s, ops), id) ==
              if DeletedBy(ops, s.data[id].userID, id) then Gone else Found(s.data[id].originalURL)
    decreases ops
  {
    if ops != [] {
      var t := Step(s, ops[0]);
      StepSafe(s, ops[0]);
      assert forall i :: 0 <= i < |ops[1..]| ==> ops[1..][i] == ops[i + 1];
      if id in Live(t) {
        OnlyOwnerDeletes(t, ops[1..], id);
        if i :| 0 <= i < |ops| && ops[i].Delete? && ops[i].userID == s.data[id].userID && id in ops[i].ids {
          assert i > 0 && ops[1..][i - 1] == ops[i];
        }
      } else {
        RunSafe(t, ops[1..]);
        assert ops[0].Delete? && ops[0].userID == s.data[id].userID && id in ops[0].ids;
      }
    }
  }

  /** A stored URL, deleted or not, is reported as existing under the same id ever after. */
  lemma KnownForever(s: Store, ops: seq<Op>, id: string, row: Row)
    requires Inverse(s) && FreshRun(s, ops) && id in s.data && row.originalURL == s.data[id].originalURL
    ensures AddTo(Run(s, ops), row) == (Run(s, ops), AlreadyExists(id))
  {
    RunSafe(s, ops);
  }

  // ---- Conservation ----

  ghost function SumOfLists(s: Store, users: set<string>): nat {
    if users == {} then 0
    else
      var user :| user in users;
      |LiveOf(s, user)| + SumOfLists(s, users - {user})
  }

  lemma {:induction false} LiveOfUsers(s: Store, users: set<string>)
    ensures SumOfLists(s, users) == |set id | id in Live(s) && s.data[id].userID in users|
  {
    var mine := set id | id in Live(s) && s.data[id].userID in users;
    if users == {} {
      assert mine == {};
    } else {
      var user :| user in users && SumOfLists(s, users) == |LiveOf(s, user)| + SumOfLists(s, users - {user});
      var others := set id | id in Live(s) && s.data[id].userID in users - {user};
      LiveOfUsers(s, users - {user});
      assert mine == LiveOf(s, user) + others && LiveOf(s, user) !! others;
    }
  }

  /** The URL count of the statistics is the sum of the lengths of all users' lists, and the user count
      is the number of users whose list is not empty. */
  lemma StatsConserve(s: Store, users: set<string>)
    requires forall id :: id in s.data ==> s.data[id].userID in users
    ensures |Live(s)| == SumOfLists(s, users)
    ensures Owners(s) == set user | user in users && LiveOf(s, user) != {}
  {
    LiveOfUsers(s, users);
    assert Live(s) == set id | id in Live(s) && s.data[id].userID in users;
    forall user ensures user in Owners(s) <==> user in users && LiveOf(s, user) != {} {
      if user in users && LiveOf(s, user) != {} {
        var id :| id in LiveOf(s, user);
        assert id in Live(s);
      }
      if user in Owners(s) {
        var id :| id in Live(s) && s.data[id].userID == user;
        assert id in LiveOf(s, user);
      }
    }
  }
}
