/** The shortening service on top of the store: short URLs are built from ids and lead back to them. */
module Services {
  import opened Optional
  import opened Stores
  import opened Strings
  import Ids

  datatype CreateResult = NoUser | EmptyURL | Created(shortURL: string) | Duplicate(shortURL: string)

  datatype BatchRequest = BatchRequest(correlationID: string, originalURL: string)

  datatype BatchResponse = BatchResponse(correlationID: string, shortURL: string)

  datatype BatchResult =
    | EmptyBatch
    | BatchEmptyURL
    | BatchRefused(existingID: string)
    | BatchCreated(items: seq<BatchResponse>)

  // ---- Strings ----

  // strings.TrimRight(s, "/")
  function TrimSlashes(s: string): string {
    if s != "" && s[|s| - 1] == '/' then TrimSlashes(s[..|s| - 1]) else s
  }

  function Base(showAddr: string, scheme: string, host: string): string {
    TrimSlashes(if showAddr != "" then showAddr else (if scheme == "" then "http" else scheme) + "://" + host)
  }

  // getURLFromID
  function ShortURL(showAddr: string, scheme: string, host: string, id: string): string {
    Base(showAddr, scheme, host) + "/" + id
  }

  /** `url` is the configured address, or scheme and host when there is none, without the slashes at its end,
      and then the id after one slash. */
  ghost predicate Addresses(url: string, showAddr: string, scheme: string, host: string, id: string) {
    exists base, n: nat ::
      && base + Slashes(n)
         == (if showAddr != "" then showAddr else (if scheme == "" then "http" else scheme) + "://" + host)
      && (base != "" ==> base[|base| - 1] != '/')
      && url == base + "/" + id
  }

  function Slashes(n: nat): string {
    if n == 0 then "" else Slashes(n - 1) + "/"
  }

  lemma {:induction false} TrimmedAddress(s: string) returns (n: nat)
    ensures TrimSlashes(s) + Slashes(n) == s
    ensures TrimSlashes(s) != "" ==> TrimSlashes(s)[|TrimSlashes(s)| - 1] != '/'
  {
    n := 0;
    if s != "" && s[|s| - 1] == '/' {
      var m := TrimmedAddress(s[..|s| - 1]);
      n := m + 1;
      assert TrimSlashes(s) + (Slashes(m) + "/") == TrimSlashes(s) + Slashes(m) + "/";
    }
  }

  lemma {:induction false} TrimAppended(base: string, n: nat)
    requires base != "" ==> base[|base| - 1] != '/'
    ensures TrimSlashes(base + Slashes(n)) == base
  {
    if n == 0 {
      assert base + "" == base;
    } else {
      TrimAppended(base, n - 1);
      assert (base + Slashes(n))[..|base + Slashes(n)| - 1] == base + Slashes(n - 1);
    }
  }

  /** There is exactly one such URL, and it is the one that the service builds. */
  lemma ShortURLExactly(url: string, showAddr: string, scheme: string, host: string, id: string)
    ensures Addresses(url, showAddr, scheme, host, id) <==> url == ShortURL(showAddr, scheme, host, id)
  {
    var full := if showAddr != "" then showAddr else (if scheme == "" then "http" else scheme) + "://" + host;
    var m := TrimmedAddress(full);
    assert TrimSlashes(full) + Slashes(m) == full;
    if Addresses(url, showAddr, scheme, host, id) {
      var base, n: nat :| base + Slashes(n) == full && (base != "" ==> base[|base| - 1] != '/')
                          && url == base + "/" + id;
      TrimAppended(base, n);
    }
  }

  function AfterLastSlash(url: string): string {
    if url == "" || url[|url| - 1] == '/' then "" else AfterLastSlash(url[..|url| - 1]) + [url[|url| - 1]]
  }

  /** The text after the last slash of a short URL is its id, whatever the configured base looks like. */
  lemma {:induction false} IdRecovered(base: string, id: string)
    requires '/' !in id
    ensures AfterLastSlash(base + "/" + id) == id
    decreases id
  {
    var url := base + "/" + id;
    if id != "" {
      IdRecovered(base, id[..|id| - 1]);
      assert url[..|url| - 1] == base + "/" + id[..|id| - 1];
    }
  }

  // ---- The service ----

  class Service {
    const store: MemStore
    const showAddr: string
    const idSize: nat

    constructor (store: MemStore, showAddr: string, idSize: nat)
      ensures this.store == store && this.showAddr == showAddr && this.idSize == idSize
    {
      this.store, this.showAddr, this.idSize := store, showAddr, idSize;
    }

    /** `userID` is what the request's context holds, `random` what the generator reads. */
    method CreateShortURL(original: string, scheme: string, host: string, userID: Option<string>, random: seq<Ids.Byte>)
      returns (result: CreateResult)
      requires |random| == idSize
      modifies store
      ensures (store.Contents(), result)
           == Create(old(store.Contents()), showAddr, scheme, host, original, userID, Ids.IdOf(random))
      ensures result.Created? ==> Addresses(result.shortURL, showAddr, scheme, host, Ids.IdOf(random))
      ensures result.Duplicate? ==>
                && TrimSpace(original) in old(store.urlToID)
                && Addresses(result.shortURL, showAddr, scheme, host, old(store.urlToID)[TrimSpace(original)])
    {
      if userID.None? {
        return NoUser;
      }
      var trimmed := TrimSpace(original);
      if trimmed == "" {
        return EmptyURL;
      }
      var id := Ids.GenerateID(idSize, random);
      var added := store.Add(Row(id, trimmed, userID.value));
      var shortURL := ShortURL(showAddr, scheme, host, if added.AlreadyExists? then added.existingID else id);
      ShortURLExactly(shortURL, showAddr, scheme, host, if added.AlreadyExists? then added.existingID else id);
      if added.AlreadyExists? {
        return Duplicate(shortURL);
      }
      return Created(shortURL);
    }

    // One id is generated for each request, until an empty URL ends the loop.
    method CreateShortURLsBatch(req: seq<BatchRequest>, scheme: string, host: string, randoms: seq<seq<Ids.Byte>>)
      returns (result: BatchResult)
      requires |randoms| == |req| && forall i :: 0 <= i < |randoms| ==> |randoms[i]| == idSize
      modifies store
      ensures (store.Contents(), result)
           == CreateBatch(old(store.Contents()), showAddr, scheme, host, req, IdsOf(randoms))
      ensures result.BatchCreated? ==>
                && |result.items| == |req|
                && forall i :: 0 <= i < |req| ==>
                     && result.items[i].correlationID == req[i].correlationID
                     && Addresses(result.items[i].shortURL, showAddr, scheme, host, Ids.IdOf(randoms[i]))
    {
      if |req| == 0 {
        return EmptyBatch;
      }
      var items: seq<Row> := [];
      var resp: seq<BatchResponse> := [];
      var i := 0;
      while i < |req|
        invariant i <= |req|
        invariant forall j :: 0 <= j < i ==> req[j].originalURL != ""
        invariant items == BatchRows(req, IdsOf(randoms))[..i]
        invariant resp == Responses(showAddr, scheme, host, req, IdsOf(randoms))[..i]
        invariant store.Contents() == old(store.Contents())
      {
        if req[i].originalURL == "" {
          return BatchEmptyURL;
        }
        var id := Ids.GenerateID(idSize, randoms[i]);
        items := items + [Row(id, req[i].originalURL, "")];
        resp := resp + [BatchResponse(req[i].correlationID, ShortURL(showAddr, scheme, host, id))];
        i := i + 1;
      }
      assert items == BatchRows(req, IdsOf(randoms));
      var added := store.AddBatch(items);
      if added.AlreadyExists? {
        return BatchRefused(added.existingID);
      }
      assert resp == Responses(showAddr, scheme, host, req, IdsOf(randoms));
      forall i | 0 <= i < |req| {
        ShortURLExactly(resp[i].shortURL, showAddr, scheme, host, Ids.IdOf(randoms[i]));
      }
      return BatchCreated(resp);
    }

    method GetOriginalURL(id: string) returns (result: GetResult)
      ensures result == Lookup(store.Contents(), id)
    {
      result := store.Get(id);
    }

    method GetUserURLs(userID: Option<string>, scheme: string, host: string) returns (result: Option<seq<UserURL>>)
      ensures result.None? <==> userID.None?
      ensures result.Some? ==>
                exists rows :: Lists(rows, store.Contents(), LiveOf(store.Contents(), userID.value))
                  && Shown(result.value, rows, showAddr, scheme, host)
    {
      if userID.None? {
        return None;
      }
      var rows := store.GetUserURLs(userID.value);
      var list: seq<UserURL> := [];
      var i := 0;
      while i < |rows|
        invariant i <= |rows|
        invariant Shown(list, rows[..i], showAddr, scheme, host)
      {
        var shortURL := ShortURL(showAddr, scheme, host, rows[i].shortURL);
        ShortURLExactly(shortURL, showAddr, scheme, host, rows[i].shortURL);
        list := list + [UserURL(shortURL, rows[i].originalURL)];
        i := i + 1;
      }
      assert rows[..i] == rows;
      return Some(list);
    }
  }

  // The rows in order, each id as its short URL.
  ghost predicate Shown(list: seq<UserURL>, rows: seq<UserURL>, showAddr: string, scheme: string, host: string) {
    && |list| == |rows|
    && forall i :: 0 <= i < |list| ==>
         && Addresses(list[i].shortURL, showAddr, scheme, host, rows[i].shortURL)
         && list[i].originalURL == rows[i].originalURL
  }

  function Create(s: Store, showAddr: string, scheme: string, host: string, original: string, userID: Option<string>,
                  id: string)
    : (Store, CreateResult)
  {
    if userID.None? then (s, NoUser)
    else if TrimSpace(original) == "" then (s, EmptyURL)
    else
      var (t, added) := AddTo(s, Row(id, TrimSpace(original), userID.value));
      match added
      case Added => (t, Created(ShortURL(showAddr, scheme, host, id)))
      case AlreadyExists(existing) => (t, Duplicate(ShortURL(showAddr, scheme, host, existing)))
  }

  function IdsOf(randoms: seq<seq<Ids.Byte>>): seq<string> {
    seq(|randoms|, i requires 0 <= i < |randoms| => Ids.IdOf(randoms[i]))
  }

  // Rows of a batch carry no user.
  function BatchRows(req: seq<BatchRequest>, ids: seq<string>): seq<Row>
    requires |ids| == |req|
  {
    seq(|req|, i requires 0 <= i < |req| => Row(ids[i], req[i].originalURL, ""))
  }

  function Responses(showAddr: string, scheme: string, host: string, req: seq<BatchRequest>, ids: seq<string>)
    : seq<BatchResponse>
    requires |ids| == |req|
  {
    seq(|req|, i requires 0 <= i < |req| =>
          BatchResponse(req[i].correlationID, ShortURL(showAddr, scheme, host, ids[i])))
  }

  function CreateBatch(s: Store, showAddr: string, scheme: string, host: string, req: seq<BatchRequest>,
                       ids: seq<string>)
    : (Store, BatchResult)
    requires |ids| == |req|
  {
    if req == [] then (s, EmptyBatch)
    else if exists i :: 0 <= i < |req| && req[i].originalURL == "" then (s, BatchEmptyURL)
    else
      var (t, added) := AddBatchTo(s, BatchRows(req, ids));
      match added
      case Added => (t, BatchCreated(Responses(showAddr, scheme, host, req, ids)))
      case AlreadyExists(existing) => (t, BatchRefused(existing))
  }

  // ---- From a short URL back to the original ----

  // What generated ids guarantee of every stored id.
  ghost predicate SlashFree(s: Store) {
    forall id :: id in s.data ==> '/' !in id
  }

  lemma GeneratedSlashFree(random: seq<Ids.Byte>)
    ensures '/' !in Ids.IdOf(random)
  {
    assert !Ids.IsLetter('/');
  }

  /** `url` leads to the original URL, in this state and in every later one, until a delete by its owner;
      once deleted it is gone for ever. */
  ghost predicate Resolves(s: Store, url: string, original: string) {
    var id := AfterLastSlash(url);
    && id in s.data && s.data[id].originalURL == original
    && forall ops :: FreshRun(s, ops) ==>
         Lookup(Run(s, ops), id)
           == if id in Live(s) && !DeletedBy(ops, s.data[id].userID, id) then Found(original) else Gone
  }

  lemma StoredResolves(s: Store, base: string, id: string)
    requires Inverse(s) && id in s.data && '/' !in id
    ensures Resolves(s, base + "/" + id, s.data[id].originalURL)
  {
    IdRecovered(base, id);
    forall ops | FreshRun(s, ops)
      ensures Lookup(Run(s, ops), id)
           == if id in Live(s) && !DeletedBy(ops, s.data[id].userID, id) then Found(s.data[id].originalURL) else Gone {
      if id in Live(s) { OnlyOwnerDeletes(s, ops, id); } else { RunSafe(s, ops); }
    }
  }

  // The URL leads to an id that has not been deleted.
  predicate LeadsToLive(s: Store, url: string) {
    AfterLastSlash(url) in Live(s)
  }

  // The only new entry of t is this one.
  ghost predicate Gains(s: Store, t: Store, id: string, info: UrlInfo) {
    t.data.Keys == s.data.Keys + {id} && t.data[id] == info
  }

  /** Which answer CreateShortURL gives: a new URL is stored under the generated id for its user, a known one
      is answered with the id that it has. The returned URL resolves to the trimmed original; a new one is
      live at once. */
  lemma {:induction false} CreateResolves(s: Store, showAddr: string, scheme: string, host: string, original: string,
                                          userID: Option<string>, random: seq<Ids.Byte>)
    requires Inverse(s) && SlashFree(s) && Ids.IdOf(random) !in s.data
    ensures var (t, result) := Create(s, showAddr, scheme, host, original, userID, Ids.IdOf(random));
            && Inverse(t) && SlashFree(t)
            && (result.Created? ==>
                  && Resolves(t, result.shortURL, TrimSpace(original)) && LeadsToLive(t, result.shortURL)
                  && Addresses(result.shortURL, showAddr, scheme, host, Ids.IdOf(random)) && userID.Some?
                  && Gains(s, t, Ids.IdOf(random), UrlInfo(TrimSpace(original), userID.value, false)))
            && (result.Duplicate? ==>
                  && t == s && Resolves(t, result.shortURL, TrimSpace(original)) && TrimSpace(original) in s.urlToID
                  && Addresses(result.shortURL, showAddr, scheme, host, s.urlToID[TrimSpace(original)]))
            && (result.NoUser? || result.EmptyURL? ==> t == s)
            && (result.NoUser? <==> userID.None?)
            && (result.EmptyURL? <==> userID.Some? && TrimSpace(original) == "")
            && (result.Created? ==> TrimSpace(original) !in s.urlToID)
  {
    var trimmed := TrimSpace(original);
    var result := Create(s, showAddr, scheme, host, original, userID, Ids.IdOf(random)).1;
    if result.Created? { ShortURLExactly(result.shortURL, showAddr, scheme, host, Ids.IdOf(random)); }
    if result.Duplicate? { ShortURLExactly(result.shortURL, showAddr, scheme, host, s.urlToID[trimmed]); }
    if userID.Some? && trimmed != "" {
      GeneratedSlashFree(random);
      var row := Row(Ids.IdOf(random), trimmed, userID.value);
      AddKeepsInverse(s, row);
      var t := AddTo(s, row).0;
      var stored := t.urlToID[trimmed];
      StoredResolves(t, Base(showAddr, scheme, host), stored);
      IdRecovered(Base(showAddr, scheme, host), stored);
    }
  }

  lemma {:induction false} BatchSlashFree(s: Store, rows: seq<Row>)
    requires SlashFree(s) && FreshRows(s, rows) && forall i :: 0 <= i < |rows| ==> '/' !in rows[i].id
    requires AddBatchTo(s, rows).1.Added?
    ensures SlashFree(AddBatchTo(s, rows).0)
    ensures forall i :: 0 <= i < |rows| ==> Holds(AddBatchTo(s, rows).0, rows[i])
  {
    FirstKnownNone(s, rows);
    PutAllContents(s, rows);
    var t := PutAll(s, rows);
    forall id | id in t.data ensures '/' !in id {
      if id !in s.data {
        assert id in Stores.Ids(rows);
      }
    }
  }

  lemma RowResolves(t: Store, base: string, row: Row)
    requires Inverse(t) && Holds(t, row) && '/' !in row.id
    ensures Resolves(t, base + "/" + row.id, row.originalURL) && LeadsToLive(t, base + "/" + row.id)
  {
    StoredResolves(t, base, row.id);
    IdRecovered(base, row.id);
  }

  lemma {:induction false} BatchAnswer(s: Store, showAddr: string, scheme: string, host: string,
                                       req: seq<BatchRequest>, ids: seq<string>)
    requires |ids| == |req|
    ensures var result := CreateBatch(s, showAddr, scheme, host, req, ids).1;
            && (result == EmptyBatch <==> req == [])
            && (result == BatchEmptyURL <==> Asks(req, ""))
            && (result.BatchRefused? <==> !Asks(req, "") && exists url :: Asks(req, url) && url in s.urlToID)
            && (result.BatchRefused? ==>
                  exists i: nat :: FirstStored(s, BatchRows(req, ids), i)
                    && result.existingID == s.urlToID[req[i].originalURL])
  {
    var rows := BatchRows(req, ids);
    FirstKnownNone(s, rows);
    var added := AddBatchTo(s, rows).1;
    if added.AlreadyExists? { RefusedWith(s, rows, added.existingID); }
    if url :| Asks(req, url) && url in s.urlToID {
      var i :| 0 <= i < |req| && req[i].originalURL == url;
      assert rows[i].originalURL == url;
    }
    if i: nat :| FirstStored(s, rows, i) { assert Asks(req, req[i].originalURL); }
  }

  // Some request of the batch has this URL.
  ghost predicate Asks(req: seq<BatchRequest>, url: string) {
    exists i :: 0 <= i < |req| && req[i].originalURL == url
  }

  // One entry of the answer: its request's correlation id, the generated id's URL, stored for no user.
  ghost predicate Answered(t: Store, showAddr: string, scheme: string, host: string, request: BatchRequest, id: string,
                           item: BatchResponse)
  {
    && item.correlationID == request.correlationID
    && Addresses(item.shortURL, showAddr, scheme, host, id)
    && id in t.data && t.data[id] == UrlInfo(request.originalURL, "", false)
    && Resolves(t, item.shortURL, request.originalURL) && LeadsToLive(t, item.shortURL)
  }

  /** Which answer a batch gets: it is refused, and nothing stored, if it is empty, has an empty URL, or has a
      known one, with the id of the first known; otherwise it is answered in request order, and the URL at each
      position resolves to the original at that position and is live at once. */
  lemma {:induction false} BatchResolves(s: Store, showAddr: string, scheme: string, host: string,
                                         req: seq<BatchRequest>,
                                         randoms: seq<seq<Ids.Byte>>)
    requires Inverse(s) && SlashFree(s) && |randoms| == |req| && FreshRows(s, BatchRows(req, IdsOf(randoms)))
    ensures var (t, result) := CreateBatch(s, showAddr, scheme, host, req, IdsOf(randoms));
            && Inverse(t) && SlashFree(t)
            && (!result.BatchCreated? ==> t == s)
            && (result == EmptyBatch <==> req == [])
            && (result == BatchEmptyURL <==> Asks(req, ""))
            && (result.BatchRefused? <==> !Asks(req, "") && exists url :: Asks(req, url) && url in s.urlToID)
            && (result.BatchRefused? ==>
                  exists i: nat :: FirstStored(s, BatchRows(req, IdsOf(randoms)), i)
                    && result.existingID == s.urlToID[req[i].originalURL])
            && (result.BatchCreated? ==>
                  && |result.items| == |req|
                  && forall i :: 0 <= i < |req| ==>
                       Answered(t, showAddr, scheme, host, req[i], Ids.IdOf(randoms[i]), result.items[i]))
  {
    var (t, result) := CreateBatch(s, showAddr, scheme, host, req, IdsOf(randoms));
    var rows := BatchRows(req, IdsOf(randoms));
    BatchKeepsInverse(s, rows);
    BatchAnswer(s, showAddr, scheme, host, req, IdsOf(randoms));
    if result.BatchCreated? {
      forall i | 0 <= i < |rows| ensures '/' !in rows[i].id {
        GeneratedSlashFree(randoms[i]);
      }
      BatchSlashFree(s, rows);
      forall i | 0 <= i < |req|
        ensures Answered(t, showAddr, scheme, host, req[i], Ids.IdOf(randoms[i]), result.items[i]) {
        assert Holds(t, rows[i]);
        RowResolves(t, Base(showAddr, scheme, host), rows[i]);
        ShortURLExactly(result.items[i].shortURL, showAddr, scheme, host, Ids.IdOf(randoms[i]));
      }
    }
  }
}
