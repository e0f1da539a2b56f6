/** The recycled response writer: gzip.go, the pool it comes from and goes back to, and the generated Reset
    that is to make it clean in between. */
module GzipWriter {
  import opened Optional

  // What reaches the body: a write as it is, a write through the gzip stream, the end of that stream.
  datatype Piece = Plain(data: string) | Packed(data: string) | Trailer

  // A status line goes out with the Content-Encoding header as it is at that moment.
  datatype Event = Status(code: int, encoding: Option<string>) | Body(piece: Piece)

  datatype Exchange = Exchange(headers: map<string, string>, sent: seq<Event>)

  // What a handler does with the writer it is given.
  datatype Action = SetHeader(key: string, value: string) | WriteHeader(code: int) | Write(data: string)

  datatype Mode = Unsent | Identity | Gzip

  const ENCODING := "Content-Encoding"
  const TYPE := "Content-Type"

  function Get(headers: map<string, string>, key: string): string {
    if key in headers then headers[key] else ""
  }

  function Encoding(headers: map<string, string>): Option<string> {
    if ENCODING in headers then Some(headers[ENCODING]) else None
  }

  // mime.ParseMediaType: the media type, or None for its error.
  type MediaTypes = string -> Option<string>

  predicate Compressible(media: MediaTypes, headers: map<string, string>) {
    var t := media(Get(headers, TYPE));
    t == Some("application/json") || t == Some("text/html")
  }

  // ---- A new writer ----

  function SendHeader(media: MediaTypes, m: Mode, x: Exchange, code: int): (Mode, Exchange) {
    if !m.Unsent? then (m, x)
    else if Compressible(media, x.headers) then
      var headers := x.headers[ENCODING := "gzip"];
      (Gzip, Exchange(headers, x.sent + [Status(code, Encoding(headers))]))
    else (Identity, x.(sent := x.sent + [Status(code, Encoding(x.headers))]))
  }

  function Act(media: MediaTypes, m: Mode, x: Exchange, a: Action): (Mode, Exchange) {
    match a
    case SetHeader(key, value) => (m, x.(headers := x.headers[key := value]))
    case WriteHeader(code) => SendHeader(media, m, x, code)
    case Write(data) =>
      var (n, y) := SendHeader(media, m, x, 200);
      (n, y.(sent := y.sent + [Body(if n.Gzip? then Packed(data) else Plain(data))]))
  }

  function ActAll(media: MediaTypes, m: Mode, x: Exchange, actions: seq<Action>): (Mode, Exchange)
    decreases actions
  {
    if actions == [] then (m, x)
    else
      var (n, y) := Act(media, m, x, actions[0]);
      ActAll(media, n, y, actions[1..])
  }

  function Finish(m: Mode, x: Exchange): Exchange {
    if m.Gzip? then x.(sent := x.sent + [Body(Trailer)]) else x
  }

  /** The exchange that a writer never used before makes of a handler's actions. */
  function FreshRun(media: MediaTypes, x: Exchange, actions: seq<Action>): Exchange {
    var (m, y) := ActAll(media, Unsent, x, actions);
    Finish(m, y)
  }

  // ---- Classes ----

  // The server's http.ResponseWriter.
  class Response {
    var headers: map<string, string>
    var sent: seq<Event>

    ghost function Now(): Exchange
      reads this
    {
      Exchange(headers, sent)
    }
  }

  // A gzip.Writer; the zero value has no sink.
  class GzipStream {
    var sink: Response?

    constructor (sink: Response)
      ensures this.sink == sink
    {
      this.sink := sink;
    }
  }

  class CompressWriter {
    var w: Response?
    var zw: GzipStream?
    var compressed: bool
    var wroteHeader: bool

    constructor ()
      ensures Clean()
    {
      w, zw, compressed, wroteHeader := null, null, false, false;
    }

    // All fields have their zero values.
    predicate Clean()
      reads this
    {
      w == null && zw == null && !compressed && !wroteHeader
    }

    // In use for the response r.
    predicate Serves(r: Response, m: Mode)
      reads this, if zw == null then {} else {zw}
    {
      && w == r
      && (wroteHeader <==> !m.Unsent?) && (compressed <==> m.Gzip?)
      && (zw != null <==> m.Gzip?) && (zw != null ==> zw.sink == r)
    }

    // The method in reset.gen.go: the pointer itself is kept.
    method Reset()
      modifies this, if zw == null then {} else {zw}
      ensures w == null && zw == old(zw) && !compressed && !wroteHeader
      ensures zw != null ==> zw.sink == null
    {
      w := null;
      if zw != null {
        zw.sink := null;
      }
      compressed := false;
      wroteHeader := false;
    }

    method WriteHeader(code: int, media: MediaTypes, ghost r: Response, ghost m: Mode) returns (ghost n: Mode)
      requires Serves(r, m)
      modifies this, r
      ensures (n, r.Now()) == SendHeader(media, m, old(r.Now()), code) && Serves(r, n)
      ensures old(wroteHeader) ==> r.Now() == old(r.Now())
      ensures !old(wroteHeader) ==>
                && |r.sent| == |old(r.sent)| + 1 && r.sent[..|old(r.sent)|] == old(r.sent)
                && StatusLine(media, old(r.headers), Action.WriteHeader(code), r.sent[|old(r.sent)|])
      ensures zw != null ==> zw == old(zw) || fresh(zw)
    {
      n := SendHeader(media, m, r.Now(), code).0;
      if wroteHeader {
        return;
      }
      wroteHeader := true;
      if Compressible(media, w.headers) {
        w.headers := w.headers[ENCODING := "gzip"];
        compressed := true;
        zw := new GzipStream(w);
      }
      w.sent := w.sent + [Status(code, Encoding(w.headers))];
    }

    method Write(data: string, media: MediaTypes, ghost r: Response, ghost m: Mode) returns (ghost n: Mode)
      requires Serves(r, m)
      modifies this, r
      ensures (n, r.Now()) == Act(media, m, old(r.Now()), Action.Write(data)) && Serves(r, n)
      ensures r.sent != [] && r.sent[|r.sent| - 1] == Body(if compressed then Packed(data) else Plain(data))
      ensures if old(wroteHeader) then r.sent[..|r.sent| - 1] == old(r.sent)
              else
                && |r.sent| == |old(r.sent)| + 2 && r.sent[..|old(r.sent)|] == old(r.sent)
                && StatusLine(media, old(r.headers), Action.Write(data), r.sent[|old(r.sent)|])
      ensures zw != null ==> zw == old(zw) || fresh(zw)
    {
      n := m;
      if !wroteHeader {
        n := WriteHeader(200, media, r, m);
      }
      if compressed {
        zw.sink.sent := zw.sink.sent + [Body(Packed(data))];
      } else {
        w.sent := w.sent + [Body(Plain(data))];
      }
    }

    // What is put back is clean because the gzip stream is dropped first: Reset would keep the pointer.
    method Close(pool: Pool, ghost r: Response, ghost m: Mode)
      requires Serves(r, m) && pool.Valid() && this !in pool.items
      modifies this, r, pool
      ensures r.Now() == Finish(m, old(r.Now()))
      ensures pool.Valid() && pool.items == old(pool.items) + {this}
    {
      if compressed && zw != null {
        zw.sink.sent := zw.sink.sent + [Body(Trailer)];
        zw := null;
        w := null;
        pool.Put(this);
        return;
      }
      w := null;
      pool.Put(this);
    }
  }

  class Pool {
    var items: set<CompressWriter>

    ghost predicate Valid()
      reads this, items
    {
      forall x :: x in items ==> x.Clean()
    }

    constructor ()
      ensures Valid() && items == {}
    {
      items := {};
    }

    // sync.Pool hands out any pooled object, or calls New.
    method Get() returns (x: CompressWriter)
      requires Valid()
      modifies this
      ensures Valid() && x.Clean() && x !in items
      ensures items == old(items) - {x} && (x in old(items) || fresh(x))
    {
      if * {
        if y :| y in items {
          items := items - {y};
          return y;
        }
      }
      x := new CompressWriter();
    }

    /** Reset, then back into the pool. The object that goes back is all zero exactly when it came without
        a gzip stream. */
    method Put(x: CompressWriter)
      modifies this, x, if x.zw == null then {} else {x.zw}
      ensures items == old(items) + {x}
      ensures x.Clean() <==> old(x.zw) == null
      ensures forall y: CompressWriter :: y in old(items) && y != x && old(y.Clean()) ==> y.Clean()
    {
      x.Reset();
      items := items + {x};
    }
  }

  // newCompressWriter
  method NewCompressWriter(pool: Pool, r: Response) returns (cw: CompressWriter)
    requires pool.Valid()
    modifies pool, pool.items
    ensures cw.Serves(r, Unsent)
    ensures pool.Valid() && pool.items == old(pool.items) - {cw} && (cw in old(pool.items) || fresh(cw))
  {
    cw := pool.Get();
    cw.w := r;
  }

  // A handler at work on its writer.
  method Handle(cw: CompressWriter, r: Response, actions: seq<Action>, media: MediaTypes) returns (ghost m: Mode)
    requires cw.Serves(r, Unsent)
    modifies cw, r
    ensures (m, r.Now()) == ActAll(media, Unsent, old(r.Now()), actions)
    ensures cw.Serves(r, m) && (cw.zw != null ==> fresh(cw.zw))
  {
    m := Unsent;
    var i := 0;
    while i < |actions|
      invariant i <= |actions|
      invariant cw.Serves(r, m) && (cw.zw != null ==> fresh(cw.zw))
      invariant ActAll(media, m, r.Now(), actions[i..]) == ActAll(media, Unsent, old(r.Now()), actions)
    {
      assert actions[i..][1..] == actions[i + 1..];
      match actions[i] {
        case SetHeader(key, value) => r.headers := r.headers[key := value];
        case WriteHeader(code) => m := cw.WriteHeader(code, media, r, m);
        case Write(data) => m := cw.Write(data, media, r, m);
      }
      i := i + 1;
    }
  }

  /** One request: whatever writer the pool hands out, the response is that of a new one, and the pool holds
      clean writers again. */
  method Serve(pool: Pool, r: Response, actions: seq<Action>, media: MediaTypes)
    requires pool.Valid()
    modifies pool, pool.items, r
    ensures r.Now() == FreshRun(media, old(r.Now()), actions)
    ensures pool.Valid() && fresh(pool.items - old(pool.items))
  {
    var cw := NewCompressWriter(pool, r);
    ghost var m := Handle(cw, r, actions, media);
    cw.Close(pool, r, m);
  }

  datatype Request = Request(response: Response, actions: seq<Action>)

  /** Any sequence of requests: each response is the one a writer of its own would have given. */
  method ServeAll(pool: Pool, requests: seq<Request>, media: MediaTypes)
    requires pool.Valid()
    requires forall i, j :: 0 <= i < j < |requests| ==> requests[i].response != requests[j].response
    modifies pool, pool.items, set q | q in requests :: q.response
    ensures pool.Valid()
    ensures forall i :: 0 <= i < |requests| ==>
              requests[i].response.Now() == FreshRun(media, old(requests[i].response.Now()), requests[i].actions)
  {
    var i := 0;
    while i < |requests|
      invariant i <= |requests|
      invariant pool.Valid() && fresh(pool.items - old(pool.items))
      invariant forall j :: 0 <= j < i ==>
                  requests[j].response.Now() == FreshRun(media, old(requests[j].response.Now()), requests[j].actions)
      invariant forall j :: i <= j < |requests| ==> requests[j].response.Now() == old(requests[j].response.Now())
    {
      Serve(pool, requests[i].response, requests[i].actions, media);
      i := i + 1;
    }
  }

  // ---- What a response looks like ----

  function Written(actions: seq<Action>): string {
    if actions == [] then ""
    else (if actions[0].Write? then actions[0].data else "") + Written(actions[1..])
  }

  // The payloads of the pieces of a body.
  function Payload(sent: seq<Event>): string {
    if sent == [] then ""
    else (if sent[0].Body? && !sent[0].piece.Trailer? then sent[0].piece.data else "") + Payload(sent[1..])
  }

  // One status line, then pieces of the body, all of the one kind.
  predicate WellFormed(m: Mode, sent: seq<Event>) {
    if m.Unsent? then sent == []
    else
      && sent != [] && sent[0].Status?
      && forall i :: 0 < i < |sent| ==> sent[i].Body? && if m.Gzip? then sent[i].piece.Packed? else sent[i].piece.Plain?
  }

  lemma {:induction false} PayloadConcat(a: seq<Event>, b: seq<Event>)
    ensures Payload(a + b) == Payload(a) + Payload(b)
  {
    if a == [] {
      assert a + b == b;
    } else {
      assert (a + b)[1..] == a[1..] + b;
      PayloadConcat(a[1..], b);
    }
  }

  lemma PayloadOne(e: Event)
    ensures Payload([e]) == if e.Body? && !e.piece.Trailer? then e.piece.data else ""
  {
    assert [e][1..] == [];
  }

  lemma ActForm(media: MediaTypes, m: Mode, x: Exchange, a: Action)
    requires WellFormed(m, x.sent)
    ensures var (n, y) := Act(media, m, x, a);
            && WellFormed(n, y.sent) && x.sent <= y.sent && (m.Unsent? || n == m)
            && Payload(y.sent) == Payload(x.sent) + (if a.Write? then a.data else "")
  {
    var (n, y) := SendHeader(media, m, x, if a.WriteHeader? then a.code else 200);
    if m.Unsent? {
      PayloadOne(y.sent[0]);
      assert y.sent == [y.sent[0]];
    }
    if a.Write? {
      var piece := Body(if n.Gzip? then Packed(a.data) else Plain(a.data));
      PayloadConcat(y.sent, [piece]);
      PayloadOne(piece);
    }
  }

  lemma {:induction false} ActAllForm(media: MediaTypes, m: Mode, x: Exchange, actions: seq<Action>)
    requires WellFormed(m, x.sent)
    ensures var (n, y) := ActAll(media, m, x, actions);
            && WellFormed(n, y.sent) && x.sent <= y.sent && (m.Unsent? || n == m)
            && Payload(y.sent) == Payload(x.sent) + Written(actions)
    decreases actions
  {
    if actions != [] {
      ActForm(media, m, x, actions[0]);
      var (n, y) := Act(media, m, x, actions[0]);
      ActAllForm(media, n, y, actions[1..]);
    }
  }

  // What the client reads: a gzip stream must be complete, and its end the last thing sent.
  predicate Decodes(sent: seq<Event>, text: string) {
    && Payload(sent) == text
    && (sent == []
        || (sent[0].Status?
            && ((forall i :: 0 < i < |sent| ==> sent[i].Body? && sent[i].piece.Plain?)
                || (&& sent[0].encoding == Some("gzip") && |sent| > 1 && sent[|sent| - 1] == Body(Trailer)
                    && forall i :: 0 < i < |sent| - 1 ==> sent[i].Body? && sent[i].piece.Packed?))))
  }

  // The status line tells the encoding of a compressed body.
  predicate Labelled(m: Mode, sent: seq<Event>) {
    m.Gzip? ==> sent != [] && sent[0].Status? && sent[0].encoding == Some("gzip")
  }

  lemma {:induction false} ActAllLabels(media: MediaTypes, m: Mode, x: Exchange, actions: seq<Action>)
    requires WellFormed(m, x.sent) && Labelled(m, x.sent)
    ensures var (n, y) := ActAll(media, m, x, actions); Labelled(n, y.sent)
    decreases actions
  {
    if actions != [] {
      ActForm(media, m, x, actions[0]);
      var (n, y) := Act(media, m, x, actions[0]);
      ActAllLabels(media, n, y, actions[1..]);
    }
  }

  /** On a new response: at most one status line and it comes before any byte of the body; the body is
      compressed, whole, and labelled so, or passed on as it is; decoded it is the concatenation of the
      handler's writes. */
  lemma ResponseForm(media: MediaTypes, headers: map<string, string>, actions: seq<Action>)
    ensures var y := FreshRun(media, Exchange(headers, []), actions);
            && Decodes(y.sent, Written(actions))
            && forall i :: 0 < i < |y.sent| ==> y.sent[i].Body?
  {
    var x := Exchange(headers, []);
    ActAllForm(media, Unsent, x, actions);
    ActAllLabels(media, Unsent, x, actions);
    var (m, y) := ActAll(media, Unsent, x, actions);
    if m.Gzip? {
      PayloadConcat(y.sent, [Body(Trailer)]);
      PayloadOne(Body(Trailer));
    }
  }

  function HandlerHeaders(headers: map<string, string>, actions: seq<Action>): map<string, string>
    decreases actions
  {
    if actions == [] then headers
    else if actions[0].SetHeader? then HandlerHeaders(headers[actions[0].key := actions[0].value], actions[1..])
    else HandlerHeaders(headers, actions[1..])
  }

  // The first action that sends the header.
  predicate Sends(a: Action) {
    !a.SetHeader?
  }

  // Whether a response with these headers has the type JSON or HTML.
  predicate IsPacked(media: MediaTypes, headers: map<string, string>) {
    var t := media(if "Content-Type" in headers then headers["Content-Type"] else "");
    t == Some("application/json") || t == Some("text/html")
  }

  /** What goes out when the handler first writes or sends a header, having set `known` by then: its status, 200
      for a write, and the writer's own Content-Encoding if the response is packed, otherwise the handler's. */
  ghost predicate StatusLine(media: MediaTypes, known: map<string, string>, first: Action, line: Event) {
    && line.Status?
    && line.code == (if first.WriteHeader? then first.code else 200)
    && line.encoding == (if IsPacked(media, known) then Some("gzip")
                         else if "Content-Encoding" in known then Some(known["Content-Encoding"])
                         else None)
  }

  /** The status line is that of the first action that sends one; the body after it is packed exactly when the
      type that the handler has set by then is JSON or HTML. */
  lemma {:induction false} EncodingSet(media: MediaTypes, headers: map<string, string>, before: seq<Action>,
                                       first: Action, after: seq<Action>)
    requires Sends(first) && forall a :: a in before ==> !Sends(a)
    ensures var y := FreshRun(media, Exchange(headers, []), before + [first] + after);
            var known := HandlerHeaders(headers, before);
            && y.sent != [] && StatusLine(media, known, first, y.sent[0])
            && forall i :: 0 < i < |y.sent| ==> y.sent[i].Body? && (y.sent[i].piece.Plain? <==> !IsPacked(media, known))
    decreases before
  {
    var actions := before + [first] + after;
    var x := Exchange(headers, []);
    if before == [] {
      assert actions[0] == first && actions[1..] == after;
      ActForm(media, Unsent, x, first);
      var (n, y) := Act(media, Unsent, x, first);
      ActAllForm(media, n, y, after);
    } else {
      assert before[0] in before;
      assert actions[0] == before[0] && actions[1..] == before[1..] + [first] + after;
      EncodingSet(media, headers[before[0].key := before[0].value], before[1..], first, after);
    }
  }

  /** A handler that neither writes nor sends a header sends nothing. */
  lemma {:induction false} NothingSent(media: MediaTypes, headers: map<string, string>, actions: seq<Action>)
    requires forall a :: a in actions ==> !Sends(a)
    ensures FreshRun(media, Exchange(headers, []), actions).sent == []
    decreases actions
  {
    if actions != [] {
      assert actions[0] in actions;
      NothingSent(media, headers[actions[0].key := actions[0].value], actions[1..]);
    }
  }
}
