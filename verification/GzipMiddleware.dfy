/** The middleware around a handler: which responses are compressed, which request bodies are unpacked, and
    the recycled reader that unpacks them. */
module GzipMiddleware {
  import opened Optional
  import opened GzipWriter
  import opened Headers

  // How a gzip stream ends: as it should, with a checksum that does not match, or damaged before its end.
  datatype Ending = Whole | BadChecksum | Corrupt

  // What a body reads as: its text up to the end, or up to the point where it is damaged.
  datatype Stream = Stream(text: string, ending: Ending)

  // gzip.NewReader and the reads that follow; None when the data does not start with a gzip header.
  type Gunzip = string -> Option<Stream>

  // A handler answers what it reads from the request.
  type Handler = Stream -> seq<Action>

  // ---- The recycled reader ----

  class RequestBody {
    const data: string
    const closes: bool
    var closed: bool

    constructor (data: string, closes: bool)
      ensures this.data == data && this.closes == closes && !closed
    {
      this.data, this.closes, closed := data, closes, false;
    }
  }

  // A gzip.Reader; the zero value has no source. `broken` is an error of its decompressor, which knows nothing
  // of checksums.
  class GzipReader {
    var source: RequestBody?
    var rest: string
    var ending: Ending
    var broken: bool

    constructor (source: RequestBody, stream: Stream)
      ensures this.source == source && rest == stream.text && ending == stream.ending && !broken
    {
      this.source, rest, ending, broken := source, stream.text, stream.ending, false;
    }

    // At the end of the text there is nothing more to read, and the reader learns how the stream ends.
    method Read(size: nat) returns (chunk: string, end: Ending)
      requires size > 0
      modifies this`rest, this`broken
      ensures chunk + rest == old(rest) && |chunk| <= size && (chunk == "" <==> old(rest) == "")
      ensures chunk == "" ==> end == ending
      ensures broken <==> old(broken) || (old(rest) == "" && ending.Corrupt?)
    {
      if rest == "" {
        broken := broken || ending.Corrupt?;
        return "", ending;
      }
      var n :| 0 < n <= |rest| && n <= size;
      chunk, end := rest[..n], Whole;
      rest := rest[n..];
    }
  }

  class CompressReader {
    var r: RequestBody?
    var zr: GzipReader?

    constructor ()
      ensures Clean()
    {
      r, zr := null, null;
    }

    // All fields have their zero values.
    predicate Clean()
      reads this
    {
      r == null && zr == null
    }

    predicate Unpacks(body: RequestBody)
      reads this, if zr == null then {} else {zr}
    {
      r == body && zr != null && zr.source == body
    }

    // The method in reset.gen.go: the pointer itself is kept.
    method Reset()
      modifies this, if zr == null then {} else {zr}
      ensures r == null && zr == old(zr)
      ensures zr != null ==> zr.source == null && zr.rest == ""
    {
      r := null;
      if zr != null {
        zr.source, zr.rest, zr.ending, zr.broken := null, "", Whole, false;
      }
    }

    // The handler reads to the end.
    method ReadAll(ghost body: RequestBody) returns (stream: Stream)
      requires Unpacks(body) && !zr.broken
      modifies zr
      ensures stream == old(Stream(zr.rest, zr.ending))
      ensures Unpacks(body) && (zr.broken <==> stream.ending.Corrupt?)
    {
      var text, end := "", Whole;
      while true
        invariant text + zr.rest == old(zr.rest)
        invariant zr.ending == old(zr.ending) && !zr.broken && zr.source == body
        decreases |zr.rest|
      {
        var chunk;
        chunk, end := zr.Read(512);
        if chunk == "" {
          break;
        }
        text := text + chunk;
      }
      assert text == text + "";
      stream := Stream(text, end);
    }

    // A reader that fails to close is not recycled. Closing fails for a stream damaged before its end, but not
    // for a checksum that does not match.
    method Close(pool: ReaderPool, ghost body: RequestBody) returns (ok: bool)
      requires Unpacks(body) && pool.Valid() && this !in pool.items
      modifies this, body, pool
      ensures ok <==> !old(zr.broken) && body.closes
      ensures body.closed <==> old(body.closed) || !old(zr.broken)
      ensures pool.Valid() && pool.items == old(pool.items) + (if ok then {this} else {})
    {
      if zr.broken {
        return false;
      }
      r.closed := true;
      if !r.closes {
        return false;
      }
      r := null;
      zr := null;
      pool.Put(this);
      return true;
    }
  }

  class ReaderPool {
    var items: set<CompressReader>

    ghost predicate Valid()
      reads this, items
    {
      forall x :: x in items ==> x.Clean()
    }

    method Get() returns (x: CompressReader)
      requires Valid()
      modifies this
      ensures Valid() && x.Clean() && x !in items
      ensures items == old(items) - {x} && (x in old(items) || fresh(x))
    {
      if * {
        if y :| y in items {
          items := items - {y};
          return y;
        }
      }
      x := new CompressReader();
    }

    /** Reset, then back into the pool: all zero exactly when it came without a gzip reader. */
    method Put(x: CompressReader)
      modifies this, x, if x.zr == null then {} else {x.zr}
      ensures items == old(items) + {x}
      ensures x.Clean() <==> old(x.zr) == null
      ensures forall y: CompressReader :: y in old(items) && y != x && old(y.Clean()) ==> y.Clean()
    {
      x.Reset();
      items := items + {x};
    }
  }

  // newCompressReader: an object leaves the pool only after the gzip header was read.
  method NewCompressReader(pool: ReaderPool, body: RequestBody, gunzip: Gunzip) returns (cr: CompressReader?)
    requires pool.Valid()
    modifies pool, pool.items
    ensures pool.Valid()
    ensures cr == null <==> gunzip(body.data).None?
    ensures cr == null ==> pool.items == old(pool.items)
    ensures cr != null ==>
              && pool.items == old(pool.items) - {cr} && (cr in old(pool.items) || fresh(cr))
              && cr.Unpacks(body) && fresh(cr.zr) && !cr.zr.broken
              && Some(Stream(cr.zr.rest, cr.zr.ending)) == gunzip(body.data)
  {
    var started := gunzip(body.data);
    if started.None? {
      return null;
    }
    var zr := new GzipReader(body, started.value);
    cr := pool.Get();
    cr.r := body;
    cr.zr := zr;
  }

  // ---- The middleware ----

  // The headers and the body of a request.
  datatype Incoming = Incoming(acceptEncoding: string, contentEncoding: string, body: string)

  // How weights are read and compared with zero, mime.ParseMediaType and gzip.
  datatype Library<!F> = Library(
    parseFloat: string -> Option<F>,
    one: F,
    positive: F -> bool,
    media: MediaTypes,
    gunzip: Gunzip)

  predicate Wanted<F>(lib: Library<F>, acceptEncoding: string) {
    var weights := AcceptOf(acceptEncoding, lib.parseFloat, lib.one);
    "gzip" in weights && lib.positive(weights["gzip"])
  }

  // What the handler reads; None when the body is announced as gzip and is not.
  function Received<F>(lib: Library<F>, incoming: Incoming): Option<Stream> {
    if "gzip" in ContentOf(incoming.contentEncoding) then lib.gunzip(incoming.body)
    else Some(Stream(incoming.body, Whole))
  }

  // A writer that never compresses.
  function Never(): MediaTypes {
    (_: string) => None
  }

  // http.Error
  const ERROR_ACTIONS := [SetHeader(TYPE, "text/plain; charset=utf-8"), SetHeader("X-Content-Type-Options", "nosniff"),
                          WriteHeader(500), Write("Internal Server Error\n")]

  function Answer(received: Option<Stream>, handler: Handler, media: MediaTypes, x: Exchange): Exchange {
    match received
    case None => FreshRun(Never(), x, ERROR_ACTIONS)
    case Some(stream) => FreshRun(media, x, handler(stream))
  }

  function Respond<F>(lib: Library<F>, x: Exchange, incoming: Incoming, handler: Handler): Exchange {
    Answer(Received(lib, incoming), handler, if Wanted(lib, incoming.acceptEncoding) then lib.media else Never(), x)
  }

  // The server's own writer: one status line, and status 200 when the handler gives none.
  method Direct(r: Response, actions: seq<Action>)
    modifies r
    ensures r.Now() == FreshRun(Never(), old(r.Now()), actions)
  {
    var wrote := false;
    var i := 0;
    while i < |actions|
      invariant i <= |actions|
      invariant ActAll(Never(), if wrote then Identity else Unsent, r.Now(), actions[i..])
             == ActAll(Never(), Unsent, old(r.Now()), actions)
    {
      assert actions[i..][1..] == actions[i + 1..];
      match actions[i] {
        case SetHeader(key, value) =>
          r.headers := r.headers[key := value];
        case WriteHeader(code) =>
          if !wrote {
            r.sent := r.sent + [Status(code, Encoding(r.headers))];
            wrote := true;
          }
        case Write(data) =>
          if !wrote {
            r.sent := r.sent + [Status(200, Encoding(r.headers))];
            wrote := true;
          }
          r.sent := r.sent + [Body(Plain(data))];
      }
      i := i + 1;
    }
  }

  // The handler at work on the writer that the middleware chose, unless there is nothing to read.
  method ServeNext(cw: CompressWriter?, r: Response, received: Option<Stream>, handler: Handler, media: MediaTypes)
    returns (ghost m: Mode)
    requires cw != null ==> cw.Serves(r, Unsent)
    modifies r, if cw == null then {} else {cw}
    ensures Finish(m, r.Now())
         == Answer(received, handler, if cw == null then Never() else media, old(r.Now()))
    ensures cw == null ==> !m.Gzip?
    ensures cw != null ==> cw.Serves(r, m) && (cw.zw != null ==> fresh(cw.zw))
  {
    m := Unsent;
    if received.None? {
      Direct(r, ERROR_ACTIONS);
    } else if cw == null {
      Direct(r, handler(received.value));
    } else {
      m := Handle(cw, r, handler(received.value), media);
    }
  }

  // The reader for the body, if one is needed, and what the handler will read.
  method Receive<F>(lib: Library<F>, readers: ReaderPool, body: RequestBody, acceptEncoding: string,
                    contentEncoding: string)
    returns (cr: CompressReader?, received: Option<Stream>)
    requires readers.Valid()
    modifies readers, readers.items
    ensures received == Received(lib, Incoming(acceptEncoding, contentEncoding, body.data))
    ensures readers.Valid() && readers.items == old(readers.items) - {cr}
    ensures cr != null ==> (cr in old(readers.items) || fresh(cr)) && cr.Unpacks(body) && fresh(cr.zr) && received.Some?
  {
    cr, received := null, Some(Stream(body.data, Whole));
    var codings := ParseContentEncoding(contentEncoding);
    if "gzip" in codings {
      cr := NewCompressReader(readers, body, lib.gunzip);
      if cr == null {
        return null, None;
      }
      var stream := cr.ReadAll(body);
      received := Some(stream);
    }
  }

  // A writer that was taken out of a clean pool, if any.
  ghost predicate InUse(writers: Pool, cw: CompressWriter?, r: Response, m: Mode)
    reads writers, writers.items, cw, if cw == null || cw.zw == null then {} else {cw.zw}
  {
    writers.Valid() && (cw != null ==> cw !in writers.items && cw.Serves(r, m))
  }

  // The deferred calls, the last one first.
  method CloseAll(writers: Pool, readers: ReaderPool, cw: CompressWriter?, cr: CompressReader?, r: Response,
                  body: RequestBody,
                  ghost m: Mode)
    requires InUse(writers, cw, r, m) && readers.Valid()
    requires cr != null ==> cr.Unpacks(body) && cr !in readers.items
    requires cw == null ==> !m.Gzip?
    modifies writers, readers, r, body, if cw == null then {} else {cw}, if cr == null then {} else {cr}
    ensures r.Now() == Finish(m, old(r.Now()))
    ensures writers.Valid() && writers.items == old(writers.items) + (if cw == null then {} else {cw})
    ensures readers.Valid() && old(readers.items) <= readers.items
    ensures readers.items <= old(readers.items) + (if cr == null then {} else {cr})
  {
    if cr != null {
      var _ := cr.Close(readers, body);
    }
    if cw != null {
      cw.Close(writers, r, m);
    }
  }

  // The writer and the reader that the headers ask for.
  method Open<F>(lib: Library<F>, writers: Pool, readers: ReaderPool, r: Response, body: RequestBody,
                 incoming: Incoming)
    returns (cw: CompressWriter?, cr: CompressReader?, received: Option<Stream>)
    requires writers.Valid() && readers.Valid() && incoming.body == body.data
    modifies writers, writers.items, readers, readers.items
    ensures cw == null <==> !Wanted(lib, incoming.acceptEncoding)
    ensures received == Received(lib, incoming)
    ensures InUse(writers, cw, r, Unsent)
    ensures writers.items == old(writers.items) - {cw} && (cw != null ==> cw in old(writers.items) || fresh(cw))
    ensures readers.Valid() && readers.items == old(readers.items) - {cr}
    ensures cr != null ==> (cr in old(readers.items) || fresh(cr)) && cr.Unpacks(body)
  {
    cw := null;
    var weights := ParseAcceptEncoding(incoming.acceptEncoding, lib.parseFloat, lib.one);
    if "gzip" in weights && lib.positive(weights["gzip"]) {
      cw := NewCompressWriter(writers, r);
    }
    cr, received := Receive(lib, readers, body, incoming.acceptEncoding, incoming.contentEncoding);
  }

  method ServeAndClose(writers: Pool, readers: ReaderPool, cw: CompressWriter?, cr: CompressReader?, r: Response,
                       body: RequestBody, received: Option<Stream>, handler: Handler, media: MediaTypes)
    requires InUse(writers, cw, r, Unsent) && readers.Valid()
    requires cr != null ==> cr.Unpacks(body) && cr !in readers.items
    modifies writers, readers, r, body, if cw == null then {} else {cw}, if cr == null then {} else {cr}
    ensures r.Now() == Answer(received, handler, if cw == null then Never() else media, old(r.Now()))
    ensures writers.Valid() && writers.items == old(writers.items) + (if cw == null then {} else {cw})
    ensures readers.Valid() && old(readers.items) <= readers.items
    ensures readers.items <= old(readers.items) + (if cr == null then {} else {cr})
  {
    ghost var m := ServeNext(cw, r, received, handler, media);
    assert InUse(writers, cw, r, m);
    CloseAll(writers, readers, cw, cr, r, body, m);
  }

  /** One request through the middleware: the response is a function of the request and the handler alone,
      and both pools hold clean objects again. */
  method GzipMiddleware<F>(lib: Library<F>, writers: Pool, readers: ReaderPool, r: Response, body: RequestBody,
                           incoming: Incoming, handler: Handler)
    requires writers.Valid() && readers.Valid() && incoming.body == body.data
    modifies writers, writers.items, readers, readers.items, r, body
    ensures r.Now() == Respond(lib, old(r.Now()), incoming, handler)
    ensures writers.Valid() && fresh(writers.items - old(writers.items))
    ensures readers.Valid() && fresh(readers.items - old(readers.items))
  {
    var cw, cr, received := Open(lib, writers, readers, r, body, incoming);
    ServeAndClose(writers, readers, cw, cr, r, body, received, handler, lib.media);
  }

  // ---- What the middleware keeps ----

  lemma {:induction false} NeverCompresses(m: Mode, x: Exchange, actions: seq<Action>)
    requires !m.Gzip?
    ensures !ActAll(Never(), m, x, actions).0.Gzip?
    decreases actions
  {
    if actions != [] {
      var (n, y) := Act(Never(), m, x, actions[0]);
      NeverCompresses(n, y, actions[1..]);
    }
  }

  /** Whatever the client accepts, the response decodes to what the handler wrote; to a client that does
      not accept gzip with a positive weight it goes out as it is. */
  lemma {:induction false} ResponseTransparent<F>(lib: Library<F>, headers: map<string, string>, incoming: Incoming,
                                                  handler: Handler)
    ensures var y := Respond(lib, Exchange(headers, []), incoming, handler);
            && (match Received(lib, incoming)
                case None => Decodes(y.sent, Written(ERROR_ACTIONS))
                case Some(stream) => Decodes(y.sent, Written(handler(stream))))
            && (!Wanted(lib, incoming.acceptEncoding) || Received(lib, incoming).None? ==>
                  forall i :: 0 < i < |y.sent| ==> y.sent[i].Body? && y.sent[i].piece.Plain?)
  {
    var actions := match Received(lib, incoming) case None => ERROR_ACTIONS case Some(stream) => handler(stream);
    ResponseForm(lib.media, headers, actions);
    ResponseForm(Never(), headers, actions);
    NeverCompresses(Unsent, Exchange(headers, []), actions);
    ActAllForm(Never(), Unsent, Exchange(headers, []), actions);
  }

  /** What the client gets from the middleware: the status line of the handler's first action that sends one, as
      the handler's own writer would send it, unless gzip is wanted and the type is JSON or HTML. */
  lemma RespondStatus<F>(lib: Library<F>, headers: map<string, string>, incoming: Incoming, handler: Handler,
                         stream: Stream, before: seq<Action>, first: Action, after: seq<Action>)
    requires Received(lib, incoming) == Some(stream) && handler(stream) == before + [first] + after
    requires Sends(first) && forall a :: a in before ==> !Sends(a)
    ensures var y := Respond(lib, Exchange(headers, []), incoming, handler);
            var known := HandlerHeaders(headers, before);
            var packed := Wanted(lib, incoming.acceptEncoding) && IsPacked(lib.media, known);
            && y.sent != [] && StatusLine(if packed then lib.media else Never(), known, first, y.sent[0])
            && forall i :: 0 < i < |y.sent| ==> y.sent[i].Body? && (y.sent[i].piece.Plain? <==> !packed)
  {
    EncodingSet(if Wanted(lib, incoming.acceptEncoding) then lib.media else Never(), headers, before, first, after);
  }

  /** A handler that sends neither leaves everything to the server. */
  lemma RespondNothing<F>(lib: Library<F>, headers: map<string, string>, incoming: Incoming, handler: Handler,
                          stream: Stream)
    requires Received(lib, incoming) == Some(stream) && forall a :: a in handler(stream) ==> !Sends(a)
    ensures Respond(lib, Exchange(headers, []), incoming, handler).sent == []
  {
    NothingSent(if Wanted(lib, incoming.acceptEncoding) then lib.media else Never(), headers, handler(stream));
  }

  /** A body announced as gzip that is not is answered with status 500 and its text, whatever the handler. */
  lemma RespondError<F>(lib: Library<F>, headers: map<string, string>, incoming: Incoming, handler: Handler)
    requires Received(lib, incoming).None?
    ensures var sent := Respond(lib, Exchange(headers, []), incoming, handler).sent;
            && sent != [] && sent[0].Status? && sent[0].code == 500
            && Decodes(sent, "Internal Server Error\n")
  {
    var e := ERROR_ACTIONS;
    assert e == [e[0], e[1]] + [e[2]] + [e[3]];
    EncodingSet(Never(), headers, [e[0], e[1]], e[2], [e[3]]);
    ResponseForm(Never(), headers, e);
    assert e[1..][1..] == e[2..] && e[2..][1..] == e[3..] && e[3..][1..] == [];
    assert Written(e[3..]) == e[3].data + "" == e[3].data;
    assert Written(e[2..]) == "" + Written(e[3..]) == Written(e[3..]);
    assert Written(e[1..]) == "" + Written(e[2..]) == Written(e[2..]);
    assert Written(e) == "" + Written(e[1..]) == Written(e[1..]);
  }

  /** A body that is not announced as gzip, in any layout of the header, reaches the handler as it is. */
  lemma {:induction false} PlainReceived<F>(lib: Library<F>, acceptEncoding: string, labels: seq<Strings.Padded>,
                                            body: string)
    requires PrintableList(labels)
    ensures var incoming := Incoming(acceptEncoding, Strings.Join(ShowAll(labels), ','), body);
            Received(lib, incoming)
              == if exists i :: 0 <= i < |labels| && labels[i].text == "gzip" then lib.gunzip(body)
                 else Some(Stream(body, Whole))
  {
    ContentRoundTrip(labels);
    NonEmptyMembers(Texts(labels));
    if i :| 0 <= i < |labels| && labels[i].text == "gzip" {
      NonEmptyHolds(Texts(labels), i);
    }
  }

  /** A body sent packed and labelled as gzip, in any layout of the header, is answered like the same body
      sent as it is. */
  lemma RequestTransparent<F>(lib: Library<F>, x: Exchange, acceptEncoding: string, labels: seq<Strings.Padded>,
                              text: string, packed: string, handler: Handler)
    requires PrintableList(labels) && exists i :: 0 <= i < |labels| && labels[i].text == "gzip"
    requires lib.gunzip(packed) == Some(Stream(text, Whole))
    ensures var coding := Strings.Join(ShowAll(labels), ',');
            Respond(lib, x, Incoming(acceptEncoding, coding, packed), handler)
              == Respond(lib, x, Incoming(acceptEncoding, "", text), handler)
  {
    ContentRoundTrip(labels);
    var i :| 0 <= i < |labels| && labels[i].text == "gzip";
    NonEmptyHolds(Texts(labels), i);
    assert ContentOf("") == [] by {
      assert Strings.Split("", ',') == [""];
    }
  }

  lemma {:induction false} NonEmptyHolds(texts: seq<string>, i: nat)
    requires i < |texts| && texts[i] != ""
    ensures texts[i] in NonEmpty(texts)
    decreases i
  {
    if i > 0 {
      NonEmptyHolds(texts[1..], i - 1);
    }
  }

  /** In any layout of the header, gzip is wanted exactly when it is listed and the weight of its last
      occurrence is positive. */
  lemma {:induction false} WantedMeaning<F>(lib: Library<F>, elements: seq<Element>)
    requires Printable(elements)
    ensures Wanted(lib, Print(elements)) <==>
            exists i: nat, weight :: LastOf(elements, "gzip", i)
              && Weighs(Texts(elements[i])[1..], lib.parseFloat, lib.one, weight) && lib.positive(weight)
  {
    AcceptRoundTrip(elements, lib.parseFloat, lib.one);
    var weights := AcceptOf(Print(elements), lib.parseFloat, lib.one);
    forall i: nat, weight |
      LastOf(elements, "gzip", i) && Weighs(Texts(elements[i])[1..], lib.parseFloat, lib.one, weight)
      ensures "gzip" in weights && weights["gzip"] == weight {
      WeightUnique(Texts(elements[i])[1..], lib.parseFloat, lib.one, weight, weights["gzip"]);
    }
    if "gzip" in weights {
      var i: nat :| LastOf(elements, "gzip", i);
      assert Weighs(Texts(elements[i])[1..], lib.parseFloat, lib.one, weights["gzip"]);
    }
  }

  lemma WeightUnique<F>(params: seq<string>, parseFloat: string -> Option<F>, one: F, a: F, b: F)
    requires Weighs(params, parseFloat, one, a) && Weighs(params, parseFloat, one, b)
    ensures a == b
  {
  }
}
