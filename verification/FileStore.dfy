/** The file backend: the in-memory store plus an append-only log of records, replayed on load. */
module FileStores {
  import opened Optional
  import opened Stores

  datatype Record = Record(shortURL: string, originalURL: string, userID: string, deleted: bool)

  // JSON encoding of a record and its decoding from one line.
  datatype Codec = Codec(enc: Record -> string, dec: string -> Option<Record>)

  // The scanner's buffer: a line that does not fit, with its newline, stops the load.
  const LIMIT := 1024 * 1024

  predicate EndsWithCR(line: string) {
    line != "" && line[|line| - 1] == '\r'
  }

  // bufio.ScanLines drops one carriage return at the end of a line.
  function DropCR(line: string): string {
    if EndsWithCR(line) then line[..|line| - 1] else line
  }

  /** What encoding/json promises: decoding undoes encoding, also after a carriage return; an encoded
      record has no newline and does not end in a carriage return; two values on one line are not one,
      and neither is the bracket that opens an array. */
  ghost predicate Lawful(c: Codec) {
    && (forall r :: c.dec(c.enc(r)) == Some(r) && c.dec("\r" + c.enc(r)) == Some(r))
    && (forall r :: '\n' !in c.enc(r) && c.enc(r) != "" && !EndsWithCR(c.enc(r)))
    && (forall x, r :: c.dec(DropCR(x)).Some? ==> c.dec(x + c.enc(r)).None?)
    && c.dec("[") == None && c.dec("[]") == None
  }

  datatype LoadResult = Loaded(store: Store) | LoadError

  function Replay(s: Store, r: Record): Store {
    Store(s.data[r.shortURL := UrlInfo(r.originalURL, r.userID, r.deleted)], s.urlToID[r.originalURL := r.shortURL])
  }

  // One line of the file, as the body of the scan loop treats it.
  function LoadLine(c: Codec, s: Store, line: string): LoadResult {
    if |line| >= LIMIT then LoadError
    else if DropCR(line) == "" then Loaded(s)
    else
      match c.dec(DropCR(line))
      case Some(r) => Loaded(Replay(s, r))
      case None => LoadError
  }

  function Newline(text: string): Option<nat> {
    if text == "" then None
    else if text[0] == '\n' then Some(0)
    else
      match Newline(text[1..])
      case Some(i) => Some(i + 1)
      case None => None
  }

  lemma {:induction false} NewlineAt(text: string)
    ensures match Newline(text)
            case Some(i) => i < |text| && text[i] == '\n' && '\n' !in text[..i]
            case None => '\n' !in text
  {
    if text != "" && text[0] != '\n' {
      NewlineAt(text[1..]);
      var i := Newline(text[1..]);
      if i.Some? { assert text[..i.value + 1] == [text[0]] + text[1..][..i.value]; }
    }
  }

  // The rest of the file, line by line; an unterminated last line counts unless it is empty.
  function LoadFrom(c: Codec, s: Store, text: string): LoadResult
    decreases |text|
  {
    if text == "" then Loaded(s)
    else
      match Newline(text)
      case None => LoadLine(c, s, text)
      case Some(i) =>
        NewlineAt(text);
        match LoadLine(c, s, text[..i])
        case LoadError => LoadError
        case Loaded(t) => LoadFrom(c, t, text[i + 1..])
  }

  function LoadText(c: Codec, text: string): LoadResult {
    LoadFrom(c, EMPTY, text)
  }

  function RecordOf(row: Row): Record {
    Record(row.id, row.originalURL, row.userID, false)
  }

  function Encode(c: Codec, rows: seq<Row>): string {
    if rows == [] then "" else c.enc(RecordOf(rows[0])) + "\n" + Encode(c, rows[1..])
  }

  function Remove(s: Store, ids: set<string>, urls: set<string>): Store {
    Store(s.data - ids, s.urlToID - urls)
  }

  // What DeleteBatch writes over the whole file: one indented JSON array.
  predicate IsArrayText(text: string) {
    "[\n" <= text || text == "[]\n"
  }

  // ---- The class ----

  datatype FileResult = Ok | Refused(existingID: string) | Failed

  /** `text` is the content of the file. Whether an operation on the file succeeds is up to the system,
      which a failed append leaves without change. */
  class FileStore {
    const mem: MemStore
    const codec: Codec
    var text: string

    constructor (codec: Codec, text: string, mem: MemStore)
      ensures this.codec == codec && this.text == text && this.mem == mem
    {
      this.codec, this.text, this.mem := codec, text, mem;
    }

    // The scan loop: `at` is the start of the next line.
    method Load() returns (ok: bool)
      modifies mem
      ensures match LoadText(codec, text)
              case Loaded(s) => ok && mem.Contents() == s
              case LoadError => !ok
    {
      mem.data, mem.urlToID := map[], map[];
      var at := 0;
      while at < |text|
        invariant at <= |text|
        invariant LoadFrom(codec, mem.Contents(), text[at..]) == LoadText(codec, text)
      {
        var rest := text[at..];
        NewlineAt(rest);
        var end := if Newline(rest).Some? then at + Newline(rest).value else |text|;
        var line := text[at..end];
        assert line == if Newline(rest).Some? then rest[..Newline(rest).value] else rest;
        if |line| >= LIMIT {
          return false;
        }
        ghost var before := mem.Contents();
        if DropCR(line) != "" {
          var rec := codec.dec(DropCR(line));
          if rec.None? {
            return false;
          }
          var info := UrlInfo(rec.value.originalURL, rec.value.userID, rec.value.deleted);
          mem.data := mem.data[rec.value.shortURL := info];
          mem.urlToID := mem.urlToID[rec.value.originalURL := rec.value.shortURL];
        }
        assert LoadLine(codec, before, line) == Loaded(mem.Contents());
        assert end < |text| ==> rest[Newline(rest).value + 1..] == text[end + 1..];
        at := if end < |text| then end + 1 else end;
        assert at == |text| ==> text[at..] == "";
      }
      return true;
    }

    method AppendRecords(rows: seq<Row>, works: bool) returns (ok: bool)
      modifies this`text
      ensures ok == (rows == [] || works)
      ensures text == if ok then old(text) + Encode(codec, rows) else old(text)
    {
      if |rows| == 0 {
        return true;
      }
      var buf := "";
      var i := 0;
      while i < |rows|
        invariant i <= |rows|
        invariant buf + Encode(codec, rows[i..]) == Encode(codec, rows)
      {
        buf := buf + codec.enc(RecordOf(rows[i])) + "\n";
        i := i + 1;
      }
      if works { text := text + buf; }
      return works;
    }

    method Add(row: Row, works: bool) returns (result: FileResult)
      modifies this`text, mem
      ensures (mem.Contents(), text, result) == AddToFile(codec, old(mem.Contents()), old(text), row, works)
    {
      var added := mem.Add(row);
      if added.AlreadyExists? {
        return Refused(added.existingID);
      }
      var ok := AppendRecords([row], works);
      if !ok {
        mem.data := mem.data - {row.id};
        mem.urlToID := mem.urlToID - {row.originalURL};
        IdsOne(row);
        return Failed;
      }
      return Ok;
    }

    method AddBatch(rows: seq<Row>, opens: bool, works: bool) returns (result: FileResult)
      modifies this`text, mem
      ensures (mem.Contents(), text, result)
           == AddBatchToFile(codec, old(mem.Contents()), old(text), rows, opens, works)
    {
      if !opens {
        return Failed;
      }
      var added := mem.AddBatch(rows);
      if added.AlreadyExists? {
        return Refused(added.existingID);
      }
      var ok := AppendRecords(rows, works);
      if !ok {
        var i := 0;
        ghost var full := mem.Contents();
        while i < |rows|
          invariant i <= |rows|
          invariant mem.Contents() == Remove(full, Ids(rows[..i]), URLs(rows[..i]))
          invariant text == old(text)
        {
          mem.data := mem.data - {rows[i].id};
          mem.urlToID := mem.urlToID - {rows[i].originalURL};
          IdsSnoc(rows, i);
          i := i + 1;
        }
        assert rows[..i] == rows;
        return Failed;
      }
      return Ok;
    }

    // The entries change in memory whether or not the file can be rewritten.
    method DeleteBatch(userID: string, ids: seq<string>, saved: string, works: bool) returns (ok: bool)
      requires IsArrayText(saved)
      modifies this`text, mem
      ensures mem.Contents() == DeleteFrom(old(mem.Contents()), userID, ids)
      ensures ok == (ids == [] || works)
      ensures text == if ids != [] && works then saved else old(text)
    {
      mem.DeleteBatch(userID, ids);
      if |ids| == 0 {
        assert mem.Contents() == DeleteFrom(old(mem.Contents()), userID, ids);
        return true;
      }
      if works { text := saved; }
      return works;
    }
  }

  lemma IdsOne(row: Row)
    ensures Ids([row]) == {row.id} && URLs([row]) == {row.originalURL}
  {
    assert [row][0] == row;
  }

  lemma IdsSnoc(rows: seq<Row>, i: nat)
    requires i < |rows|
    ensures Ids(rows[..i + 1]) == Ids(rows[..i]) + {rows[i].id}
    ensures URLs(rows[..i + 1]) == URLs(rows[..i]) + {rows[i].originalURL}
  {
    assert rows[..i + 1] == rows[..i] + [rows[i]];
    assert forall j :: 0 <= j < i ==> rows[..i + 1][j] == rows[..i][j];
    assert rows[..i + 1][i] == rows[i];
  }

  // The effect of Add: a refusal and a failed append change neither the maps nor the file.
  function AddToFile(c: Codec, s: Store, text: string, row: Row, works: bool): (Store, string, FileResult) {
    var added := AddTo(s, row);
    if added.1.AlreadyExists? then (added.0, text, Refused(added.1.existingID))
    else if works then (added.0, text + Encode(c, [row]), Ok)
    else (Remove(added.0, Ids([row]), URLs([row])), text, Failed)
  }

  function AddBatchToFile(c: Codec, s: Store, text: string, rows: seq<Row>, opens: bool, works: bool)
    : (Store, string, FileResult) {
    if !opens then (s, text, Failed)
    else
      var added := AddBatchTo(s, rows);
      if added.1.AlreadyExists? then (added.0, text, Refused(added.1.existingID))
      else if rows == [] || works then (added.0, text + Encode(c, rows), Ok)
      else (Remove(added.0, Ids(rows), URLs(rows)), text, Failed)
  }

  /** What the answer of Add means: refused with the id that the URL has, stored and logged on one line, or
      failed to log and undone. */
  lemma AddAnswers(c: Codec, s: Store, text: string, row: Row, works: bool)
    ensures var (t, after, answer) := AddToFile(c, s, text, row, works);
            match answer
            case Refused(id) =>
              row.originalURL in s.urlToID && id == s.urlToID[row.originalURL] && t == s && after == text
            case Ok =>
              && row.originalURL !in s.urlToID && works && Holds(t, row)
              && after == text + (c.enc(Record(row.id, row.originalURL, row.userID, false)) + "\n")
            case Failed =>
              row.originalURL !in s.urlToID && !works && after == text && (row.id !in s.data ==> t == s)
  {
    var line := c.enc(RecordOf(row)) + "\n";
    assert Encode(c, [row]) == line + Encode(c, [row][1..]) == line + "" == line;
    if row.originalURL !in s.urlToID { UndoOne(s, row); }
  }

  /** The same for a batch: it is refused with the id of its first stored URL. */
  lemma BatchAnswers(c: Codec, s: Store, text: string, rows: seq<Row>, opens: bool, works: bool)
    requires FreshRows(s, rows)
    ensures var (t, after, answer) := AddBatchToFile(c, s, text, rows, opens, works);
            match answer
            case Refused(id) =>
              && opens && t == s && after == text
              && exists i: nat :: FirstStored(s, rows, i) && id == s.urlToID[rows[i].originalURL]
            case Ok =>
              && opens && (rows == [] || works) && UnknownRows(s, rows)
              && (forall row :: row in rows ==> Holds(t, row)) && after == text + Encode(c, rows)
            case Failed => (opens ==> UnknownRows(s, rows) && rows != [] && !works) && t == s && after == text
  {
    FirstKnownNone(s, rows);
    var added := AddBatchTo(s, rows).1;
    if added.AlreadyExists? {
      RefusedWith(s, rows, added.existingID);
    } else {
      PutAllHolds(s, rows);
      UndoRestores(s, rows);
    }
  }

  // ---- Undo ----

  /** Taking back a batch whose append failed restores the maps. */
  lemma UndoRestores(s: Store, rows: seq<Row>)
    requires FreshRows(s, rows) && FirstKnown(s, rows).None?
    ensures Remove(PutAll(s, rows), Ids(rows), URLs(rows)) == s
  {
    FirstKnownNone(s, rows);
    PutAllContents(s, rows);
  }

  /** For one row the undo restores the maps exactly when the id was new. */
  lemma UndoOne(s: Store, row: Row)
    requires row.originalURL !in s.urlToID
    ensures Remove(Put(s, row), Ids([row]), URLs([row])) == s <==> row.id !in s.data
  {
    IdsOne(row);
  }

  // ---- Reloading ----

  // What stands after the last newline.
  function Tail(text: string): string
    decreases |text|
  {
    match Newline(text)
    case None => text
    case Some(i) =>
      NewlineAt(text);
      Tail(text[i + 1..])
  }

  function Body(text: string): string {
    TailLength(text);
    text[..|text| - |Tail(text)|]
  }

  lemma {:induction false} TailLength(text: string)
    ensures |Tail(text)| <= |text| && text[|text| - |Tail(text)|..] == Tail(text)
    ensures |Tail(text)| < |text| ==> text[|text| - |Tail(text)| - 1] == '\n'
    decreases |text|
  {
    NewlineAt(text);
    if Newline(text).Some? {
      var rest := text[Newline(text).value + 1..];
      TailLength(rest);
      assert text[|text| - |Tail(text)|..] == rest[|rest| - |Tail(rest)|..];
    }
  }

  lemma {:induction false} NewlineAppend(a: string, b: string)
    ensures Newline(a).Some? ==> Newline(a + b) == Newline(a)
    ensures Newline(a).None? && Newline(b).Some? ==> Newline(a + b) == Some(|a| + Newline(b).value)
    ensures Newline(a).None? && Newline(b).None? ==> Newline(a + b).None?
  {
    if a == "" {
      assert a + b == b;
    } else {
      assert (a + b)[1..] == a[1..] + b;
      NewlineAppend(a[1..], b);
    }
  }

  lemma FirstLine(c: Codec, s: Store, line: string, rest: string)
    requires '\n' !in line
    ensures LoadFrom(c, s, line + "\n" + rest)
         == match LoadLine(c, s, line) case LoadError => LoadError case Loaded(t) => LoadFrom(c, t, rest)
  {
    var text := line + "\n" + rest;
    NewlineAt(line);
    NewlineAppend(line, "\n" + rest);
    assert text == line + ("\n" + rest);
    assert text[..|line|] == line && text[|line| + 1..] == rest;
  }

  // Whole lines are read first, then what follows them.
  lemma {:induction false} LoadConcat(c: Codec, s: Store, lines: string, more: string)
    requires lines == "" || lines[|lines| - 1] == '\n'
    ensures LoadFrom(c, s, lines + more)
         == match LoadFrom(c, s, lines) case LoadError => LoadError case Loaded(t) => LoadFrom(c, t, more)
    decreases |lines|
  {
    if lines == "" {
      assert lines + more == more;
    } else {
      NewlineAt(lines);
      var i := Newline(lines).value;
      var line, rest := lines[..i], lines[i + 1..];
      assert lines == line + "\n" + rest && lines + more == line + "\n" + (rest + more);
      FirstLine(c, s, line, rest);
      FirstLine(c, s, line, rest + more);
      var first := LoadLine(c, s, line);
      if first.Loaded? { LoadConcat(c, first.store, rest, more); }
    }
  }

  lemma {:induction false} BodyIsLines(text: string)
    ensures Body(text) == "" || Body(text)[|Body(text)| - 1] == '\n'
    ensures Body(text) + Tail(text) == text
  {
    TailLength(text);
    assert text == text[..|text| - |Tail(text)|] + text[|text| - |Tail(text)|..];
  }

  // A text is read up to its last newline, and then goes on with the tail and whatever follows it.
  lemma LoadBody(c: Codec, s: Store, text: string, more: string)
    ensures match LoadFrom(c, s, Body(text))
            case LoadError => LoadFrom(c, s, text + more) == LoadError
            case Loaded(t) => LoadFrom(c, s, text + more) == LoadFrom(c, t, Tail(text) + more)
  {
    BodyIsLines(text);
    LoadConcat(c, s, Body(text), Tail(text) + more);
    assert text + more == Body(text) + (Tail(text) + more);
  }

  // A record's line is within the scanner's limit, with a byte to spare for a stray carriage return.
  ghost predicate Fits(c: Codec, row: Row) {
    |c.enc(RecordOf(row))| + 1 < LIMIT
  }

  // Reading lines that were written replays their rows.
  lemma {:induction false} LoadEncoded(c: Codec, s: Store, rows: seq<Row>)
    requires Lawful(c) && forall row :: row in rows ==> Fits(c, row)
    ensures LoadFrom(c, s, Encode(c, rows)) == Loaded(PutAll(s, rows))
    decreases rows
  {
    if rows != [] {
      var line := c.enc(RecordOf(rows[0]));
      assert rows[0] in rows;
      assert DropCR(line) == line;
      FirstLine(c, s, line, Encode(c, rows[1..]));
      assert Encode(c, rows) == line + "\n" + Encode(c, rows[1..]);
      assert Replay(s, RecordOf(rows[0])) == Put(s, rows[0]);
      LoadEncoded(c, Put(s, rows[0]), rows[1..]);
    }
  }

  // The file ends where a new record can start.
  predicate Clean(text: string) {
    DropCR(Tail(text)) == ""
  }

  lemma LoadTail(c: Codec, text: string)
    ensures match LoadFrom(c, EMPTY, Body(text))
            case LoadError => LoadText(c, text) == LoadError
            case Loaded(t) => LoadText(c, text) == if Tail(text) == "" then Loaded(t) else LoadLine(c, t, Tail(text))
  {
    LoadBody(c, EMPTY, text, "");
    assert text + "" == text && Tail(text) + "" == Tail(text);
    TailIsLine(text);
  }

  lemma {:induction false} TailIsLine(text: string)
    ensures '\n' !in Tail(text) && Newline(Tail(text)) == None
    decreases |text|
  {
    NewlineAt(text);
    if Newline(text).Some? { TailIsLine(text[Newline(text).value + 1..]); }
  }

  /** From a file that loads, appending rows and loading again gives the maps with those rows, exactly
      when the file ended with a newline (or was empty, or left only a carriage return). */
  lemma AppendReloads(c: Codec, s: Store, text: string, rows: seq<Row>)
    requires Lawful(c) && LoadText(c, text) == Loaded(s) && rows != []
    requires forall row :: row in rows ==> Fits(c, row)
    ensures LoadText(c, text + Encode(c, rows)) == Loaded(PutAll(s, rows)) <==> Clean(text)
    ensures !Clean(text) ==> LoadText(c, text + Encode(c, rows)) == LoadError
  {
    var tail, line := Tail(text), c.enc(RecordOf(rows[0]));
    assert rows[0] in rows;
    LoadTail(c, text);
    LoadBody(c, EMPTY, text, Encode(c, rows));
    TailIsLine(text);
    var t := LoadFrom(c, EMPTY, Body(text)).store;
    assert tail + Encode(c, rows) == (tail + line) + "\n" + Encode(c, rows[1..]);
    FirstLine(c, t, tail + line, Encode(c, rows[1..]));
    assert !EndsWithCR(tail + line) by { assert (tail + line)[|tail + line| - 1] == line[|line| - 1]; }
    if Clean(text) {
      assert t == s;
      if tail == "" { assert tail + line == line; } else { assert tail == "\r"; }
      assert Replay(t, RecordOf(rows[0])) == Put(t, rows[0]);
      LoadEncoded(c, Put(t, rows[0]), rows[1..]);
    } else {
      assert c.dec(DropCR(tail)).Some?;
    }
  }

  lemma AppendStaysClean(c: Codec, text: string, rows: seq<Row>)
    requires rows != []
    ensures Tail(text + Encode(c, rows)) == ""
  {
    EncodeEnds(c, rows);
    TailOfTerminated(text + Encode(c, rows));
  }

  lemma {:induction false} TailOfTerminated(text: string)
    requires text != "" && text[|text| - 1] == '\n'
    ensures Tail(text) == ""
    decreases |text|
  {
    NewlineAt(text);
    var i := Newline(text).value;
    if i + 1 < |text| { TailOfTerminated(text[i + 1..]); }
  }

  lemma {:induction false} EncodeEnds(c: Codec, rows: seq<Row>)
    requires rows != []
    ensures Encode(c, rows) != "" && Encode(c, rows)[|Encode(c, rows)| - 1] == '\n'
  {
    if |rows| > 1 {
      EncodeEnds(c, rows[1..]);
    } else {
      assert Encode(c, rows[1..]) == "";
    }
  }

  // ---- Runs ----

  // An operation and what the file system does to it.
  datatype FileOp = FileAdd(row: Row, works: bool) | FileAddBatch(rows: seq<Row>, opens: bool, works: bool)

  function FileStep(c: Codec, s: Store, text: string, op: FileOp): (Store, string) {
    match op
    case FileAdd(row, works) => var r := AddToFile(c, s, text, row, works); (r.0, r.1)
    case FileAddBatch(rows, opens, works) => var r := AddBatchToFile(c, s, text, rows, opens, works); (r.0, r.1)
  }

  function FileRun(c: Codec, s: Store, text: string, ops: seq<FileOp>): (Store, string)
    decreases ops
  {
    if ops == [] then (s, text)
    else var next := FileStep(c, s, text, ops[0]); FileRun(c, next.0, next.1, ops[1..])
  }

  ghost predicate FreshFileOp(c: Codec, s: Store, op: FileOp) {
    match op
    case FileAdd(row, _) => row.id !in s.data && Fits(c, row)
    case FileAddBatch(rows, _, _) => FreshRows(s, rows) && forall row :: row in rows ==> Fits(c, row)
  }

  ghost predicate FreshFileRun(c: Codec, s: Store, text: string, ops: seq<FileOp>)
    decreases ops
  {
    ops == []
    || (FreshFileOp(c, s, ops[0])
        && var next := FileStep(c, s, text, ops[0]); FreshFileRun(c, next.0, next.1, ops[1..]))
  }

  lemma StepReloads(c: Codec, s: Store, text: string, op: FileOp)
    requires Lawful(c) && LoadText(c, text) == Loaded(s) && Clean(text) && FreshFileOp(c, s, op)
    ensures var next := FileStep(c, s, text, op); LoadText(c, next.1) == Loaded(next.0) && Clean(next.1)
  {
    match op
    case FileAdd(row, works) =>
      if row.originalURL !in s.urlToID {
        if works {
          AppendReloads(c, s, text, [row]);
          AppendStaysClean(c, text, [row]);
          assert PutAll(Put(s, row), []) == PutAll(s, [row]) by { assert [row][1..] == []; }
        } else {
          UndoOne(s, row);
        }
      }
    case FileAddBatch(rows, opens, works) =>
      if opens && FirstKnown(s, rows).None? {
        if rows == [] {
          assert text + Encode(c, rows) == text;
        } else if works {
          AppendReloads(c, s, text, rows);
          AppendStaysClean(c, text, rows);
        } else {
          UndoRestores(s, rows);
        }
      }
  }

  function RowsIn(op: FileOp): seq<Row> {
    match op case FileAdd(row, _) => [row] case FileAddBatch(rows, _, _) => rows
  }

  function Answer(c: Codec, s: Store, text: string, op: FileOp): FileResult {
    match op
    case FileAdd(row, works) => AddToFile(c, s, text, row, works).2
    case FileAddBatch(rows, opens, works) => AddBatchToFile(c, s, text, rows, opens, works).2
  }

  /** What was answered as stored is there when the file is loaded again; any other answer leaves the maps and
      the file as they were. */
  lemma AnswerLasts(c: Codec, s: Store, text: string, op: FileOp)
    requires Lawful(c) && LoadText(c, text) == Loaded(s) && Clean(text) && FreshFileOp(c, s, op)
    ensures var (t, after) := FileStep(c, s, text, op);
            if Answer(c, s, text, op) == Ok then
              LoadText(c, after).Loaded? && forall row :: row in RowsIn(op) ==> Holds(LoadText(c, after).store, row)
            else t == s && after == text
  {
    StepReloads(c, s, text, op);
    match op
    case FileAdd(row, works) => AddAnswers(c, s, text, row, works);
    case FileAddBatch(rows, opens, works) => BatchAnswers(c, s, text, rows, opens, works);
  }

  /** A carriage return at the end of a line is not part of it. */
  lemma CarriageReturn(c: Codec, s: Store, r: Record, rest: string)
    requires Lawful(c) && |c.enc(r)| + 1 < 1048576
    ensures LoadFrom(c, s, c.enc(r) + "\r" + "\n" + rest) == LoadFrom(c, s, c.enc(r) + "\n" + rest)
    ensures LoadFrom(c, s, "\r" + "\n" + rest) == LoadFrom(c, s, rest)
  {
    FirstLine(c, s, c.enc(r) + "\r", rest);
    FirstLine(c, s, c.enc(r), rest);
    FirstLine(c, s, "\r", rest);
    assert (c.enc(r) + "\r")[..|c.enc(r)|] == c.enc(r);
  }

  /** A file of one record loads as its entry if and only if the line, without its newline, is shorter than
      1 MiB. */
  lemma OneRecord(c: Codec, r: Record)
    requires Lawful(c)
    ensures LoadText(c, c.enc(r) + "\n")
         == if |c.enc(r)| < 1048576 then
              Loaded(Store(map[r.shortURL := UrlInfo(r.originalURL, r.userID, r.deleted)],
                           map[r.originalURL := r.shortURL]))
            else LoadError
  {
    FirstLine(c, EMPTY, c.enc(r), "");
    assert c.enc(r) + "\n" + "" == c.enc(r) + "\n";
    assert DropCR(c.enc(r)) == c.enc(r);
  }

  /** After any run of adds and batches, successful, refused or undone, loading the file gives exactly the
      maps in memory. */
  lemma {:induction false} RunReloads(c: Codec, s: Store, text: string, ops: seq<FileOp>)
    requires Lawful(c) && LoadText(c, text) == Loaded(s) && Clean(text) && FreshFileRun(c, s, text, ops)
    ensures var end := FileRun(c, s, text, ops); LoadText(c, end.1) == Loaded(end.0)
    decreases ops
  {
    if ops != [] {
      StepReloads(c, s, text, ops[0]);
      var next := FileStep(c, s, text, ops[0]);
      RunReloads(c, next.0, next.1, ops[1..]);
    }
  }

  /** A file that DeleteBatch has rewritten cannot be loaded again. */
  lemma SavedFileRejected(c: Codec, text: string)
    requires Lawful(c) && IsArrayText(text)
    ensures LoadText(c, text) == LoadError
  {
    if "[\n" <= text {
      assert text == "[" + "\n" + text[2..];
      FirstLine(c, EMPTY, "[", text[2..]);
    } else {
      assert text == "[]" + "\n" + "";
      FirstLine(c, EMPTY, "[]", "");
    }
  }
}
