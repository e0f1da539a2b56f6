/** The parsers of the Accept-Encoding and Content-Encoding headers (sections 12.5.3 and 8.4 of RFC 9110). */
module Headers {
  import opened Optional
  import opened Strings

  // `parseFloat` is strconv.ParseFloat, whose results F include NaN and the infinities.
  method ParseAcceptEncoding<F>(header: string, parseFloat: string -> Option<F>, one: F)
    returns (result: map<string, F>)
    ensures result == AcceptOf(header, parseFloat, one)
  {
    result := map[];
    var headerParts := Split(header, ',');
    for i := 0 to |headerParts|
      invariant result == AcceptParts(headerParts[..i], parseFloat, one)
    {
      var headerPart := TrimSpace(headerParts[i]);
      NextPart(headerParts, i, parseFloat, one);
      if headerPart == "" {
        continue;
      }
      var encoding: string;
      var parameters: seq<string>;
      var semicolonPosition := Index(headerPart, ';');
      if semicolonPosition == -1 {
        encoding := headerPart;
        parameters := [];
      } else {
        encoding := TrimSpace(headerPart[..semicolonPosition]);
        parameters := Split(headerPart[semicolonPosition + 1..], ';');
      }
      ghost var earlier := result;
      ghost var params := Params(headerPart, semicolonPosition);
      assert params == TrimAll(parameters) == params[0..];
      ghost var weight := WeightIn(params, parseFloat, one);
      result := result[encoding := one];
      for j := 0 to |parameters|
        invariant result == earlier[encoding := one]
        invariant weight == WeightIn(params[j..], parseFloat, one)
      {
        var param := TrimSpace(parameters[j]);
        WeightStep(params, j, parseFloat, one);
        if HasPrefix(param, "q=") {
          var q := parseFloat(param[2..]);
          assert weight == q.GetOr(one) by {
            assert param == params[j];
          }
          if q.Some? {
            SetTwice(earlier, encoding, one, q.value);
            result := result[encoding := q.value];
          }
          assert result == earlier[encoding := weight];
          break;
        }
      }
      assert result == earlier[encoding := weight];
    }
    assert headerParts[..|headerParts|] == headerParts;
  }

  method ParseContentEncoding(header: string) returns (result: seq<string>)
    ensures result == ContentOf(header)
  {
    result := [];
    var headerParts := Split(header, ',');
    for i := 0 to |headerParts|
      invariant result == NonEmpty(TrimAll(headerParts[..i]))
    {
      var trimmedPart := TrimSpace(headerParts[i]);
      assert TrimAll(headerParts[..i + 1]) == TrimAll(headerParts[..i]) + [trimmedPart];
      NonEmptyAppend(TrimAll(headerParts[..i]), trimmedPart);
      if trimmedPart == "" {
        continue;
      }
      result := result + [trimmedPart];
    }
    assert headerParts[..|headerParts|] == headerParts;
  }

  // ---- What the loops compute ----

  function TrimAll(texts: seq<string>): (trimmed: seq<string>)
    ensures |trimmed| == |texts|
  {
    seq(|texts|, i requires 0 <= i < |texts| => TrimSpace(texts[i]))
  }

  // A coding and its parameters.
  function Fields(part: string): (fields: seq<string>)
    ensures fields != []
  {
    TrimAll(Split(part, ';'))
  }

  function WeightIn<F>(params: seq<string>, parseFloat: string -> Option<F>, one: F): F {
    if params == [] then one
    else if HasPrefix(params[0], "q=") then
      match parseFloat(params[0][2..])
      case Some(q) => q
      case None => one
    else WeightIn(params[1..], parseFloat, one)
  }

  lemma WeightStep<F>(params: seq<string>, j: nat, parseFloat: string -> Option<F>, one: F)
    requires j < |params|
    ensures WeightIn(params[j..], parseFloat, one)
         == if HasPrefix(params[j], "q=") then parseFloat(params[j][2..]).GetOr(one)
            else WeightIn(params[j + 1..], parseFloat, one)
  {
    assert params[j..][1..] == params[j + 1..];
  }

  function AcceptParts<F>(parts: seq<string>, parseFloat: string -> Option<F>, one: F): map<string, F> {
    if parts == [] then map[]
    else
      var earlier := AcceptParts(parts[..|parts| - 1], parseFloat, one);
      var fields := Fields(parts[|parts| - 1]);
      if fields == [""] then earlier
      else earlier[fields[0] := WeightIn(fields[1..], parseFloat, one)]
  }

  function AcceptOf<F>(header: string, parseFloat: string -> Option<F>, one: F): map<string, F> {
    AcceptParts(Split(header, ','), parseFloat, one)
  }

  function NonEmpty(texts: seq<string>): seq<string> {
    if texts == [] then []
    else if texts[0] == "" then NonEmpty(texts[1..])
    else [texts[0]] + NonEmpty(texts[1..])
  }

  function ContentOf(header: string): seq<string> {
    NonEmpty(TrimAll(Split(header, ',')))
  }

  lemma {:induction false} NonEmptyAppend(texts: seq<string>, text: string)
    ensures NonEmpty(texts + [text]) == NonEmpty(texts) + if text == "" then [] else [text]
  {
    if texts == [] {
      assert texts + [text] == [text];
    } else {
      NonEmptyAppend(texts[1..], text);
      assert (texts + [text])[1..] == texts[1..] + [text];
    }
  }

  lemma SetTwice<F>(m: map<string, F>, key: string, first: F, second: F)
    ensures m[key := first][key := second] == m[key := second]
  {
  }

  // ---- White space around an element does not change its fields ----

  lemma {:induction false} TrimAround(before: string, s: string, after: string)
    requires Blank(before) && Blank(after)
    ensures TrimSpace(before + s + after) == TrimSpace(s)
  {
    var p := EveryTextPadded(s);
    var wider := Padded(before + p.before, p.text, p.after + after);
    assert wider.Shown() == before + s + after;
    TrimPadded(wider);
  }

  lemma {:induction false} SplitBefore(before: string, s: string)
    requires Blank(before)
    ensures Fields(before + s) == Fields(s)
  {
    var pieces := Split(s, ';');
    var wider := [before + pieces[0]] + pieces[1..];
    assert wider[1..] == pieces[1..];
    assert Join(wider, ';') == before + s;
    SplitJoin(wider, ';');
    TrimAround(before, pieces[0], "");
    assert before + pieces[0] + "" == before + pieces[0];
    assert TrimAll(wider) == TrimAll(pieces);
  }

  lemma {:induction false} JoinAfter(pieces: seq<string>, after: string, sep: char)
    requires pieces != []
    ensures Join(pieces[..|pieces| - 1] + [pieces[|pieces| - 1] + after], sep) == Join(pieces, sep) + after
  {
    if |pieces| > 1 {
      var wider := pieces[..|pieces| - 1] + [pieces[|pieces| - 1] + after];
      JoinAfter(pieces[1..], after, sep);
      assert wider[1..] == pieces[1..][..|pieces| - 2] + [pieces[|pieces| - 1] + after];
    }
  }

  lemma {:induction false} SplitAfter(s: string, after: string)
    requires Blank(after)
    ensures Fields(s + after) == Fields(s)
  {
    var pieces := Split(s, ';');
    var last := pieces[|pieces| - 1];
    var wider := pieces[..|pieces| - 1] + [last + after];
    JoinAfter(pieces, after, ';');
    SplitJoin(wider, ';');
    TrimAround("", last, after);
    assert "" + last + after == last + after;
    assert TrimAll(wider) == TrimAll(pieces);
  }

  lemma {:induction false} PartTrimmed(part: string)
    ensures Fields(TrimSpace(part)) == Fields(part)
    ensures TrimSpace(part) == "" <==> Fields(part) == [""]
  {
    var p := EveryTextPadded(part);
    SplitBefore(p.before, p.text + p.after);
    SplitAfter(p.text, p.after);
    assert part == p.before + (p.text + p.after);
    if Fields(part) == [""] {
      var only := Split(p.text, ';');
      assert |only| == 1 && only[0] == p.text;
      assert Fields(p.text)[0] == TrimSpace(p.text);
      TrimPadded(Padded("", p.text, ""));
      assert "" + p.text + "" == p.text;
    }
  }

  // The trimmed element is cut at its first semicolon.
  function Coding(part: string, position: int): string
    requires -1 <= position < |part|
  {
    if position == -1 then part else TrimSpace(part[..position])
  }

  function Params(part: string, position: int): seq<string>
    requires -1 <= position < |part|
  {
    if position == -1 then [] else TrimAll(Split(part[position + 1..], ';'))
  }

  lemma TrimAllCons(first: string, rest: seq<string>)
    ensures TrimAll([first] + rest) == [TrimSpace(first)] + TrimAll(rest)
  {
  }

  lemma {:induction false} PartFields(part: string)
    requires TrimSpace(part) != ""
    ensures var trimmed := TrimSpace(part);
            var position := Index(trimmed, ';');
            && Fields(part) != [""]
            && Fields(part)[0] == Coding(trimmed, position)
            && Fields(part)[1..] == Params(trimmed, position)
  {
    var trimmed := TrimSpace(part);
    var position := Index(trimmed, ';');
    PartTrimmed(part);
    if position == -1 {
      SplitWhole(trimmed, ';');
      var p := EveryTextPadded(part);
      TrimPadded(Padded("", p.text, ""));
      assert "" + p.text + "" == trimmed;
    } else {
      var first, rest := trimmed[..position], trimmed[position + 1..];
      assert trimmed == first + [';'] + rest;
      SplitFirst(first, rest, ';');
      TrimAllCons(first, Split(rest, ';'));
    }
  }

  lemma {:induction false} NextPart<F>(parts: seq<string>, i: nat, parseFloat: string -> Option<F>, one: F)
    requires i < |parts|
    ensures var (earlier, trimmed) := (AcceptParts(parts[..i], parseFloat, one), TrimSpace(parts[i]));
            var position := Index(trimmed, ';');
            AcceptParts(parts[..i + 1], parseFloat, one)
              == if trimmed == "" then earlier
                 else earlier[Coding(trimmed, position) := WeightIn(Params(trimmed, position), parseFloat, one)]
  {
    assert parts[..i + 1][..i] == parts[..i];
    PartTrimmed(parts[i]);
    if TrimSpace(parts[i]) != "" {
      PartFields(parts[i]);
    }
  }

  // ---- Printing a header ----

  // An element of the list: a coding and its parameters, each with white space around it.
  type Element = e: seq<Padded> | e != [] witness [Padded("", "", "")]

  ghost predicate Clean(p: Padded, seps: set<char>) {
    p.Valid() && forall c :: c in seps ==> c !in p.text
  }

  ghost predicate Printable(elements: seq<Element>) {
    && elements != []
    && forall i, j :: 0 <= i < |elements| && 0 <= j < |elements[i]| ==> Clean(elements[i][j], {',', ';'})
  }

  function ShowAll(texts: seq<Padded>): (shown: seq<string>)
    ensures |shown| == |texts|
  {
    seq(|texts|, i requires 0 <= i < |texts| => texts[i].Shown())
  }

  function ShowElements(elements: seq<Element>): (shown: seq<string>)
    ensures |shown| == |elements|
  {
    seq(|elements|, i requires 0 <= i < |elements| => Join(ShowAll(elements[i]), ';'))
  }

  function Print(elements: seq<Element>): string
    requires elements != []
  {
    Join(ShowElements(elements), ',')
  }

  function Texts(e: seq<Padded>): (texts: seq<string>)
    ensures |texts| == |e|
  {
    seq(|e|, i requires 0 <= i < |e| => e[i].text)
  }

  // ---- What a printed Accept-Encoding header means ----

  ghost predicate IsEmpty(e: Element) {
    Texts(e) == [""]
  }

  /** The weight of the first parameter that starts with "q=", or `one` if there is none or it is no number. */
  ghost predicate Weighs<F>(params: seq<string>, parseFloat: string -> Option<F>, one: F, weight: F) {
    || (weight == one && forall k :: 0 <= k < |params| ==> !HasPrefix(params[k], "q="))
    || (exists k :: 0 <= k < |params| && HasPrefix(params[k], "q=")
          && (forall l :: 0 <= l < k ==> !HasPrefix(params[l], "q="))
          && weight == parseFloat(params[k][2..]).GetOr(one))
  }

  ghost predicate LastOf(elements: seq<Element>, coding: string, i: nat) {
    && i < |elements| && !IsEmpty(elements[i]) && elements[i][0].text == coding
    && forall j :: i < j < |elements| ==> IsEmpty(elements[j]) || elements[j][0].text != coding
  }

  ghost predicate Accepts<F>(elements: seq<Element>, parseFloat: string -> Option<F>, one: F, result: map<string, F>) {
    && (forall coding :: coding in result ==> exists i: nat :: LastOf(elements, coding, i))
    && (forall coding, i: nat :: LastOf(elements, coding, i) ==>
          coding in result && Weighs(Texts(elements[i])[1..], parseFloat, one, result[coding]))
  }

  lemma {:induction false} WeightFound<F>(params: seq<string>, parseFloat: string -> Option<F>, one: F)
    ensures Weighs(params, parseFloat, one, WeightIn(params, parseFloat, one))
  {
    if params != [] && !HasPrefix(params[0], "q=") {
      var rest := params[1..];
      WeightFound(rest, parseFloat, one);
      if exists k :: 0 <= k < |rest| && HasPrefix(rest[k], "q=") {
        var k :| 0 <= k < |rest| && HasPrefix(rest[k], "q=")
          && (forall l :: 0 <= l < k ==> !HasPrefix(rest[l], "q="))
          && WeightIn(params, parseFloat, one) == parseFloat(rest[k][2..]).GetOr(one);
        assert params[k + 1] == rest[k];
        assert forall l :: 0 < l < k + 1 ==> params[l] == rest[l - 1];
      }
    }
  }

  lemma {:induction false} NoSeparator(p: Padded, seps: set<char>, sep: char)
    requires Clean(p, seps) && sep in seps && !IsSpace(sep)
    ensures sep !in p.Shown()
  {
  }

  lemma {:induction false} ElementShown(e: Element)
    requires forall j :: 0 <= j < |e| ==> Clean(e[j], {',', ';'})
    ensures ',' !in Join(ShowAll(e), ';')
    ensures Fields(Join(ShowAll(e), ';')) == Texts(e)
  {
    var shown := ShowAll(e);
    forall j | 0 <= j < |e| ensures ',' !in shown[j] && ';' !in shown[j] && TrimSpace(shown[j]) == e[j].text {
      NoSeparator(e[j], {',', ';'}, ',');
      NoSeparator(e[j], {',', ';'}, ';');
      TrimPadded(e[j]);
    }
    SplitJoin(shown, ';');
    AbsentFromJoin(shown, ';', ',');
  }

  lemma {:induction false} AbsentFromJoin(pieces: seq<string>, sep: char, c: char)
    requires pieces != [] && c != sep && forall i :: 0 <= i < |pieces| ==> c !in pieces[i]
    ensures c !in Join(pieces, sep)
  {
    if |pieces| > 1 {
      AbsentFromJoin(pieces[1..], sep, c);
    }
  }

  lemma {:induction false} AcceptsMore<F>(elements: seq<Element>, parseFloat: string -> Option<F>, one: F,
                                          earlier: map<string, F>)
    requires elements != [] && Accepts(elements[..|elements| - 1], parseFloat, one, earlier)
    ensures var texts := Texts(elements[|elements| - 1]);
            Accepts(elements, parseFloat, one,
                    if texts == [""] then earlier else earlier[texts[0] := WeightIn(texts[1..], parseFloat, one)])
  {
    var n := |elements| - 1;
    var front, last := elements[..n], elements[n];
    var texts := Texts(last);
    var weight := WeightIn(texts[1..], parseFloat, one);
    var result := if texts == [""] then earlier else earlier[texts[0] := weight];
    WeightFound(texts[1..], parseFloat, one);
    forall coding | coding in result ensures exists i: nat :: LastOf(elements, coding, i) {
      if texts != [""] && coding == texts[0] {
        assert LastOf(elements, coding, n);
      } else {
        var i: nat :| LastOf(front, coding, i);
        assert LastOf(elements, coding, i);
      }
    }
    forall coding, i: nat | LastOf(elements, coding, i)
      ensures coding in result && Weighs(Texts(elements[i])[1..], parseFloat, one, result[coding]) {
      if i < n {
        assert elements[n] == last;
        assert LastOf(front, coding, i);
      }
    }
  }

  lemma {:induction false} PartsAccept<F>(elements: seq<Element>, parseFloat: string -> Option<F>, one: F)
    requires forall i, j :: 0 <= i < |elements| && 0 <= j < |elements[i]| ==> Clean(elements[i][j], {',', ';'})
    ensures Accepts(elements, parseFloat, one, AcceptParts(ShowElements(elements), parseFloat, one))
    decreases |elements|
  {
    if elements != [] {
      var n := |elements| - 1;
      PartsAccept(elements[..n], parseFloat, one);
      ElementShown(elements[n]);
      assert ShowElements(elements)[..n] == ShowElements(elements[..n]);
      AcceptsMore(elements, parseFloat, one, AcceptParts(ShowElements(elements[..n]), parseFloat, one));
    }
  }

  /** However a list of codings is laid out, with white space, empty elements and other parameters, the
      parser returns the map in which the last occurrence of each coding wins. */
  lemma {:induction false} AcceptRoundTrip<F>(elements: seq<Element>, parseFloat: string -> Option<F>, one: F)
    requires Printable(elements)
    ensures Accepts(elements, parseFloat, one, AcceptOf(Print(elements), parseFloat, one))
  {
    PartsAccept(elements, parseFloat, one);
    PrintSplits(elements);
  }

  lemma {:induction false} PrintSplits(elements: seq<Element>)
    requires Printable(elements)
    ensures Split(Print(elements), ',') == ShowElements(elements)
  {
    forall i | 0 <= i < |elements| ensures ',' !in ShowElements(elements)[i] {
      ElementShown(elements[i]);
    }
    SplitJoin(ShowElements(elements), ',');
  }

  lemma {:induction false} PadAll(pieces: seq<string>) returns (texts: seq<Padded>)
    requires forall i :: 0 <= i < |pieces| ==> ',' !in pieces[i] && ';' !in pieces[i]
    ensures ShowAll(texts) == pieces
    ensures forall j :: 0 <= j < |texts| ==> Clean(texts[j], {',', ';'})
  {
    texts := [];
    if pieces != [] {
      var p := EveryTextPadded(pieces[0]);
      assert forall c :: c in p.text ==> c in p.Shown();
      var rest := PadAll(pieces[1..]);
      texts := [p] + rest;
      assert ShowAll(texts) == [p.Shown()] + ShowAll(rest);
    }
  }

  lemma {:induction false} EveryPartShown(part: string) returns (e: Element)
    requires ',' !in part
    ensures Join(ShowAll(e), ';') == part
    ensures forall j :: 0 <= j < |e| ==> Clean(e[j], {',', ';'})
  {
    var pieces := Split(part, ';');
    forall i | 0 <= i < |pieces| ensures ',' !in pieces[i] {
      PieceWithin(pieces, ';', i, ',');
    }
    var texts := PadAll(pieces);
    assert |texts| == |pieces|;
    e := texts;
  }

  lemma {:induction false} PieceWithin(pieces: seq<string>, sep: char, i: nat, c: char)
    requires i < |pieces| && c !in Join(pieces, sep)
    ensures c !in pieces[i]
    decreases i
  {
    if i > 0 {
      PieceWithin(pieces[1..], sep, i - 1, c);
    }
  }

  lemma {:induction false} EveryPartsShown(parts: seq<string>) returns (elements: seq<Element>)
    requires forall i :: 0 <= i < |parts| ==> ',' !in parts[i]
    ensures ShowElements(elements) == parts
    ensures forall i, j :: 0 <= i < |elements| && 0 <= j < |elements[i]| ==> Clean(elements[i][j], {',', ';'})
  {
    elements := [];
    if parts != [] {
      var e := EveryPartShown(parts[0]);
      var rest := EveryPartsShown(parts[1..]);
      elements := [e] + rest;
      assert ShowElements(elements) == [Join(ShowAll(e), ';')] + ShowElements(rest);
    }
  }

  /** Every header is such a print, so the round trip says what the parser returns on any input. */
  lemma {:induction false} EveryHeaderPrinted(header: string) returns (elements: seq<Element>)
    ensures Printable(elements) && Print(elements) == header
  {
    elements := EveryPartsShown(Split(header, ','));
    assert |elements| == |Split(header, ',')|;
  }

  // ---- Content-Encoding ----

  ghost predicate PrintableList(texts: seq<Padded>) {
    texts != [] && forall i :: 0 <= i < |texts| ==> Clean(texts[i], {','})
  }

  /** However a list of codings is laid out, with white space and empty elements, parsing gives the codings
      back in order. */
  lemma {:induction false} ContentRoundTrip(texts: seq<Padded>)
    requires PrintableList(texts)
    ensures ContentOf(Join(ShowAll(texts), ',')) == NonEmpty(Texts(texts))
  {
    var shown := ShowAll(texts);
    forall i | 0 <= i < |texts| ensures ',' !in shown[i] && TrimSpace(shown[i]) == texts[i].text {
      NoSeparator(texts[i], {','}, ',');
      TrimPadded(texts[i]);
    }
    SplitJoin(shown, ',');
    assert TrimAll(shown) == Texts(texts);
  }

  lemma {:induction false} NonEmptyAll(names: seq<string>)
    requires forall i :: 0 <= i < |names| ==> names[i] != ""
    ensures NonEmpty(names) == names
  {
    if names != [] {
      NonEmptyAll(names[1..]);
    }
  }

  lemma {:induction false} NonEmptyMembers(texts: seq<string>)
    ensures forall i :: 0 <= i < |NonEmpty(texts)| ==> NonEmpty(texts)[i] != "" && NonEmpty(texts)[i] in texts
  {
    if texts != [] {
      NonEmptyMembers(texts[1..]);
    }
  }

  ghost predicate ContentName(name: string) {
    name != "" && Trimmed(name) && ',' !in name
  }

  /** Printing then parsing gives back any non-empty list of codings; parsing then printing gives back a
      list that parses to the same. */
  lemma {:induction false} ContentPrintParse(names: seq<string>)
    requires names != [] && forall i :: 0 <= i < |names| ==> ContentName(names[i])
    ensures ContentOf(Join(names, ',')) == names
  {
    var texts := seq(|names|, i requires 0 <= i < |names| => Padded("", names[i], ""));
    forall i | 0 <= i < |names| ensures ShowAll(texts)[i] == names[i] && Clean(texts[i], {','}) {
      assert "" + names[i] + "" == names[i];
    }
    assert ShowAll(texts) == names;
    assert Texts(texts) == names;
    ContentRoundTrip(texts);
    NonEmptyAll(names);
  }

  lemma {:induction false} ContentParsePrint(header: string)
    ensures forall i :: 0 <= i < |ContentOf(header)| ==> ContentName(ContentOf(header)[i])
    ensures ContentOf(header) != [] ==> ContentOf(Join(ContentOf(header), ',')) == ContentOf(header)
  {
    var parts := Split(header, ',');
    NonEmptyMembers(TrimAll(parts));
    forall i | 0 <= i < |parts| ensures TrimAll(parts)[i] != "" ==> ContentName(TrimAll(parts)[i]) {
      var p := EveryTextPadded(parts[i]);
      assert forall c :: c in p.text ==> c in p.Shown();
    }
    var result := ContentOf(header);
    forall i | 0 <= i < |result| ensures ContentName(result[i]) {
      var k :| 0 <= k < |parts| && TrimAll(parts)[k] == result[i];
    }
    if result != [] {
      ContentPrintParse(result);
    }
  }
}
