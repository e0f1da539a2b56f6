/** The parts of Go's strings package that the repository calls, and how they undo each other. */
module Strings {
  // unicode.IsSpace
  predicate IsSpace(c: char) {
    || '\t' <= c <= '\r' || c == ' ' || c == '\U{85}' || c == '\U{A0}' || c == '\U{1680}'
    || '\U{2000}' <= c <= '\U{200A}' || c == '\U{2028}' || c == '\U{2029}' || c == '\U{202F}'
    || c == '\U{205F}' || c == '\U{3000}'
  }

  /** These are the 25 characters of Unicode's White_Space property, by their code points. */
  lemma SpaceCodes(c: char)
    ensures IsSpace(c) <==>
            c as int in {0x9, 0xA, 0xB, 0xC, 0xD, 0x20, 0x85, 0xA0, 0x1680, 0x2000, 0x2001, 0x2002, 0x2003, 0x2004,
                         0x2005, 0x2006, 0x2007, 0x2008, 0x2009, 0x200A, 0x2028, 0x2029, 0x202F, 0x205F, 0x3000}
  {
  }

  function TrimLeft(s: string): string {
    if s != "" && IsSpace(s[0]) then TrimLeft(s[1..]) else s
  }

  function TrimEnd(s: string): string {
    if s != "" && IsSpace(s[|s| - 1]) then TrimEnd(s[..|s| - 1]) else s
  }

  function TrimSpace(s: string): string {
    TrimEnd(TrimLeft(s))
  }

  function Split(s: string, sep: char): (pieces: seq<string>)
    ensures pieces != [] && Join(pieces, sep) == s
    ensures forall i :: 0 <= i < |pieces| ==> sep !in pieces[i]
  {
    if s == "" then [""]
    else
      var rest := Split(s[1..], sep);
      if s[0] == sep then Prepended(rest, sep); [""] + rest
      else Grown(s[0], rest, sep); [[s[0]] + rest[0]] + rest[1..]
  }

  function Join(pieces: seq<string>, sep: char): string
    requires pieces != []
  {
    if |pieces| == 1 then pieces[0] else pieces[0] + [sep] + Join(pieces[1..], sep)
  }

  lemma Prepended(pieces: seq<string>, sep: char)
    requires pieces != []
    ensures Join([""] + pieces, sep) == [sep] + Join(pieces, sep)
  {
    assert ([""] + pieces)[1..] == pieces;
  }

  lemma Grown(c: char, pieces: seq<string>, sep: char)
    requires pieces != []
    ensures Join([[c] + pieces[0]] + pieces[1..], sep) == [c] + Join(pieces, sep)
  {
    assert ([[c] + pieces[0]] + pieces[1..])[1..] == pieces[1..];
  }

  // strings.Index for a separator of one letter
  function Index(s: string, c: char): (i: int)
    ensures -1 <= i < |s|
    ensures if i == -1 then c !in s else s[i] == c && c !in s[..i]
  {
    if s == "" then -1
    else if s[0] == c then 0
    else
      var i := Index(s[1..], c);
      if i == -1 then -1
      else assert s[..i + 1] == [s[0]] + s[1..][..i]; i + 1
  }

  predicate HasPrefix(s: string, prefix: string) {
    prefix <= s
  }

  // ---- Splitting ----

  lemma {:induction false} SplitWhole(s: string, sep: char)
    requires sep !in s
    ensures Split(s, sep) == [s]
  {
    if s != "" {
      SplitWhole(s[1..], sep);
      assert [s[0]] + s[1..] == s;
    }
  }

  lemma SplitAgain(s: string, sep: char)
    requires s != ""
    ensures var rest := Split(s[1..], sep);
            Split(s, sep) == if s[0] == sep then [""] + rest else [[s[0]] + rest[0]] + rest[1..]
  {
  }

  lemma GrowFirst(first: string, others: seq<string>)
    requires first != ""
    ensures var pieces := [first[1..]] + others; [[first[0]] + pieces[0]] + pieces[1..] == [first] + others
  {
    assert [first[0]] + first[1..] == first;
  }

  lemma {:induction false} SplitFirst(first: string, rest: string, sep: char)
    requires sep !in first
    ensures Split(first + [sep] + rest, sep) == [first] + Split(rest, sep)
  {
    var s := first + [sep] + rest;
    if first == "" {
      SplitAgain(s, sep);
      assert s[1..] == rest;
    } else {
      SplitFirst(first[1..], rest, sep);
      SplitAgain(s, sep);
      assert s[1..] == first[1..] + [sep] + rest;
      GrowFirst(first, Split(rest, sep));
    }
  }

  /** Joining pieces and splitting again gives the pieces back; Split's contract is the other direction. */
  lemma {:induction false} SplitJoin(pieces: seq<string>, sep: char)
    requires pieces != [] && forall i :: 0 <= i < |pieces| ==> sep !in pieces[i]
    ensures Split(Join(pieces, sep), sep) == pieces
    decreases |pieces|
  {
    if |pieces| == 1 {
      SplitWhole(pieces[0], sep);
    } else {
      SplitJoin(pieces[1..], sep);
      SplitFirst(pieces[0], Join(pieces[1..], sep), sep);
    }
  }

  // ---- Trimming ----

  predicate Blank(s: string) {
    forall i :: 0 <= i < |s| ==> IsSpace(s[i])
  }

  predicate Trimmed(s: string) {
    s != "" ==> !IsSpace(s[0]) && !IsSpace(s[|s| - 1])
  }

  /** A trimmed text with white space around it. */
  datatype Padded = Padded(before: string, text: string, after: string) {
    predicate Valid() {
      Blank(before) && Trimmed(text) && Blank(after)
    }

    function Shown(): string {
      before + text + after
    }
  }

  lemma {:induction false} TrimLeftBlank(before: string, s: string)
    requires Blank(before)
    ensures TrimLeft(before + s) == TrimLeft(s)
  {
    if before == "" {
      assert before + s == s;
    } else {
      TrimLeftBlank(before[1..], s);
      assert (before + s)[1..] == before[1..] + s;
    }
  }

  lemma {:induction false} TrimEndBlank(s: string, after: string)
    requires Blank(after)
    ensures TrimEnd(s + after) == TrimEnd(s)
    decreases after
  {
    if after == "" {
      assert s + after == s;
    } else {
      TrimEndBlank(s, after[..|after| - 1]);
      assert (s + after)[..|s + after| - 1] == s + after[..|after| - 1];
    }
  }

  /** Trimming removes exactly the white space around a trimmed text... */
  lemma {:induction false} TrimPadded(p: Padded)
    requires p.Valid()
    ensures TrimSpace(p.Shown()) == p.text
  {
    assert p.Shown() == p.before + (p.text + p.after);
    TrimLeftBlank(p.before, p.text + p.after);
    if p.text == "" {
      assert p.text + p.after == p.after + "" == p.after;
      TrimLeftBlank(p.after, "");
    } else {
      TrimEndBlank(p.text, p.after);
    }
  }

  lemma {:induction false} LeftSplits(s: string) returns (before: string)
    ensures Blank(before) && s == before + TrimLeft(s)
    ensures TrimLeft(s) == "" || !IsSpace(TrimLeft(s)[0])
  {
    before := "";
    if s != "" && IsSpace(s[0]) {
      var rest := LeftSplits(s[1..]);
      before := [s[0]] + rest;
      assert s == [s[0]] + s[1..];
    }
  }

  lemma {:induction false} EndSplits(s: string) returns (after: string)
    ensures Blank(after) && s == TrimEnd(s) + after
    ensures TrimEnd(s) == "" || !IsSpace(TrimEnd(s)[|TrimEnd(s)| - 1])
  {
    after := "";
    if s != "" && IsSpace(s[|s| - 1]) {
      var front := EndSplits(s[..|s| - 1]);
      after := front + [s[|s| - 1]];
      assert s == s[..|s| - 1] + [s[|s| - 1]];
    }
  }

  /** ...and every text is one trimmed text with white space around it. */
  lemma {:induction false} EveryTextPadded(s: string) returns (p: Padded)
    ensures p.Valid() && p.Shown() == s && p.text == TrimSpace(s)
  {
    var before := LeftSplits(s);
    var after := EndSplits(TrimLeft(s));
    p := Padded(before, TrimSpace(s), after);
    assert s == before + (TrimSpace(s) + after);
    assert TrimSpace(s) != "" ==> TrimSpace(s)[0] == TrimLeft(s)[0];
  }
}
