/** GenerateID: the first `size` characters of the unpadded base64url text of `size` random bytes. */
module Ids {

  type Byte = b: nat | b < 256

  type Six = d: nat | d < 64

  // The URL-safe alphabet (section 5 of RFC 4648).
  function Letter(d: Six): char {
    if d < 26 then 'A' + d as char
    else if d < 52 then 'a' + (d - 26) as char
    else if d < 62 then '0' + (d - 52) as char
    else if d == 62 then '-'
    else '_'
  }

  predicate IsLetter(c: char) {
    'A' <= c <= 'Z' || 'a' <= c <= 'z' || '0' <= c <= '9' || c == '-' || c == '_'
  }

  function Digit(c: char): Six
    requires IsLetter(c)
  {
    if 'A' <= c <= 'Z' then c as int - 'A' as int
    else if 'a' <= c <= 'z' then c as int - 'a' as int + 26
    else if '0' <= c <= '9' then c as int - '0' as int + 52
    else if c == '-' then 62
    else 63
  }

  // Six-bit groups, without padding (section 3.2 of RFC 4648); the last group is filled with zero bits.
  function Sextets(b: seq<Byte>): seq<Six>
    decreases |b|
  {
    if |b| == 0 then []
    else if |b| == 1 then [b[0] / 4, b[0] % 4 * 16]
    else if |b| == 2 then [b[0] / 4, b[0] % 4 * 16 + b[1] / 16, b[1] % 16 * 4]
    else Group(b) + Sextets(b[3..])
  }

  // Three bytes make four letters.
  function Group(b: seq<Byte>): seq<Six>
    requires |b| >= 3
  {
    [b[0] / 4, b[0] % 4 * 16 + b[1] / 16, b[1] % 16 * 4 + b[2] / 64, b[2] % 64]
  }

  function Letters(d: seq<Six>): string {
    seq(|d|, i requires 0 <= i < |d| => Letter(d[i]))
  }

  function EncodeToString(b: seq<Byte>): string {
    Letters(Sextets(b))
  }

  // The text of n bytes has at least n characters, so the slice is in bounds.
  lemma {:induction false} SextetsLength(b: seq<Byte>)
    ensures |Sextets(b)| == (4 * |b| + 2) / 3 >= |b|
    decreases |b|
  {
    if |b| >= 3 { SextetsLength(b[3..]); }
  }

  // The sextets that the slice of the text keeps.
  function IdSextets(b: seq<Byte>): (d: seq<Six>)
    ensures |d| == |b|
  {
    SextetsLength(b);
    Sextets(b)[..|b|]
  }

  function IdOf(b: seq<Byte>): (id: string)
    ensures |id| == |b|
    ensures forall c :: c in id ==> IsLetter(c)
  {
    Letters(IdSextets(b))
  }

  /** rand.Read fills the buffer with whatever bytes `random` are. */
  method GenerateID(size: nat, random: seq<Byte>) returns (id: string)
    requires |random| == size
    ensures id == IdOf(random) && |id| == size
  {
    var b := new Byte[size];
    var i := 0;
    while i < size
      invariant i <= size
      invariant b[..i] == random[..i]
    {
      b[i] := random[i];
      i := i + 1;
    }
    assert b[..] == random;
    SextetsLength(b[..]);
    id := EncodeToString(b[..])[..size];
    assert id == IdOf(random);
  }

  // ---- Numbers ----

  function Pow(base: nat, n: nat): nat {
    if n == 0 then 1 else Pow(base, n - 1) * base
  }

  // Digits read as a number, most significant first.
  function Num(base: nat, d: seq<nat>): nat {
    if d == [] then 0 else Num(base, d[..|d| - 1]) * base + d[|d| - 1]
  }

  predicate Below(base: nat, d: seq<nat>) {
    forall i :: 0 <= i < |d| ==> d[i] < base
  }

  lemma {:induction false} PowAdd(base: nat, m: nat, n: nat)
    ensures Pow(base, m + n) == Pow(base, m) * Pow(base, n)
  {
    if n > 0 {
      PowAdd(base, m, n - 1);
      Associate(Pow(base, m), Pow(base, n - 1), base);
    }
  }

  lemma {:induction false} Associate(x: nat, y: nat, z: nat)
    ensures x * (y * z) == x * y * z
  {
  }

  lemma {:induction false} Distribute(x: nat, y: nat, z: nat)
    ensures (x + y) * z == x * z + y * z
  {
  }

  lemma {:induction false} PowPositive(base: nat, n: nat)
    requires base > 0
    ensures Pow(base, n) > 0
  {
    if n > 0 { PowPositive(base, n - 1); }
  }

  lemma {:induction false} NumConcat(base: nat, a: seq<nat>, b: seq<nat>)
    ensures Num(base, a + b) == Num(base, a) * Pow(base, |b|) + Num(base, b)
    decreases b
  {
    if b == [] {
      assert a + b == a;
    } else {
      var front, last := b[..|b| - 1], b[|b| - 1];
      assert (a + b)[..|a + b| - 1] == a + front;
      NumConcat(base, a, front);
      Distribute(Num(base, a) * Pow(base, |front|), Num(base, front), base);
      Associate(Num(base, a), Pow(base, |front|), base);
    }
  }

  lemma {:induction false} NumBound(base: nat, d: seq<nat>)
    requires Below(base, d) && base > 0
    ensures Num(base, d) < Pow(base, |d|)
    decreases d
  {
    if d != [] {
      var front := d[..|d| - 1];
      NumBound(base, front);
      assert Num(base, front) + 1 <= Pow(base, |front|);
      Distribute(Num(base, front), 1, base);
      Monotone(Num(base, front) + 1, Pow(base, |front|), base);
    }
  }

  lemma {:induction false} Monotone(x: nat, y: nat, z: nat)
    requires x <= y
    ensures x * z <= y * z
  {
  }

  lemma {:induction false} Quotient(v: nat, q: nat, k: nat, r: nat)
    requires q > 0 && v == k * q + r && r < q
    ensures v / q == k && v % q == r
  {
    var k', r' := v / q, v % q;
    assert v == k' * q + r';
    if k' < k { Monotone(k' + 1, k, q); Distribute(k', 1, q); }
    if k < k' { Monotone(k + 1, k', q); Distribute(k, 1, q); }
  }

  /** A number determines its digits. */
  lemma {:induction false} NumInjective(base: nat, a: seq<nat>, b: seq<nat>)
    requires |a| == |b| && Below(base, a) && Below(base, b) && base > 0 && Num(base, a) == Num(base, b)
    ensures a == b
    decreases a
  {
    if a != [] {
      var x, y := a[..|a| - 1], b[..|b| - 1];
      Quotient(Num(base, a), base, Num(base, x), a[|a| - 1]);
      Quotient(Num(base, a), base, Num(base, y), b[|b| - 1]);
      NumInjective(base, x, y);
      assert a == x + [a[|a| - 1]] && b == y + [b[|b| - 1]];
    }
  }

  // The n digits of a number.
  function DigitsOf(base: nat, n: nat, v: nat): (d: seq<nat>)
    requires base > 0
    ensures |d| == n && Below(base, d)
  {
    if n == 0 then [] else DigitsOf(base, n - 1, v / base) + [v % base]
  }

  lemma {:induction false} DivBelow(v: nat, base: nat, p: nat)
    requires base > 0 && v < p * base
    ensures v / base < p
  {
    if v / base >= p { Monotone(p, v / base, base); }
  }

  lemma {:induction false} NumSnoc(base: nat, front: seq<nat>, last: nat)
    ensures Num(base, front + [last]) == Num(base, front) * base + last
  {
    assert (front + [last])[..|front|] == front;
  }

  lemma {:induction false} DivMod(v: nat, base: nat)
    requires base > 0
    ensures v / base * base + v % base == v
  {
  }

  lemma {:induction false} DigitsOfNum(base: nat, n: nat, v: nat)
    requires base > 0 && v < Pow(base, n)
    ensures Num(base, DigitsOf(base, n, v)) == v
  {
    if n > 0 {
      DivBelow(v, base, Pow(base, n - 1));
      DigitsOfNum(base, n - 1, v / base);
      NumSnoc(base, DigitsOf(base, n - 1, v / base), v % base);
      DivMod(v, base);
    }
  }

  // ---- The number of an id ----

  // How far the zero bits at the end of the text shift the number.
  function Pad(n: nat): nat {
    if n % 3 == 0 then 1 else if n % 3 == 1 then 16 else 4
  }

  lemma {:induction false} Swap(x: nat, y: nat, z: nat)
    ensures x * y * z == x * z * y
  {
  }

  // The text of n bytes has 6 bits a letter: 8 bits a byte and the fill.
  lemma {:induction false} TextBits(n: nat)
    ensures Pow(64, (4 * n + 2) / 3) == Pow(256, n) * Pad(n)
  {
    SmallPowers();
    if n >= 3 {
      var m := n - 3;
      TextBits(m);
      PowAdd(256, m, 3);
      PowAdd(64, (4 * m + 2) / 3, 4);
      Swap(Pow(256, m), 16777216, Pad(m));
    }
  }

  // What n letters leave over of it.
  lemma {:induction false} SpareText(n: nat)
    ensures Pow(64, (4 * n + 2) / 3 - n) == Pow(4, n) * Pad(n)
  {
    SmallPowers();
    if n >= 3 {
      var m := n - 3;
      SpareText(m);
      PowAdd(64, (4 * m + 2) / 3 - m, 1);
      PowAdd(4, m, 3);
      Swap(Pow(4, m), 64, Pad(m));
    }
  }

  lemma {:induction false} SmallPowers()
    ensures Pow(256, 0) == 1 && Pow(256, 1) == 256 && Pow(256, 2) == 65536 && Pow(256, 3) == 16777216
    ensures Pow(64, 0) == 1 && Pow(64, 1) == 64 && Pow(64, 2) == 4096 && Pow(64, 3) == 262144 && Pow(64, 4) == 16777216
    ensures Pow(4, 0) == 1 && Pow(4, 1) == 4 && Pow(4, 2) == 16 && Pow(4, 3) == 64
  {
  }

  lemma {:induction false} SmallNums(base: nat, d: seq<nat>)
    ensures |d| == 1 ==> Num(base, d) == d[0]
    ensures |d| == 2 ==> Num(base, d) == d[0] * base + d[1]
    ensures |d| == 3 ==> Num(base, d) == (d[0] * base + d[1]) * base + d[2]
    ensures |d| == 4 ==> Num(base, d) == ((d[0] * base + d[1]) * base + d[2]) * base + d[3]
  {
    if 1 <= |d| <= 4 {
      NumSnoc(base, [], d[0]);
      assert d[..1] == [] + [d[0]];
      if |d| > 1 { NumSnoc(base, d[..1], d[1]); assert d[..2] == d[..1] + [d[1]]; }
      if |d| > 2 { NumSnoc(base, d[..2], d[2]); assert d[..3] == d[..2] + [d[2]]; }
      if |d| > 3 { NumSnoc(base, d[..3], d[3]); assert d[..4] == d[..3] + [d[3]]; }
      assert d[..|d|] == d;
    }
  }

  lemma {:induction false} GroupValue(b: seq<Byte>)
    requires |b| >= 3
    ensures Num(64, Group(b)) == Num(256, b[..3])
  {
    SmallNums(64, Group(b));
    SmallNums(256, b[..3]);
  }

  lemma {:induction false} ShiftBytes(x: nat, y: nat)
    requires y < 256
    ensures x / 4 * 64 + x % 4 * 16 == x * 16
    ensures x / 4 * 4096 + (x % 4 * 16 + y / 16) * 64 + y % 16 * 4 == (x * 256 + y) * 4
  {
    assert x == x / 4 * 4 + x % 4;
    assert y == y / 16 * 16 + y % 16;
  }

  lemma {:induction false} ShortValue(b: seq<Byte>)
    requires |b| < 3
    ensures Num(64, Sextets(b)) == Num(256, b) * Pad(|b|)
  {
    SmallNums(256, b);
    SmallNums(64, Sextets(b));
    if |b| == 1 {
      ShiftBytes(b[0], 0);
    } else if |b| == 2 {
      ShiftBytes(b[0], b[1]);
    }
  }

  lemma {:induction false} Combine(g: nat, x: nat, v: nat, p: nat)
    ensures g * (x * p) + v * p == (g * x + v) * p
  {
    Associate(g, x, p);
    Distribute(g * x, v, p);
  }

  lemma {:induction false} GroupStep(b: seq<Byte>, text: nat, n: nat)
    requires |b| >= 3 && n == Num(256, b[3..])
    requires text == n * Pad(|b| - 3) && Pow(64, |Sextets(b[3..])|) == Pow(256, |b| - 3) * Pad(|b| - 3)
    requires Num(64, Sextets(b[3..])) == text
    ensures Num(64, Group(b) + Sextets(b[3..])) == Num(256, b) * Pad(|b|)
  {
    var g := Num(256, b[..3]);
    GroupValue(b);
    NumConcat(64, Group(b), Sextets(b[3..]));
    assert b == b[..3] + b[3..];
    NumConcat(256, b[..3], b[3..]);
    Combine(g, Pow(256, |b| - 3), n, Pad(|b|));
  }

  // Encoding shifts the number left by the fill, and does nothing else to it.
  lemma {:induction false} SextetsValue(b: seq<Byte>)
    ensures Num(64, Sextets(b)) == Num(256, b) * Pad(|b|)
    decreases |b|
  {
    if |b| < 3 {
      ShortValue(b);
    } else {
      SextetsValue(b[3..]);
      SextetsLength(b[3..]);
      TextBits(|b| - 3);
      GroupStep(b, Num(64, Sextets(b[3..])), Num(256, b[3..]));
    }
  }

  lemma {:induction false} DivideOut(v: nat, q: nat, p: nat)
    requires q > 0 && p > 0
    ensures q * p > 0 && v * p / (q * p) == v / q
  {
    var k, r := v / q, v % q;
    assert q * p > 0;
    Distribute(k * q, r, p);
    Associate(k, q, p);
    assert r * p < q * p;
    Quotient(v * p, q * p, k, r * p);
  }

  lemma {:induction false} HeadValue(d: seq<Six>, n: nat)
    requires n <= |d|
    ensures Pow(64, |d| - n) > 0 && Num(64, d[..n]) == Num(64, d) / Pow(64, |d| - n)
  {
    var head, tail := d[..n], d[n..];
    assert d == head + tail;
    NumConcat(64, head, tail);
    NumBound(64, tail);
    PowPositive(64, |tail|);
    Quotient(Num(64, d), Pow(64, |tail|), Num(64, head), Num(64, tail));
  }

  // What the slice cuts off, in bits.
  lemma {:induction false} SpareBits(b: seq<Byte>)
    ensures |Sextets(b)| >= |b| && Pow(64, |Sextets(b)| - |b|) == Pow(4, |b|) * Pad(|b|)
  {
    SextetsLength(b);
    SpareText(|b|);
  }

  /** As a base-64 number the id is the random number without its last 2n bits: every letter of the id has
      six random bits of its own. */
  lemma {:induction false} IdValue(b: seq<Byte>)
    ensures Pow(4, |b|) > 0 && Num(64, IdSextets(b)) == Num(256, b) / Pow(4, |b|)
  {
    SpareBits(b);
    SextetsValue(b);
    SliceValue(Sextets(b), |b|, Num(256, b));
  }

  lemma {:induction false} SliceValue(d: seq<Six>, n: nat, v: nat)
    requires n <= |d| && Num(64, d) == v * Pad(n) && Pow(64, |d| - n) == Pow(4, n) * Pad(n)
    ensures Pow(4, n) > 0 && Num(64, d[..n]) == v / Pow(4, n)
  {
    HeadValue(d, n);
    PowPositive(4, n);
    LastStep(Num(64, d), Pow(64, |d| - n), v, Pow(4, n), Pad(n));
  }

  lemma {:induction false} LastStep(text: nat, power: nat, v: nat, q: nat, p: nat)
    requires q > 0 && p > 0 && text == v * p && power == q * p
    ensures power > 0 && text / power == v / q
  {
    DivideOut(v, q, p);
  }

  // ---- Every id is equally likely ----

  function DigitsIn(s: string): seq<Six>
    requires forall c :: c in s ==> IsLetter(c)
  {
    seq(|s|, i requires 0 <= i < |s| => Digit(s[i]))
  }

  // The byte arrays of length n whose numbers are lo, lo + 1, ..., lo + count - 1.
  function Arrays(n: nat, lo: nat, count: nat): set<seq<nat>> {
    set v | lo <= v < lo + count :: DigitsOf(256, n, v)
  }

  lemma {:induction false} InArrays(n: nat, lo: nat, count: nat, b: seq<nat>)
    requires lo + count <= Pow(256, n) && |b| == n && Below(256, b)
    ensures b in Arrays(n, lo, count) <==> lo <= Num(256, b) < lo + count
  {
    if b in Arrays(n, lo, count) {
      var v :| lo <= v < lo + count && DigitsOf(256, n, v) == b;
      DigitsOfNum(256, n, v);
    }
    NumBound(256, b);
    var v := Num(256, b);
    DigitsOfNum(256, n, v);
    NumInjective(256, b, DigitsOf(256, n, v));
  }

  lemma {:induction false} ArraysSplit(n: nat, lo: nat, count: nat)
    requires count > 0
    ensures Arrays(n, lo, count) == Arrays(n, lo, count - 1) + {DigitsOf(256, n, lo + count - 1)}
  {
  }

  lemma {:induction false} ArraysCount(n: nat, lo: nat, count: nat)
    requires lo + count <= Pow(256, n)
    ensures |Arrays(n, lo, count)| == count
    decreases count
  {
    if count == 0 {
      assert Arrays(n, lo, 0) == {};
    } else {
      var last := DigitsOf(256, n, lo + count - 1);
      DigitsOfNum(256, n, lo + count - 1);
      InArrays(n, lo, count - 1, last);
      ArraysCount(n, lo, count - 1);
      ArraysSplit(n, lo, count);
    }
  }

  // The number of the first array that gives the id s.
  function Start(s: string): nat
    requires forall c :: c in s ==> IsLetter(c)
  {
    Product(Num(64, DigitsIn(s)), Pow(4, |s|))
  }

  function Product(m: nat, n: nat): nat {
    m * n
  }

  // The arrays that give the id s.
  function Preimage(s: string): set<seq<nat>>
    requires forall c :: c in s ==> IsLetter(c)
  {
    Arrays(|s|, Start(s), Pow(4, |s|))
  }

  lemma {:induction false} PreimageBytes(s: string, a: seq<nat>)
    requires (forall c :: c in s ==> IsLetter(c)) && a in Preimage(s)
    ensures |a| == |s| && Below(256, a)
  {
  }

  /** Every text of n letters is the id of exactly 4^n arrays of n bytes, so every id is equally likely. */
  lemma {:induction false} IdUniform(s: string)
    requires forall c :: c in s ==> IsLetter(c)
    ensures forall b: seq<Byte> :: |b| == |s| ==> (IdOf(b) == s <==> b in Preimage(s))
    ensures forall a :: a in Preimage(s) ==> |a| == |s| && Below(256, a)
    ensures |Preimage(s)| == Pow(4, |s|)
  {
    forall a | a in Preimage(s) ensures |a| == |s| && Below(256, a) {
      PreimageBytes(s, a);
    }
    PreimageCount(s);
    forall b: seq<Byte> | |b| == |s| ensures IdOf(b) == s <==> b in Preimage(s) {
      IdMatches(b, s);
    }
  }

  lemma PreimageCount(s: string)
    requires forall c :: c in s ==> IsLetter(c)
    ensures |Preimage(s)| == Pow(4, |s|)
  {
    PreimageRange(s);
    ArraysCount(|s|, Start(s), Pow(4, |s|));
  }

  lemma {:induction false} PreimageRange(s: string)
    requires forall c :: c in s ==> IsLetter(c)
    ensures Start(s) + Pow(4, |s|) <= Pow(256, |s|)
  {
    var n, v := |s|, Num(64, DigitsIn(s));
    NumBound(64, DigitsIn(s));
    SquarePowers(n);
    Monotone(v + 1, Pow(64, n), Pow(4, n));
    Distribute(v, 1, Pow(4, n));
  }

  lemma {:induction false} SquarePowers(n: nat)
    ensures Pow(256, n) == Pow(64, n) * Pow(4, n)
  {
    if n > 0 {
      SquarePowers(n - 1);
      var x, y := Pow(64, n - 1), Pow(4, n - 1);
      assert x * 64 * (y * 4) == x * y * 256;
    }
  }

  lemma {:induction false} SameNumber(b: seq<Byte>, s: string)
    requires |b| == |s| && forall c :: c in s ==> IsLetter(c)
    ensures IdOf(b) == s <==> Num(64, IdSextets(b)) == Num(64, DigitsIn(s))
  {
    SameLetters(b, s);
    if Num(64, IdSextets(b)) == Num(64, DigitsIn(s)) { NumInjective(64, IdSextets(b), DigitsIn(s)); }
  }

  lemma {:induction false} IdMatches(b: seq<Byte>, s: string)
    requires |b| == |s| && forall c :: c in s ==> IsLetter(c)
    ensures IdOf(b) == s <==> b in Preimage(s)
  {
    SameNumber(b, s);
    IdValue(b);
    InBlock(Num(256, b), Pow(4, |s|), Num(64, DigitsIn(s)));
    PreimageRange(s);
    InArrays(|s|, Start(s), Pow(4, |s|), b);
  }

  lemma {:induction false} InBlock(v: nat, q: nat, k: nat)
    requires q > 0
    ensures v / q == k <==> k * q <= v < k * q + q
  {
    if k * q <= v < k * q + q { Quotient(v, q, k, v - k * q); }
  }

  // Table 2 of RFC 4648.
  const UPPER := "ABCDEFGHIJKLMNOPQRSTUVWXYZ"
  const LOWER := "abcdefghijklmnopqrstuvwxyz"
  const DIGITS := "0123456789"

  /** The letters are those of the URL-safe alphabet, in its order. */
  lemma {:induction false} AlphabetOrder(d: Six)
    ensures Letter(d)
         == if d < 26 then UPPER[d] else if d < 52 then LOWER[d - 26] else if d < 62 then DIGITS[d - 52]
            else if d == 62 then '-' else '_'
    ensures Digit(Letter(d)) == d
  {
    assert forall i :: 0 <= i < 26 ==> UPPER[i] as int == 'A' as int + i;
    assert forall i :: 0 <= i < 26 ==> LOWER[i] as int == 'a' as int + i;
    assert forall i :: 0 <= i < 10 ==> DIGITS[i] as int == '0' as int + i;
  }

  lemma {:induction false} DigitOfLetter(d: Six)
    ensures IsLetter(Letter(d)) && Digit(Letter(d)) == d
  {
  }

  lemma {:induction false} LetterOfDigit(c: char)
    requires IsLetter(c)
    ensures Letter(Digit(c)) == c
  {
  }

  lemma {:induction false} SameLetters(b: seq<Byte>, s: string)
    requires |b| == |s| && forall c :: c in s ==> IsLetter(c)
    ensures IdOf(b) == s <==> IdSextets(b) == DigitsIn(s)
  {
    var e := IdSextets(b);
    forall i | 0 <= i < |b|
      ensures IdOf(b)[i] == Letter(e[i]) && Digit(Letter(e[i])) == e[i] && Letter(DigitsIn(s)[i]) == s[i] {
      DigitOfLetter(e[i]);
      LetterOfDigit(s[i]);
    }
    if IdOf(b) == s {
      assert forall i :: 0 <= i < |s| ==> e[i] == DigitsIn(s)[i];
    }
    if e == DigitsIn(s) {
      assert forall i :: 0 <= i < |s| ==> IdOf(b)[i] == s[i];
    }
  }
}
