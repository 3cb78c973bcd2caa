/** JavaScript strings, and how they relate to Go's: a well-formed string is a sequence of
    Unicode scalar values, which `TextEncoder` turns into UTF-8 and string comparison sees
    as UTF-16. */
module UnicodeText {
  import opened GoText

  type Scalar = c: int | 0 <= c <= 0x10FFFF && !(0xD800 <= c <= 0xDFFF)
  type JsText = seq<Scalar>

  // ---------------------------------------------------------------- UTF-8

  /** The UTF-8 form of one scalar value. */
  function EncodeScalar(c: Scalar): (u: Text)
    ensures 1 <= |u| <= 4
  {
    if c < 0x80 then [c]
    else if c < 0x800 then [0xC0 + c / 64, 0x80 + c % 64]
    else if c < 0x10000 then [0xE0 + c / 4096, 0x80 + c / 64 % 64, 0x80 + c % 64]
    else [0xF0 + c / 262144, 0x80 + c / 4096 % 64, 0x80 + c / 64 % 64, 0x80 + c % 64]
  }

  function Utf8(s: JsText): Text {
    if s == [] then [] else EncodeScalar(s[0]) + Utf8(s[1..])
  }

  /** The six bits of a continuation byte. */
  function Six(b: byte): int {
    b - 0x80
  }

  /** The scalar value of the rune at the front of `z`. */
  function DecodeScalar(z: Text): Scalar
    requires z != [] && RuneSize(z) > 0
  {
    var lead: int := z[0];
    match RuneSize(z)
    case 1 => lead
    case 2 => (lead - 0xC0) * 64 + Six(z[1])
    case 3 => (lead - 0xE0) * 4096 + Six(z[1]) * 64 + Six(z[2])
    case _ => (lead - 0xF0) * 262144 + Six(z[1]) * 4096 + Six(z[2]) * 64 + Six(z[3])
  }

  function FromUtf8(z: Text): JsText
    requires ValidUtf8(z)
  {
    if z == [] then [] else [DecodeScalar(z)] + FromUtf8(z[RuneSize(z)..])
  }

  lemma SixBits(c: int)
    requires 0 <= c <= 0x10FFFF
    ensures c == c / 64 * 64 + c % 64
    ensures c == c / 4096 * 4096 + c / 64 % 64 * 64 + c % 64
    ensures c == c / 262144 * 262144 + c / 4096 % 64 * 4096 + c / 64 % 64 * 64 + c % 64
  {
    assert c / 4096 == c / 64 / 64 && c / 262144 == c / 4096 / 64;
  }

  lemma SizeOfEncoded(c: Scalar, rest: Text)
    ensures RuneSize(EncodeScalar(c) + rest) == |EncodeScalar(c)|
  {
    var u := EncodeScalar(c);
    var z := u + rest;
    assert z[0] == u[0] && forall i | 0 <= i < |u| :: z[i] == u[i];
  }

  lemma EncodedRune(c: Scalar, rest: Text)
    ensures var z := EncodeScalar(c) + rest;
      && RuneSize(z) == |EncodeScalar(c)| && DecodeScalar(z) == c
      && z[..RuneSize(z)] == EncodeScalar(c) && z[RuneSize(z)..] == rest
  {
    SizeOfEncoded(c, rest);
    SixBits(c);
    hide RuneSize;
    var u := EncodeScalar(c);
    var z := u + rest;
    assert forall i | 0 <= i < |u| :: z[i] == u[i];
  }

  lemma FromSixBits(a: int, b: int, c: int, d: int)
    requires 0 <= b < 64 && 0 <= c < 64 && 0 <= d < 64
    ensures (a * 64 + b) / 64 == a && (a * 64 + b) % 64 == b
    ensures (a * 4096 + b * 64 + c) / 64 == a * 64 + b && (a * 4096 + b * 64 + c) % 64 == c
    ensures (a * 4096 + b * 64 + c) / 4096 == a
    ensures var n := a * 262144 + b * 4096 + c * 64 + d;
      n / 64 == a * 4096 + b * 64 + c && n % 64 == d && n / 4096 == a * 64 + b && n / 262144 == a
  {
  }

  lemma DecodedShort(z: Text)
    requires z != [] && 1 <= RuneSize(z) <= 2
    ensures EncodeScalar(DecodeScalar(z)) == z[..RuneSize(z)]
  {
    if RuneSize(z) == 2 {
      FromSixBits(z[0] - 0xC0, Six(z[1]), 0, 0);
    }
  }

  lemma DecodedThree(z: Text)
    requires z != [] && RuneSize(z) == 3
    ensures EncodeScalar(DecodeScalar(z)) == z[..3]
  {
    FromSixBits(z[0] - 0xE0, Six(z[1]), Six(z[2]), 0);
  }

  lemma DecodedFour(z: Text)
    requires z != [] && RuneSize(z) == 4
    ensures EncodeScalar(DecodeScalar(z)) == z[..4]
  {
    FromSixBits(z[0] - 0xF0, Six(z[1]), Six(z[2]), Six(z[3]));
  }

  lemma DecodedRune(z: Text)
    requires z != [] && RuneSize(z) > 0
    ensures EncodeScalar(DecodeScalar(z)) == z[..RuneSize(z)]
  {
    hide RuneSize, EncodeScalar, DecodeScalar;
    if RuneSize(z) <= 2 {
      DecodedShort(z);
    } else if RuneSize(z) == 3 {
      DecodedThree(z);
    } else {
      DecodedFour(z);
    }
  }

  /** The encoding of a string is valid UTF-8 and gives the string back. */
  lemma {:induction false} DecodeEncode(s: JsText)
    ensures ValidUtf8(Utf8(s)) && FromUtf8(Utf8(s)) == s
  {
    if s != [] {
      DecodeEncode(s[1..]);
      EncodedRune(s[0], Utf8(s[1..]));
    }
  }

  /** Every valid UTF-8 text is the encoding of a string. */
  lemma {:induction false} EncodeDecode(z: Text)
    requires ValidUtf8(z)
    ensures Utf8(FromUtf8(z)) == z
    decreases |z|
  {
    if z != [] {
      EncodeDecode(z[RuneSize(z)..]);
      DecodedRune(z);
      assert FromUtf8(z)[1..] == FromUtf8(z[RuneSize(z)..]);
    }
  }

  lemma Utf8Injective(a: JsText, b: JsText)
    ensures Utf8(a) == Utf8(b) <==> a == b
  {
    DecodeEncode(a);
    DecodeEncode(b);
  }

  lemma {:induction false} Utf8Concat(a: JsText, b: JsText)
    ensures Utf8(a + b) == Utf8(a) + Utf8(b)
  {
    hide EncodeScalar;
    if a == [] {
      assert a + b == b;
    } else {
      Utf8Concat(a[1..], b);
      assert (a + b)[1..] == a[1..] + b;
    }
  }

  /** A JavaScript string of ASCII characters. */
  function FromAscii(t: Text): JsText
    requires forall i | 0 <= i < |t| :: t[i] < 0x80
  {
    seq(|t|, i requires 0 <= i < |t| => t[i])
  }

  lemma {:induction false} Utf8OfAscii(t: Text)
    requires forall i | 0 <= i < |t| :: t[i] < 0x80
    ensures Utf8(FromAscii(t)) == t
  {
    if t != [] {
      Utf8OfAscii(t[1..]);
      assert FromAscii(t)[1..] == FromAscii(t[1..]);
      assert [t[0]] + t[1..] == t;
    }
  }

  // ---------------------------------------------------------------- UTF-16

  function Units(c: Scalar): seq<int> {
    if c < 0x10000 then [c] else [0xD800 + (c - 0x10000) / 1024, 0xDC00 + (c - 0x10000) % 1024]
  }

  function Utf16(s: JsText): seq<int> {
    if s == [] then [] else Units(s[0]) + Utf16(s[1..])
  }

  predicate UnitsLess(a: seq<int>, b: seq<int>) {
    b != [] && (a == [] || a[0] < b[0] || (a[0] == b[0] && UnitsLess(a[1..], b[1..])))
  }

  /** `a < b` on strings. */
  predicate JsLess(a: JsText, b: JsText) {
    UnitsLess(Utf16(a), Utf16(b))
  }

  lemma {:induction false} UnitsLessIrreflexive(a: seq<int>)
    ensures !UnitsLess(a, a)
  {
    if a != [] {
      UnitsLessIrreflexive(a[1..]);
    }
  }

  lemma {:induction false} UnitsLessTransitive(a: seq<int>, b: seq<int>, c: seq<int>)
    requires UnitsLess(a, b) && UnitsLess(b, c)
    ensures UnitsLess(a, c)
  {
    if a != [] && a[0] == b[0] == c[0] {
      UnitsLessTransitive(a[1..], b[1..], c[1..]);
    }
  }

  lemma {:induction false} UnitsLessTotal(a: seq<int>, b: seq<int>)
    ensures a == b || UnitsLess(a, b) || UnitsLess(b, a)
  {
    if a != [] && b != [] && a[0] == b[0] {
      UnitsLessTotal(a[1..], b[1..]);
      assert a == [a[0]] + a[1..] && b == [b[0]] + b[1..];
    }
  }

  /** A surrogate is never taken for a character, so the first units tell the first
      characters apart. */
  lemma FirstUnits(c: Scalar, d: Scalar, s: seq<int>, t: seq<int>)
    requires Units(c) + s == Units(d) + t
    ensures c == d && s == t
  {
    var u, v := Units(c), Units(d);
    assert (u + s)[0] == u[0] && (v + t)[0] == v[0];
    if c >= 0x10000 && d >= 0x10000 {
      assert (u + s)[1] == u[1] && (v + t)[1] == v[1];
      assert c - 0x10000 == (c - 0x10000) / 1024 * 1024 + (c - 0x10000) % 1024;
      assert d - 0x10000 == (d - 0x10000) / 1024 * 1024 + (d - 0x10000) % 1024;
    }
    assert (u + s)[|u|..] == s && (v + t)[|v|..] == t;
  }

  lemma {:induction false} Utf16Injective(a: JsText, b: JsText)
    requires Utf16(a) == Utf16(b)
    ensures a == b
  {
    hide Units;
    NonemptyUnits(a);
    NonemptyUnits(b);
    if a != [] && b != [] {
      FirstUnits(a[0], b[0], Utf16(a[1..]), Utf16(b[1..]));
      Utf16Injective(a[1..], b[1..]);
      assert a == [a[0]] + a[1..] && b == [b[0]] + b[1..];
    }
  }

  lemma NonemptyUnits(a: JsText)
    ensures Utf16(a) == [] <==> a == []
  {
    if a != [] {
      assert Units(a[0]) != [];
    }
  }

  /** Strings are in a strict total order. */
  lemma JsLessOrder(a: JsText, b: JsText, c: JsText)
    ensures !JsLess(a, a)
    ensures JsLess(a, b) && JsLess(b, c) ==> JsLess(a, c)
    ensures a == b || JsLess(a, b) || JsLess(b, a)
  {
    hide UnitsLess, Utf16;
    UnitsLessIrreflexive(Utf16(a));
    if JsLess(a, b) && JsLess(b, c) {
      UnitsLessTransitive(Utf16(a), Utf16(b), Utf16(c));
    }
    UnitsLessTotal(Utf16(a), Utf16(b));
    if Utf16(a) == Utf16(b) {
      Utf16Injective(a, b);
    }
  }

  lemma {:induction false} Utf16OfAscii(t: Text)
    requires forall i | 0 <= i < |t| :: t[i] < 0x80
    ensures Utf16(FromAscii(t)) == t
  {
    if t != [] {
      Utf16OfAscii(t[1..]);
      assert FromAscii(t)[1..] == FromAscii(t[1..]);
      assert [t[0]] + t[1..] == t;
    }
  }

  lemma {:induction false} UnitsLessIsLess(a: Text, b: Text)
    ensures UnitsLess(a, b) == Less(a, b)
  {
    if a != [] && b != [] {
      UnitsLessIsLess(a[1..], b[1..]);
    }
  }

  /** On ASCII, hashes among it, both languages order alike. */
  lemma AsciiOrdersAlike(a: Text, b: Text)
    requires (forall i | 0 <= i < |a| :: a[i] < 0x80) && (forall i | 0 <= i < |b| :: b[i] < 0x80)
    ensures JsLess(FromAscii(a), FromAscii(b)) <==> Less(a, b)
  {
    Utf16OfAscii(a);
    Utf16OfAscii(b);
    UnitsLessIsLess(a, b);
  }

  /** On other text they do not: U+FF5E comes before U+10000 in Go, after it in JavaScript. */
  lemma OrdersDiffer()
    ensures Less(Utf8([0xFF5E]), Utf8([0x10000])) && JsLess([0x10000], [0xFF5E])
  {
    assert Utf8([0xFF5E]) == EncodeScalar(0xFF5E) + Utf8([]) && Utf8([0x10000]) == EncodeScalar(0x10000) + Utf8([]);
    assert Utf16([0xFF5E]) == [0xFF5E] + Utf16([]) && Utf16([0x10000]) == [0xD800, 0xDC00] + Utf16([]);
    assert EncodeScalar(0xFF5E)[0] == 0xEF && EncodeScalar(0x10000)[0] == 0xF0;
  }

  // ---------------------------------------------------------------- white space

  predicate CommonSpace(c: Scalar) {
    || 0x09 <= c <= 0x0D || c == 0x20 || c == 0xA0 || c == 0x1680 || 0x2000 <= c <= 0x200A
    || c == 0x2028 || c == 0x2029 || c == 0x202F || c == 0x205F || c == 0x3000
  }

  /** `unicode.IsSpace` */
  predicate GoSpace(c: Scalar) {
    CommonSpace(c) || c == 0x85
  }

  /** What `trim` removes. */
  predicate JsSpace(c: Scalar) {
    CommonSpace(c) || c == 0xFEFF
  }

  /** `s.trim()` is empty. */
  predicate JsBlank(s: JsText) {
    forall c | c in s :: JsSpace(c)
  }

  /** White space throughout for one language, but with the one character that only it
      takes for white space. */
  predicate OddlyBlank(s: JsText) {
    || (0x85 in s && forall c | c in s :: GoSpace(c))
    || (0xFEFF in s && forall c | c in s :: JsSpace(c))
  }

  lemma EncodedSpace(c: Scalar, rest: Text)
    ensures SpaceSize(EncodeScalar(c) + rest) == if GoSpace(c) then |EncodeScalar(c)| else 0
  {
    var u := EncodeScalar(c);
    var z := u + rest;
    assert forall i | 0 <= i < |u| :: z[i] == u[i];
  }

  lemma {:induction false} BlankMeans(s: JsText)
    ensures Blank(Utf8(s)) <==> forall c | c in s :: GoSpace(c)
  {
    if s != [] {
      BlankMeans(s[1..]);
      EncodedSpace(s[0], Utf8(s[1..]));
      EncodedRune(s[0], Utf8(s[1..]));
      assert s == [s[0]] + s[1..];
    }
  }

  /** The two languages disagree on whether a text is blank for exactly these texts. */
  lemma BlankAgrees(s: JsText)
    ensures Blank(Utf8(s)) == JsBlank(s) <==> !OddlyBlank(s)
    ensures OddlyBlank(s) ==> Blank(Utf8(s)) || JsBlank(s)
  {
    BlankMeans(s);
  }

  /** There are such texts: a lone next-line character, a lone byte order mark. */
  lemma OddTextsExist()
    ensures Blank(Utf8([0x85])) && !JsBlank([0x85])
    ensures JsBlank([0xFEFF]) && !Blank(Utf8([0xFEFF]))
  {
    BlankMeans([0x85]);
    BlankMeans([0xFEFF]);
    assert 0x85 in [0x85] && 0xFEFF in [0xFEFF];
  }
}
