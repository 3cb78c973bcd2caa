/** Go strings: immutable byte sequences, with the library operations the ledger
    applies to them. `len` counts bytes, `<` compares bytes, `utf8.ValidString` and
    `strings.TrimSpace` decode runes.
 */
module GoText {

  type byte = b: int | 0 <= b < 256
  type Text = seq<byte>

  type int64 = i: int | -0x8000_0000_0000_0000 <= i < 0x8000_0000_0000_0000
  type uint64 = i: int | 0 <= i < 0x1_0000_0000_0000_0000

  /** Go's `a < b` on strings: byte-wise lexicographic order. */
  predicate Less(a: Text, b: Text) {
    b != [] && (a == [] || a[0] < b[0] || (a[0] == b[0] && Less(a[1..], b[1..])))
  }

  lemma {:induction false} LessIrreflexive(a: Text)
    ensures !Less(a, a)
  {
    if a == [] {
    } else {
      LessIrreflexive(a[1..]);
    }
  }

  lemma {:induction false} LessTransitive(a: Text, b: Text, c: Text)
    requires Less(a, b) && Less(b, c)
    ensures Less(a, c)
  {
    if a != [] && a[0] == b[0] == c[0] {
      LessTransitive(a[1..], b[1..], c[1..]);
    }
  }

  lemma {:induction false} LessTotal(a: Text, b: Text)
    ensures a == b || Less(a, b) || Less(b, a)
  {
    if a != [] && b != [] && a[0] == b[0] {
      LessTotal(a[1..], b[1..]);
      assert a == [a[0]] + a[1..] && b == [b[0]] + b[1..];
    }
  }

  predicate Continuation(b: byte) {
    0x80 <= b <= 0xBF
  }

  /** Bytes taken by the rune at the front of `s`, as `utf8.DecodeRuneInString` finds
      them; 0 where that function reports an encoding error. */
  function RuneSize(s: Text): (n: nat)
    requires s != []
    ensures n <= |s| && n <= 4
  {
    var a := s[0];
    if a < 0x80 then 1
    else if 0xC2 <= a <= 0xDF then
      if |s| >= 2 && Continuation(s[1]) then 2 else 0
    else if 0xE0 <= a <= 0xEF then
      if |s| >= 3 && SecondByte(a, s[1]) && Continuation(s[2]) then 3 else 0
    else if 0xF0 <= a <= 0xF4 then
      if |s| >= 4 && SecondByte(a, s[1]) && Continuation(s[2]) && Continuation(s[3]) then 4 else 0
    else 0
  }

  /** Rules out overlong forms, surrogates and values above U+10FFFF. */
  predicate SecondByte(lead: byte, b: byte) {
    && (lead == 0xE0 ==> 0xA0 <= b)
    && (lead == 0xED ==> b <= 0x9F)
    && (lead == 0xF0 ==> 0x90 <= b)
    && (lead == 0xF4 ==> b <= 0x8F)
    && Continuation(b)
  }

  predicate ValidUtf8(s: Text) {
    s == [] || (RuneSize(s) > 0 && ValidUtf8(s[RuneSize(s)..]))
  }

  /** The three-byte runes that both Go and JavaScript treat as white space. */
  predicate WideSpace(a: byte, b: byte, c: byte) {
    || (a == 0xE1 && b == 0x9A && c == 0x80)
    || (a == 0xE2 && b == 0x80 && (0x80 <= c <= 0x8A || c == 0xA8 || c == 0xA9 || c == 0xAF))
    || (a == 0xE2 && b == 0x81 && c == 0x9F)
    || (a == 0xE3 && b == 0x80 && c == 0x80)
  }

  /** Bytes of the white-space rune (`unicode.IsSpace`) at the front of `s`, or 0. */
  function SpaceSize(s: Text): (n: nat)
    requires s != []
    ensures n <= |s|
  {
    if 0x09 <= s[0] <= 0x0D || s[0] == 0x20 then 1
    else if |s| >= 2 && s[0] == 0xC2 && (s[1] == 0x85 || s[1] == 0xA0) then 2
    else if |s| >= 3 && WideSpace(s[0], s[1], s[2]) then 3
    else 0
  }

  /** `strings.TrimSpace(s) == ""`: nothing but white space. */
  predicate Blank(s: Text) {
    s == [] || (SpaceSize(s) > 0 && Blank(s[SpaceSize(s)..]))
  }

  /** An ASCII literal as bytes. */
  function Ascii(s: string): (t: Text)
    ensures |t| == |s|
  {
    seq(|s|, i requires 0 <= i < |s| => if s[i] as int < 0x80 then s[i] as int else 0x3F)
  }

  predicate LowerHex(b: byte) {
    48 <= b <= 57 || 97 <= b <= 102
  }

  /** What `hex.EncodeToString` makes of a 32-byte digest. */
  predicate IsDigest(t: Text) {
    |t| == 64 && forall i | 0 <= i < |t| :: LowerHex(t[i])
  }

  lemma {:induction false} AsciiIsValid(t: Text)
    requires forall i | 0 <= i < |t| :: t[i] < 0x80
    ensures ValidUtf8(t)
  {
    if t != [] {
      AsciiIsValid(t[1..]);
    }
  }
}
