/** The bytes a block hash is taken over: the header as encoding/json writes it, with
    strings escaped as section 7 of RFC 8259 allows and Go's HTML-safe mode demands.
    The encoding can be read back, so different headers never share an encoding. */
module HeaderEncoding {
  import opened GoText
  import opened Entities

  // ---------------------------------------------------------------- strings

  const QUOTE: byte := 0x22
  const BACKSLASH: byte := 0x5C

  function HexDigit(n: int): byte
    requires 0 <= n < 16
  {
    if n < 10 then 48 + n else 87 + n
  }

  function HexValue(b: byte): (v: int)
    requires LowerHex(b)
    ensures 0 <= v < 16
  {
    if b <= 57 then b - 48 else b - 87
  }

  function EscapeAscii(a: byte): (u: Text)
    requires a < 0x80
    ensures u != []
  {
    if a == BACKSLASH || a == QUOTE then [BACKSLASH, a]
    else if a == 0x08 then [BACKSLASH, 0x62]
    else if a == 0x0C then [BACKSLASH, 0x66]
    else if a == 0x0A then [BACKSLASH, 0x6E]
    else if a == 0x0D then [BACKSLASH, 0x72]
    else if a == 0x09 then [BACKSLASH, 0x74]
    else if a < 0x20 || a == 0x3C || a == 0x3E || a == 0x26 then
      [BACKSLASH, 0x75, 48, 48, HexDigit(a / 16), HexDigit(a % 16)]
    else [a]
  }

  /** U+2028 or U+2029 at the front of `s`. */
  predicate LineSeparator(s: Text) {
    |s| >= 3 && s[0] == 0xE2 && s[1] == 0x80 && (s[2] == 0xA8 || s[2] == 0xA9)
  }

  /** The encoding of the rune at the front of `s`; a broken rune becomes `\ufffd`. */
  function EscapeRune(s: Text): (u: Text)
    requires s != []
    ensures u != []
  {
    if s[0] < 0x80 then EscapeAscii(s[0])
    else if RuneSize(s) == 0 then [BACKSLASH, 0x75, 0x66, 0x66, 0x66, 0x64]
    else if LineSeparator(s) then [BACKSLASH, 0x75, 0x32, 0x30, 0x32, HexDigit(s[2] % 16)]
    else s[..RuneSize(s)]
  }

  function RuneStep(s: Text): (n: nat)
    requires s != []
    ensures 1 <= n <= |s|
  {
    if RuneSize(s) == 0 then 1 else RuneSize(s)
  }

  function Escape(s: Text): Text {
    if s == [] then [] else EscapeRune(s) + Escape(s[RuneStep(s)..])
  }

  function EncodeString(s: Text): Text {
    [QUOTE] + (Escape(s) + [QUOTE])
  }

  /** What one unit of an encoded string stands for, and how many bytes it takes. */
  function ReadUnit(z: Text): (u: Option<(Text, nat)>)
    requires z != [] && z[0] != QUOTE
    ensures u.Some? ==> 1 <= u.value.1 <= |z|
  {
    if z[0] != BACKSLASH then Some(([z[0]], 1))
    else if |z| < 2 then None
    else if z[1] == BACKSLASH || z[1] == QUOTE then Some(([z[1]], 2))
    else if z[1] == 0x62 then Some(([0x08], 2))
    else if z[1] == 0x66 then Some(([0x0C], 2))
    else if z[1] == 0x6E then Some(([0x0A], 2))
    else if z[1] == 0x72 then Some(([0x0D], 2))
    else if z[1] == 0x74 then Some(([0x09], 2))
    else if z[1] != 0x75 || |z| < 6 || !LowerHex(z[4]) || !LowerHex(z[5]) then None
    else if z[2] == 48 && z[3] == 48 then Some(([HexValue(z[4]) * 16 + HexValue(z[5])], 6))
    else if z[2] == 0x32 && z[3] == 0x30 && z[4] == 0x32 && (z[5] == 56 || z[5] == 57) then
      Some(([0xE2, 0x80, 0x70 + z[5]], 6))
    else None
  }

  /** Reads up to the closing quote; returns the text and what follows the quote. */
  function ReadChars(z: Text): (r: Option<(Text, Text)>)
    ensures r.Some? ==> |r.value.1| < |z|
    decreases |z|
  {
    if z == [] then None
    else if z[0] == QUOTE then Some(([], z[1..]))
    else
      var u :- ReadUnit(z);
      var t :- ReadChars(z[u.1..]);
      Some((u.0 + t.0, t.1))
  }

  function ReadString(z: Text): (r: Option<(Text, Text)>)
    ensures r.Some? ==> |r.value.1| < |z|
  {
    if z == [] || z[0] != QUOTE then None else ReadChars(z[1..])
  }

  lemma ReadRawByte(z: Text, t: (Text, Text))
    requires z != [] && z[0] >= 0x80 && ReadChars(z[1..]) == Some(t)
    ensures ReadChars(z) == Some(([z[0]] + t.0, t.1))
  {
  }

  lemma {:induction false} ReadRawBytes(u: Text, tail: Text, t: (Text, Text))
    requires forall i | 0 <= i < |u| :: u[i] >= 0x80
    requires ReadChars(tail) == Some(t)
    ensures ReadChars(u + tail) == Some((u + t.0, t.1))
  {
    hide ReadChars;
    if u == [] {
      assert u + tail == tail && u + t.0 == t.0;
    } else {
      ReadRawBytes(u[1..], tail, t);
      assert (u + tail)[1..] == u[1..] + tail;
      ReadRawByte(u + tail, (u[1..] + t.0, t.1));
      assert [u[0]] + (u[1..] + t.0) == u + t.0;
    }
  }

  lemma ReadEscapedUnit(s: Text, tail: Text)
    requires s != [] && RuneSize(s) > 0
    requires s[0] < 0x80 || LineSeparator(s)
    ensures var z := EscapeRune(s) + tail;
      z[0] != QUOTE && ReadUnit(z) == Some((s[..RuneSize(s)], |EscapeRune(s)|))
  {
    var u := EscapeRune(s);
    var z := u + tail;
    assert forall i | 0 <= i < |u| :: z[i] == u[i];
    if s[0] < 0x80 {
      assert s[..1] == [s[0]];
      assert s[0] / 16 * 16 + s[0] % 16 == s[0];
    } else {
      assert s[..3] == [0xE2, 0x80, s[2]];
    }
  }

  lemma ReadBackRune(s: Text, tail: Text, after: Text, rest: Text)
    requires s != [] && RuneSize(s) > 0 && after == s[RuneSize(s)..]
    requires ReadChars(tail) == Some((after, rest))
    ensures ReadChars(EscapeRune(s) + tail) == Some((s, rest))
  {
    var u := EscapeRune(s);
    assert s[..RuneSize(s)] + after == s;
    if s[0] < 0x80 || LineSeparator(s) {
      ReadEscapedUnit(s, tail);
      assert (u + tail)[|u|..] == tail;
    } else {
      ReadRawBytes(u, tail, (after, rest));
    }
  }

  lemma EscapeSplits(s: Text, end: Text)
    requires s != [] && RuneSize(s) > 0
    ensures Escape(s) + end == EscapeRune(s) + (Escape(s[RuneSize(s)..]) + end)
  {
  }

  lemma {:induction false} ReadBackChars(s: Text, rest: Text)
    requires ValidUtf8(s)
    ensures ReadChars(Escape(s) + ([QUOTE] + rest)) == Some((s, rest))
    decreases |s|
  {
    if s == [] {
      assert Escape(s) + ([QUOTE] + rest) == [QUOTE] + rest;
      assert ([QUOTE] + rest)[1..] == rest;
    } else {
      var after := s[RuneSize(s)..];
      ReadBackChars(after, rest);
      ReadBackRune(s, Escape(after) + ([QUOTE] + rest), after, rest);
      EscapeSplits(s, [QUOTE] + rest);
    }
  }

  lemma ReadBackString(s: Text, rest: Text)
    requires ValidUtf8(s)
    ensures ReadString(EncodeString(s) + rest) == Some((s, rest))
  {
    var z := EncodeString(s) + rest;
    assert z[1..] == Escape(s) + ([QUOTE] + rest);
    ReadBackChars(s, rest);
  }

  /** Why the validity check matters: two broken texts that encode alike. */
  lemma BrokenTextsEncodeAlike()
    ensures !ValidUtf8([0xFF]) && !ValidUtf8([0xFE])
    ensures EncodeString([0xFF]) == EncodeString([0xFE])
  {
    assert Escape([0xFF]) == EscapeRune([0xFF]) + Escape([]);
    assert Escape([0xFE]) == EscapeRune([0xFE]) + Escape([]);
  }

  // ---------------------------------------------------------------- numbers

  predicate IsDigit(b: byte) {
    48 <= b <= 57
  }

  function Digits(n: nat): (t: Text)
    ensures t != [] && forall i | 0 <= i < |t| :: IsDigit(t[i])
  {
    if n < 10 then [48 + n] else Digits(n / 10) + [48 + n % 10]
  }

  function Decimal(n: int): Text {
    if n < 0 then [0x2D] + Digits(-n) else Digits(n)
  }

  function DigitCount(z: Text): (n: nat)
    ensures n <= |z| && forall i | 0 <= i < n :: IsDigit(z[i])
  {
    if z == [] || !IsDigit(z[0]) then 0 else 1 + DigitCount(z[1..])
  }

  function NatValue(t: Text): nat
    requires forall i | 0 <= i < |t| :: IsDigit(t[i])
  {
    if t == [] then 0
    else
      assert IsDigit(t[|t| - 1]);
      NatValue(t[..|t| - 1]) * 10 + (t[|t| - 1] as int - 48)
  }

  function ReadNat(z: Text): (int, Text) {
    var n := DigitCount(z);
    (NatValue(z[..n]), z[n..])
  }

  function ReadInt(z: Text): (int, Text) {
    if z != [] && z[0] == 0x2D then
      var r := ReadNat(z[1..]);
      (-r.0, r.1)
    else ReadNat(z)
  }

  /** A number is followed by something that is not a digit. */
  predicate EndsNumber(rest: Text) {
    rest == [] || !IsDigit(rest[0])
  }

  lemma {:induction false} NatValueOfDigits(n: nat)
    ensures NatValue(Digits(n)) == n
  {
    if n < 10 {
      assert [48 + n][..0] == [];
      assert NatValue([]) == 0;
    } else {
      NatValueOfDigits(n / 10);
      assert Digits(n)[..|Digits(n)| - 1] == Digits(n / 10);
    }
  }

  lemma {:induction false} DigitCountOf(t: Text, rest: Text)
    requires forall i | 0 <= i < |t| :: IsDigit(t[i])
    requires EndsNumber(rest)
    ensures DigitCount(t + rest) == |t|
  {
    if t == [] {
      assert t + rest == rest;
    } else {
      DigitCountOf(t[1..], rest);
      assert (t + rest)[1..] == t[1..] + rest;
    }
  }

  lemma ReadBackNat(n: nat, rest: Text)
    requires EndsNumber(rest)
    ensures ReadNat(Digits(n) + rest) == (n, rest)
  {
    DigitCountOf(Digits(n), rest);
    NatValueOfDigits(n);
    assert (Digits(n) + rest)[..|Digits(n)|] == Digits(n);
    assert (Digits(n) + rest)[|Digits(n)|..] == rest;
  }

  lemma ReadBackInt(n: int, rest: Text)
    requires EndsNumber(rest)
    ensures ReadInt(Decimal(n) + rest) == (n, rest)
  {
    hide Digits, ReadNat, NatValue, DigitCount;
    var z := Decimal(n) + rest;
    if n < 0 {
      ReadBackNat(-n, rest);
      assert z[0] == 0x2D && z[1..] == Digits(-n) + rest;
    } else {
      ReadBackNat(n, rest);
      assert IsDigit(Digits(n)[0]) && z[0] == Digits(n)[0];
    }
  }

  // ---------------------------------------------------------------- fields

  /** `key` and then a number, or a string, and then `rest`. */
  function NumberField(key: Text, n: int, rest: Text): Text {
    key + (Decimal(n) + rest)
  }

  function TextField(key: Text, s: Text, rest: Text): Text {
    key + (EncodeString(s) + rest)
  }

  function Expect(key: Text, z: Text): Option<Text> {
    if |key| <= |z| && z[..|key|] == key then Some(z[|key|..]) else None
  }

  function ReadNumberField(key: Text, z: Text): Option<(int, Text)> {
    var y :- Expect(key, z);
    Some(ReadInt(y))
  }

  function ReadTextField(key: Text, z: Text): Option<(Text, Text)> {
    var y :- Expect(key, z);
    ReadString(y)
  }

  lemma ExpectFinds(key: Text, y: Text)
    ensures Expect(key, key + y) == Some(y)
  {
    assert (key + y)[..|key|] == key && (key + y)[|key|..] == y;
  }

  lemma ReadBackNumberField(key: Text, n: int, rest: Text)
    requires EndsNumber(rest)
    ensures ReadNumberField(key, NumberField(key, n, rest)) == Some((n, rest))
  {
    ExpectFinds(key, Decimal(n) + rest);
    ReadBackInt(n, rest);
  }

  lemma ReadBackTextField(key: Text, s: Text, rest: Text)
    requires ValidUtf8(s)
    ensures ReadTextField(key, TextField(key, s, rest)) == Some((s, rest))
  {
    ExpectFinds(key, EncodeString(s) + rest);
    ReadBackString(s, rest);
  }

  // ---------------------------------------------------------------- transactions

  const ID_KEY: Text := Ascii("{\"id\":")
  const DATA_KEY: Text := Ascii(",\"data\":")
  const TIMESTAMP_KEY: Text := Ascii(",\"timestamp\":")
  const CLOSE: byte := 0x7D
  const COMMA: byte := 0x2C
  const END_LIST: byte := 0x5D

  /** `t` as an object, and then `rest`. */
  function EncodeTransaction(t: Transaction, rest: Text): (z: Text)
    ensures z != [] && z[0] == 0x7B
  {
    TextField(ID_KEY, t.id,
      TextField(DATA_KEY, t.data,
        NumberField(TIMESTAMP_KEY, t.timestamp, [CLOSE] + rest)))
  }

  predicate InInt64(n: int) {
    -0x8000_0000_0000_0000 <= n < 0x8000_0000_0000_0000
  }

  function ReadTransaction(z: Text): (r: Option<(Transaction, Text)>)
    ensures r.Some? ==> |r.value.1| < |z|
  {
    var id :- ReadTextField(ID_KEY, z);
    var data :- ReadTextField(DATA_KEY, id.1);
    var time :- ReadNumberField(TIMESTAMP_KEY, data.1);
    var rest :- Expect([CLOSE], time.1);
    if InInt64(time.0) then Some((Transaction(id.0, data.0, time.0), rest)) else None
  }

  predicate ValidTexts(ts: seq<Transaction>) {
    forall t | t in ts :: ValidUtf8(t.id) && ValidUtf8(t.data)
  }

  lemma ReadBackTransaction(t: Transaction, rest: Text)
    requires ValidUtf8(t.id) && ValidUtf8(t.data)
    ensures ReadTransaction(EncodeTransaction(t, rest)) == Some((t, rest))
  {
    var tail := [CLOSE] + rest;
    var timed := NumberField(TIMESTAMP_KEY, t.timestamp, tail);
    var dated := TextField(DATA_KEY, t.data, timed);
    ReadBackTextField(ID_KEY, t.id, dated);
    ReadBackTextField(DATA_KEY, t.data, timed);
    ReadBackNumberField(TIMESTAMP_KEY, t.timestamp, tail);
    ExpectFinds([CLOSE], rest);
  }

  /** What follows the opening bracket: the elements, the closing bracket, `rest`. */
  function EncodeList(ts: seq<Transaction>, rest: Text): Text {
    if ts == [] then [END_LIST] + rest else EncodeElements(ts, rest)
  }

  function EncodeElements(ts: seq<Transaction>, rest: Text): (z: Text)
    requires ts != []
    ensures z != [] && z[0] == 0x7B
  {
    EncodeTransaction(ts[0],
      if |ts| == 1 then [END_LIST] + rest else [COMMA] + EncodeElements(ts[1..], rest))
  }

  function ReadList(z: Text): Option<(seq<Transaction>, Text)> {
    if z != [] && z[0] == END_LIST then Some(([], z[1..])) else ReadElements(z)
  }

  function ReadElements(z: Text): Option<(seq<Transaction>, Text)>
    decreases |z|
  {
    var t :- ReadTransaction(z);
    if t.1 == [] then None
    else if t.1[0] == END_LIST then Some(([t.0], t.1[1..]))
    else if t.1[0] != COMMA then None
    else
      var more :- ReadElements(t.1[1..]);
      Some(([t.0] + more.0, more.1))
  }

  lemma {:induction false} ReadBackElements(ts: seq<Transaction>, rest: Text)
    requires ts != [] && ValidTexts(ts)
    ensures ReadElements(EncodeElements(ts, rest)) == Some((ts, rest))
    decreases |ts|
  {
    hide EncodeTransaction, ReadTransaction;
    if |ts| == 1 {
      ReadBackTransaction(ts[0], [END_LIST] + rest);
      assert ([END_LIST] + rest)[1..] == rest;
      assert [ts[0]] == ts;
    } else {
      var more := EncodeElements(ts[1..], rest);
      ReadBackTransaction(ts[0], [COMMA] + more);
      ReadBackElements(ts[1..], rest);
      assert ([COMMA] + more)[1..] == more;
      assert [ts[0]] + ts[1..] == ts;
    }
  }

  lemma ReadBackList(ts: seq<Transaction>, rest: Text)
    requires ValidTexts(ts)
    ensures ReadList(EncodeList(ts, rest)) == Some((ts, rest))
  {
    if ts == [] {
      assert ([END_LIST] + rest)[1..] == rest;
    } else {
      ReadBackElements(ts, rest);
    }
  }

  // ---------------------------------------------------------------- headers

  const VERSION_KEY: Text := Ascii("{\"version\":")
  const DIFFICULTY_KEY: Text := Ascii(",\"difficulty\":")
  const INDEX_KEY: Text := Ascii(",\"index\":")
  const TRANSACTIONS_KEY: Text := Ascii(",\"transactions\":[")
  const PREV_HASH_KEY: Text := Ascii(",\"prev_hash\":")
  const NONCE_KEY: Text := Ascii(",\"nonce\":")

  function EncodeTail(prevHash: Text, nonce: uint64): Text {
    TextField(PREV_HASH_KEY, prevHash, NumberField(NONCE_KEY, nonce, [CLOSE]))
  }

  /** The JSON object that is hashed. */
  function Encode(h: Header): Text {
    NumberField(VERSION_KEY, h.version,
      NumberField(DIFFICULTY_KEY, h.difficulty,
        NumberField(INDEX_KEY, h.index,
          NumberField(TIMESTAMP_KEY, h.timestamp,
            TRANSACTIONS_KEY + EncodeList(h.transactions, EncodeTail(h.prevHash, h.nonce))))))
  }

  function ReadTail(z: Text): Option<(Text, uint64)> {
    var prevHash :- ReadTextField(PREV_HASH_KEY, z);
    var nonce :- ReadNumberField(NONCE_KEY, prevHash.1);
    if nonce.1 == [CLOSE] && 0 <= nonce.0 < 0x1_0000_0000_0000_0000 then Some((prevHash.0, nonce.0)) else None
  }

  function ReadHeader(z: Text): Option<Header> {
    var version :- ReadNumberField(VERSION_KEY, z);
    var difficulty :- ReadNumberField(DIFFICULTY_KEY, version.1);
    var index :- ReadNumberField(INDEX_KEY, difficulty.1);
    var timestamp :- ReadNumberField(TIMESTAMP_KEY, index.1);
    var list :- Expect(TRANSACTIONS_KEY, timestamp.1);
    var transactions :- ReadList(list);
    var tail :- ReadTail(transactions.1);
    if InInt64(version.0) && InInt64(difficulty.0) && InInt64(index.0) && InInt64(timestamp.0) then
      Some(Header(version.0, difficulty.0, index.0, timestamp.0, transactions.0, tail.0, tail.1))
    else None
  }

  /** The texts a header holds are all valid UTF-8. */
  predicate ValidHeaderTexts(h: Header) {
    ValidTexts(h.transactions) && ValidUtf8(h.prevHash)
  }

  lemma KeysEndNumbers(n: int, rest: Text)
    ensures EndsNumber(NumberField(DIFFICULTY_KEY, n, rest)) && EndsNumber(NumberField(INDEX_KEY, n, rest))
    ensures EndsNumber(NumberField(TIMESTAMP_KEY, n, rest)) && EndsNumber(TRANSACTIONS_KEY + rest)
  {
  }

  lemma ReadBackTail(prevHash: Text, nonce: uint64)
    requires ValidUtf8(prevHash)
    ensures ReadTail(EncodeTail(prevHash, nonce)) == Some((prevHash, nonce))
  {
    ReadBackTextField(PREV_HASH_KEY, prevHash, NumberField(NONCE_KEY, nonce, [CLOSE]));
    ReadBackNumberField(NONCE_KEY, nonce, [CLOSE]);
  }

  /** The encoding can be read back: nothing of a header with valid text is lost. */
  lemma ReadBackHeader(h: Header)
    requires ValidHeaderTexts(h)
    ensures ReadHeader(Encode(h)) == Some(h)
  {
    var tail := EncodeTail(h.prevHash, h.nonce);
    var list := EncodeList(h.transactions, tail);
    var timed := NumberField(TIMESTAMP_KEY, h.timestamp, TRANSACTIONS_KEY + list);
    var indexed := NumberField(INDEX_KEY, h.index, timed);
    var leveled := NumberField(DIFFICULTY_KEY, h.difficulty, indexed);
    KeysEndNumbers(h.timestamp, TRANSACTIONS_KEY + list);
    KeysEndNumbers(h.index, timed);
    KeysEndNumbers(h.difficulty, indexed);
    KeysEndNumbers(0, list);
    hide NumberField, ReadNumberField, Expect, EndsNumber, EncodeList, ReadList, EncodeTail, ReadTail, ValidTexts;
    ReadBackNumberField(VERSION_KEY, h.version, leveled);
    ReadBackNumberField(DIFFICULTY_KEY, h.difficulty, indexed);
    ReadBackNumberField(INDEX_KEY, h.index, timed);
    ReadBackNumberField(TIMESTAMP_KEY, h.timestamp, TRANSACTIONS_KEY + list);
    ExpectFinds(TRANSACTIONS_KEY, list);
    ReadBackList(h.transactions, tail);
    ReadBackTail(h.prevHash, h.nonce);
  }

  /** Different headers never serialize alike, so ["a,b"] is not ["a","b"]. */
  lemma EncodeInjective(g: Header, h: Header)
    requires ValidHeaderTexts(g) && ValidHeaderTexts(h)
    ensures Encode(g) == Encode(h) <==> g == h
  {
    ReadBackHeader(g);
    ReadBackHeader(h);
  }

  // ---------------------------------------------------------------- digests of encodings

  /** A hash of byte strings, written in hexadecimal. */
  type ByteHash = f: Text -> Text | forall z :: IsDigest(f(z)) witness (z: Text) => seq(64, i => 48)

  /** The rules of a deployment that hashes encoded headers with `sha`. */
  function HashedRules(sha: ByteHash, difficulty: int64): Rules {
    hide Encode;
    var digest: Header -> Text := (h: Header) => sha(Encode(h));
    assert forall z :: IsDigest(sha(z));
    assert forall h: Header :: digest(h) == sha(Encode(h));
    Rules(digest, difficulty)
  }

  /** `sha` maps no two of the byte strings hashed for `blocks` to one digest. */
  ghost predicate NoByteCollision(sha: ByteHash, blocks: set<Block>) {
    forall x, y | x in blocks && y in blocks && sha(Encode(HeaderOf(x))) == sha(Encode(HeaderOf(y))) ::
      Encode(HeaderOf(x)) == Encode(HeaderOf(y))
  }

  /** All that is asked of the hash is asked of bytes: where no two hashed byte strings
      collide, no two headers with valid text do. */
  lemma BytesToHeaders(sha: ByteHash, difficulty: int64, blocks: set<Block>)
    requires forall b | b in blocks :: ValidHeaderTexts(HeaderOf(b))
    ensures NoByteCollision(sha, blocks) <==> NoCollision(HashedRules(sha, difficulty), blocks)
  {
    hide Encode, ValidHeaderTexts;
    forall x, y | x in blocks && y in blocks
      ensures Encode(HeaderOf(x)) == Encode(HeaderOf(y)) <==> HeaderOf(x) == HeaderOf(y)
    {
      EncodeInjective(HeaderOf(x), HeaderOf(y));
    }
    assert forall b: Block :: CalculateHash(HashedRules(sha, difficulty), b) == sha(Encode(HeaderOf(b)));
  }
}
