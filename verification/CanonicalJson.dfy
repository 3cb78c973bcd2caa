/** What the browser simulator hashes: its blocks, their Go counterparts, and JSON.stringify
    followed by a replacement, proved to yield the very bytes that Go hashes. */
module CanonicalJson {
  import opened GoText
  import opened UnicodeText
  import opened Entities
  import opened HeaderEncoding

  datatype JsTransaction = JsTransaction(id: JsText, data: JsText, timestamp: int64)

  datatype JsBlock = JsBlock(
    version: int64,
    difficulty: int64,
    index: int64,
    timestamp: int64,
    transactions: seq<JsTransaction>,
    prevHash: JsText,
    hash: JsText,
    nonce: uint64)

  // ---------------------------------------------------------------- the same data in Go

  function GoTransaction(t: JsTransaction): Transaction {
    Transaction(Utf8(t.id), Utf8(t.data), t.timestamp)
  }

  function GoTransactions(ts: seq<JsTransaction>): seq<Transaction> {
    seq(|ts|, i requires 0 <= i < |ts| => GoTransaction(ts[i]))
  }

  function GoBlock(b: JsBlock): Block {
    Block(b.version, b.difficulty, b.index, b.timestamp, GoTransactions(b.transactions), Utf8(b.prevHash), Utf8(b.hash), b.nonce)
  }

  function GoChain(chain: seq<JsBlock>): seq<Block> {
    seq(|chain|, i requires 0 <= i < |chain| => GoBlock(chain[i]))
  }

  predicate ValidBlockTexts(b: Block) {
    ValidHeaderTexts(HeaderOf(b)) && ValidUtf8(b.hash)
  }

  /** Every Go block whose texts are valid UTF-8 is the Go form of exactly one block. */
  lemma EveryBlockHasJsForm(b: Block) returns (js: JsBlock)
    requires ValidBlockTexts(b)
    ensures GoBlock(js) == b && forall other: JsBlock | GoBlock(other) == b :: other == js
  {
    var n := |b.transactions|;
    assert forall i | 0 <= i < n :: b.transactions[i] in b.transactions;
    var ts := seq(n, i requires 0 <= i < n =>
      JsTransaction(FromUtf8(b.transactions[i].id), FromUtf8(b.transactions[i].data), b.transactions[i].timestamp));
    js := JsBlock(b.version, b.difficulty, b.index, b.timestamp, ts, FromUtf8(b.prevHash), FromUtf8(b.hash), b.nonce);
    hide Utf8, FromUtf8, ValidUtf8;
    EncodeDecode(b.prevHash);
    EncodeDecode(b.hash);
    forall i | 0 <= i < n ensures GoTransactions(ts)[i] == b.transactions[i] {
      EncodeDecode(b.transactions[i].id);
      EncodeDecode(b.transactions[i].data);
    }
    assert GoTransactions(ts) == b.transactions;
    forall other: JsBlock | GoBlock(other) == b ensures other == js {
      GoBlockInjective(other, js);
    }
  }

  lemma GoBlockInjective(a: JsBlock, b: JsBlock)
    ensures GoBlock(a) == GoBlock(b) <==> a == b
  {
    hide Utf8;
    if GoBlock(a) == GoBlock(b) {
      Utf8Injective(a.prevHash, b.prevHash);
      Utf8Injective(a.hash, b.hash);
      assert |a.transactions| == |GoTransactions(a.transactions)| == |b.transactions|;
      forall i | 0 <= i < |a.transactions| ensures a.transactions[i] == b.transactions[i] {
        assert GoTransactions(a.transactions)[i] == GoTransactions(b.transactions)[i];
        Utf8Injective(a.transactions[i].id, b.transactions[i].id);
        Utf8Injective(a.transactions[i].data, b.transactions[i].data);
      }
      assert a.transactions == b.transactions;
    }
  }

  // ---------------------------------------------------------------- canonical JSON

  function Js(s: string): JsText {
    FromAscii(AsciiBytes(s))
  }

  function AsciiBytes(s: string): (t: Text)
    ensures t == Ascii(s) && forall i | 0 <= i < |t| :: t[i] < 0x80
  {
    Ascii(s)
  }

  function Hex4(n: int): JsText
    requires 0 <= n < 0x10000
  {
    [HexDigit(n / 4096), HexDigit(n / 256 % 16), HexDigit(n / 16 % 16), HexDigit(n % 16)]
  }

  /** One character as JSON.stringify quotes it (QuoteJSONString in ECMA-262). */
  function QuoteScalar(c: Scalar): JsText {
    if c == 0x08 then Js("\\b")
    else if c == 0x09 then Js("\\t")
    else if c == 0x0A then Js("\\n")
    else if c == 0x0C then Js("\\f")
    else if c == 0x0D then Js("\\r")
    else if c == 0x22 || c == 0x5C then [0x5C, c]
    else if c < 0x20 then [0x5C, 0x75] + Hex4(c)
    else [c]
  }

  function QuoteAll(s: JsText): JsText {
    if s == [] then [] else QuoteScalar(s[0]) + QuoteAll(s[1..])
  }

  function Quote(s: JsText): JsText {
    [0x22] + QuoteAll(s) + [0x22]
  }

  function DecimalBytes(n: int): (t: Text)
    ensures t == Decimal(n) && forall i | 0 <= i < |t| :: t[i] == 0x2D || IsDigit(t[i])
  {
    Decimal(n)
  }

  function Number(n: int): JsText {
    FromAscii(DecimalBytes(n))
  }

  /** `key` and `value`, and then `rest`. */
  function Field(key: string, value: JsText, rest: JsText): JsText {
    Js(key) + (value + rest)
  }

  /** JSON.stringify of a message. */
  function StringifyTransaction(t: JsTransaction): JsText {
    Field("{\"id\":", Quote(t.id),
      Field(",\"data\":", Quote(t.data),
        Field(",\"timestamp\":", Number(t.timestamp), Js("}"))))
  }

  /** The elements of an array with commas between them. */
  function Join(ts: seq<JsTransaction>): JsText {
    if ts == [] then []
    else if |ts| == 1 then StringifyTransaction(ts[0])
    else StringifyTransaction(ts[0]) + (Js(",") + Join(ts[1..]))
  }

  /** JSON.stringify of the header object of a block. */
  function Stringify(b: JsBlock): JsText {
    Field("{\"version\":", Number(b.version),
      Field(",\"difficulty\":", Number(b.difficulty),
        Field(",\"index\":", Number(b.index),
          Field(",\"timestamp\":", Number(b.timestamp),
            Field(",\"transactions\":[", Join(b.transactions) + Js("]"),
              Field(",\"prev_hash\":", Quote(b.prevHash),
                Field(",\"nonce\":", Number(b.nonce), Js("}"))))))))
  }

  predicate Replaced(c: Scalar) {
    c == 0x3C || c == 0x3E || c == 0x26 || c == 0x2028 || c == 0x2029
  }

  function ReplaceScalar(c: Scalar): JsText {
    if Replaced(c) then [0x5C, 0x75] + Hex4(c) else [c]
  }

  /** The `replace` pass over the finished JSON text. */
  function Replace(s: JsText): JsText {
    if s == [] then [] else ReplaceScalar(s[0]) + Replace(s[1..])
  }

  function Canonical(b: JsBlock): JsText {
    Replace(Stringify(b))
  }

  /** The bytes that are hashed for a piece of JSON text. */
  function Out(s: JsText): Text {
    Utf8(Replace(s))
  }

  lemma {:induction false} ReplaceConcat(a: JsText, b: JsText)
    ensures Replace(a + b) == Replace(a) + Replace(b)
  {
    hide ReplaceScalar;
    if a == [] {
      assert a + b == b;
    } else {
      ReplaceConcat(a[1..], b);
      assert (a + b)[1..] == a[1..] + b && (a + b)[0] == a[0];
      Assoc(ReplaceScalar(a[0]), Replace(a[1..]), Replace(b));
    }
  }

  lemma Assoc<T>(a: seq<T>, b: seq<T>, c: seq<T>)
    ensures a + (b + c) == (a + b) + c
  {
  }

  lemma OutConcat(a: JsText, b: JsText)
    ensures Out(a + b) == Out(a) + Out(b)
  {
    ReplaceConcat(a, b);
    Utf8Concat(Replace(a), Replace(b));
  }

  /** ASCII text without <, > and & passes unchanged. */
  lemma {:induction false} ReplaceKeeps(s: JsText)
    requires forall c | c in s :: !Replaced(c)
    ensures Replace(s) == s
  {
    if s != [] {
      ReplaceKeeps(s[1..]);
      assert [s[0]] + s[1..] == s;
    }
  }

  lemma OutOfAscii(t: Text)
    requires forall i | 0 <= i < |t| :: t[i] < 0x80 && t[i] != 0x3C && t[i] != 0x3E && t[i] != 0x26
    ensures Out(FromAscii(t)) == t
  {
    ReplaceKeeps(FromAscii(t));
    Utf8OfAscii(t);
  }

  lemma OutOfNumber(n: int)
    ensures Out(Number(n)) == Decimal(n)
  {
    hide Decimal;
    OutOfAscii(DecimalBytes(n));
  }

  lemma HexDigitAscii(n: int)
    requires 0 <= n < 16
    ensures HexDigit(n) < 0x80 && !Replaced(HexDigit(n))
  {
  }

  predicate PlainBytes(t: Text) {
    forall i | 0 <= i < |t| :: t[i] < 0x80 && t[i] != 0x3C && t[i] != 0x3E && t[i] != 0x26
  }

  lemma QuotedControl(c: Scalar)
    requires c < 0x20
    ensures PlainBytes(EscapeAscii(c)) && QuoteScalar(c) == FromAscii(EscapeAscii(c))
  {
    HexDigitAscii(c / 16);
    HexDigitAscii(c % 16);
    assert c / 4096 == 0 && c / 256 % 16 == 0 && c / 16 % 16 == c / 16;
    hide HexDigit;
    assert HexDigit(0) == 48 by {
      HexZero();
    }
  }

  lemma HexZero()
    ensures HexDigit(0) == 48
  {
  }

  lemma QuotedPrintable(c: Scalar)
    requires 0x20 <= c < 0x80 && !Replaced(c)
    ensures PlainBytes(EscapeAscii(c)) && QuoteScalar(c) == FromAscii(EscapeAscii(c))
  {
  }

  /** A quoted character below U+0080 that the second pass leaves alone. */
  lemma OutOfQuoted(c: Scalar)
    requires c < 0x80 && !Replaced(c)
    ensures Out(QuoteScalar(c)) == EscapeAscii(c)
  {
    if c < 0x20 {
      QuotedControl(c);
    } else {
      QuotedPrintable(c);
    }
    hide QuoteScalar, EscapeAscii, FromAscii, Out;
    OutOfAscii(EscapeAscii(c));
  }

  lemma ReplaceOne(c: Scalar)
    ensures Replace([c]) == ReplaceScalar(c)
  {
    hide ReplaceScalar;
    assert [c][1..] == [] && Replace([]) == [];
  }

  lemma OutOfReplaced(c: Scalar)
    requires Replaced(c)
    ensures Out(QuoteScalar(c)) ==
      [0x5C, 0x75, HexDigit(c / 4096), HexDigit(c / 256 % 16), HexDigit(c / 16 % 16), HexDigit(c % 16)]
  {
    ReplaceOne(c);
    assert QuoteScalar(c) == [c];
    var r: Text := [0x5C, 0x75, HexDigit(c / 4096), HexDigit(c / 256 % 16), HexDigit(c / 16 % 16), HexDigit(c % 16)];
    assert [0x5C, 0x75] + Hex4(c) == FromAscii(r);
    hide HexDigit, Hex4;
    HexDigitAscii(c / 4096);
    HexDigitAscii(c / 256 % 16);
    HexDigitAscii(c / 16 % 16);
    HexDigitAscii(c % 16);
    Utf8OfAscii(r);
  }

  lemma EscapeReplaced(c: Scalar, rest: Text)
    requires Replaced(c)
    ensures EscapeRune(EncodeScalar(c) + rest) ==
      [0x5C, 0x75, HexDigit(c / 4096), HexDigit(c / 256 % 16), HexDigit(c / 16 % 16), HexDigit(c % 16)]
  {
    SizeOfEncoded(c, rest);
    hide RuneSize;
    var u := EncodeScalar(c);
    var z := u + rest;
    assert forall i | 0 <= i < |u| :: z[i] == u[i];
    if c >= 0x80 {
      assert u == [0xE2, 0x80, if c == 0x2028 then 0xA8 else 0xA9];
    }
  }

  lemma OutOfPlain(c: Scalar, rest: Text)
    requires c >= 0x80 && !Replaced(c)
    ensures Out(QuoteScalar(c)) == EscapeRune(EncodeScalar(c) + rest)
  {
    ReplaceOne(c);
    EncodedRune(c, rest);
    assert Utf8([c]) == EncodeScalar(c) + Utf8([]);
    hide RuneSize;
    var z := EncodeScalar(c) + rest;
    assert forall i | 0 <= i < |EncodeScalar(c)| :: z[i] == EncodeScalar(c)[i];
  }

  /** Quoting and replacing one character yields the bytes Go writes for its rune. */
  lemma OutOfScalar(c: Scalar, rest: Text)
    ensures Out(QuoteScalar(c)) == EscapeRune(EncodeScalar(c) + rest)
  {
    hide EscapeAscii, QuoteScalar, Out;
    if Replaced(c) {
      OutOfReplaced(c);
      EscapeReplaced(c, rest);
    } else if c < 0x80 {
      OutOfQuoted(c);
      assert (EncodeScalar(c) + rest)[0] == c;
    } else {
      OutOfPlain(c, rest);
    }
  }

  lemma {:induction false} OutOfText(s: JsText)
    ensures Out(QuoteAll(s)) == Escape(Utf8(s))
  {
    if s != [] {
      var rest := Utf8(s[1..]);
      OutOfText(s[1..]);
      OutOfScalar(s[0], rest);
      OutConcat(QuoteScalar(s[0]), QuoteAll(s[1..]));
      EncodedRune(s[0], rest);
      hide QuoteScalar, EncodeScalar, EscapeRune, RuneSize, Out;
    }
  }

  lemma OutOfQuoteMark()
    ensures Out([0x22]) == [QUOTE]
  {
    OutOfAscii([0x22]);
    assert FromAscii([0x22]) == [0x22];
  }

  lemma OutOfQuote(s: JsText)
    ensures Out(Quote(s)) == EncodeString(Utf8(s))
  {
    hide Out, Utf8, QuoteAll, Escape;
    OutOfText(s);
    OutOfQuoteMark();
    OutConcat([0x22] + QuoteAll(s), [0x22]);
    OutConcat([0x22], QuoteAll(s));
    Assoc([QUOTE], Escape(Utf8(s)), [QUOTE]);
  }

  predicate PlainAscii(k: string) {
    forall i | 0 <= i < |k| :: k[i] as int < 0x80 && k[i] != '<' && k[i] != '>' && k[i] != '&'
  }

  lemma PlainKeys()
    ensures PlainAscii("{\"version\":") && PlainAscii(",\"difficulty\":") && PlainAscii(",\"index\":")
    ensures PlainAscii(",\"timestamp\":") && PlainAscii(",\"prev_hash\":") && PlainAscii(",\"nonce\":")
  {
  }

  lemma PlainMessageKeys()
    ensures PlainAscii("{\"id\":") && PlainAscii(",\"data\":") && PlainAscii(",\"timestamp\":")
  {
  }

  lemma OutOfJs(k: string)
    requires PlainAscii(k)
    ensures Out(Js(k)) == Ascii(k)
  {
    OutOfAscii(AsciiBytes(k));
  }

  lemma OutOfField(key: string, value: JsText, rest: JsText)
    requires PlainAscii(key)
    ensures Out(Field(key, value, rest)) == Ascii(key) + (Out(value) + Out(rest))
  {
    OutOfJs(key);
    OutConcat(Js(key), value + rest);
    OutConcat(value, rest);
  }

  lemma OutOfNumberField(key: string, n: int, rest: JsText)
    requires PlainAscii(key)
    ensures Out(Field(key, Number(n), rest)) == NumberField(Ascii(key), n, Out(rest))
  {
    hide Out, Field, Number, Decimal, PlainAscii;
    OutOfField(key, Number(n), rest);
    OutOfNumber(n);
  }

  lemma OutOfTextField(key: string, s: JsText, rest: JsText)
    requires PlainAscii(key)
    ensures Out(Field(key, Quote(s), rest)) == TextField(Ascii(key), Utf8(s), Out(rest))
  {
    hide Out, Field, Quote, EncodeString, PlainAscii, Utf8;
    OutOfField(key, Quote(s), rest);
    OutOfQuote(s);
  }

  /** A field may be finished before or after the rest of the text is attached. */
  lemma FieldConcat(key: string, value: JsText, rest: JsText, more: JsText)
    ensures Field(key, value, rest) + more == Field(key, value, rest + more)
  {
  }

  lemma TransactionConcat(t: JsTransaction, rest: JsText)
    ensures StringifyTransaction(t) + rest ==
      Field("{\"id\":", Quote(t.id),
        Field(",\"data\":", Quote(t.data),
          Field(",\"timestamp\":", Number(t.timestamp), Js("}") + rest)))
  {
    hide Field, Quote, Number, Js;
    var time := Field(",\"timestamp\":", Number(t.timestamp), Js("}"));
    FieldConcat(",\"timestamp\":", Number(t.timestamp), Js("}"), rest);
    FieldConcat(",\"data\":", Quote(t.data), time, rest);
    FieldConcat("{\"id\":", Quote(t.id), Field(",\"data\":", Quote(t.data), time), rest);
  }

  lemma OutOfTransaction(t: JsTransaction, rest: JsText)
    ensures Out(StringifyTransaction(t) + rest) == EncodeTransaction(GoTransaction(t), Out(rest))
  {
    TransactionConcat(t, rest);
    PlainMessageKeys();
    OutOfJs("}");
    assert Ascii("}") == [CLOSE];
    OutConcat(Js("}"), rest);
    hide Out, Field, Quote, Number, Utf8, NumberField, TextField, Js, StringifyTransaction, PlainAscii;
    var end := Js("}") + rest;
    var time := Field(",\"timestamp\":", Number(t.timestamp), end);
    var data := Field(",\"data\":", Quote(t.data), time);
    OutOfNumberField(",\"timestamp\":", t.timestamp, end);
    OutOfTextField(",\"data\":", t.data, time);
    OutOfTextField("{\"id\":", t.id, data);
  }

  lemma JoinSplits(ts: seq<JsTransaction>, end: JsText)
    requires |ts| > 1
    ensures Join(ts) + end == StringifyTransaction(ts[0]) + (Js(",") + (Join(ts[1..]) + end))
  {
    hide StringifyTransaction, Js;
    var t, comma, more := StringifyTransaction(ts[0]), Js(","), Join(ts[1..]);
    Assoc(t, comma + more, end);
    Assoc(comma, more, end);
  }

  lemma {:induction false} OutOfElements(ts: seq<JsTransaction>, end: JsText, rest: Text)
    requires ts != [] && Out(end) == [END_LIST] + rest
    ensures Out(Join(ts) + end) == EncodeElements(GoTransactions(ts), rest)
  {
    hide Out, StringifyTransaction, EncodeTransaction, Utf8, GoTransaction, Js;
    if |ts| == 1 {
      OutOfTransaction(ts[0], end);
    } else {
      OutOfElements(ts[1..], end, rest);
      var more := Join(ts[1..]) + end;
      OutAfterComma(more);
      OutOfTransaction(ts[0], Js(",") + more);
      hide Join;
      assert GoTransactions(ts)[1..] == GoTransactions(ts[1..]);
      JoinSplits(ts, end);
    }
  }

  lemma OutAfterComma(more: JsText)
    ensures Out(Js(",") + more) == [COMMA] + Out(more)
  {
    OutOfJs(",");
    assert Ascii(",") == [COMMA];
    OutConcat(Js(","), more);
  }

  lemma OutOfList(ts: seq<JsTransaction>, rest: JsText)
    ensures Out((Join(ts) + Js("]")) + rest) == EncodeList(GoTransactions(ts), Out(rest))
  {
    OutOfJs("]");
    assert Ascii("]") == [END_LIST];
    var end := Js("]") + rest;
    OutConcat(Js("]"), rest);
    hide Out, StringifyTransaction, EncodeTransaction, Ascii, Utf8, Js, EncodeElements;
    assert (Join(ts) + Js("]")) + rest == Join(ts) + end;
    if ts == [] {
      assert [] + end == end;
    } else {
      OutOfElements(ts, end, Out(rest));
    }
  }

  lemma OutOfListField(ts: seq<JsTransaction>, rest: JsText)
    ensures Out(Field(",\"transactions\":[", Join(ts) + Js("]"), rest)) == TRANSACTIONS_KEY + EncodeList(GoTransactions(ts), Out(rest))
  {
    OutOfJs(",\"transactions\":[");
    hide Out, Join, EncodeList, Js, Ascii;
    var key, list := Js(",\"transactions\":["), Join(ts) + Js("]");
    OutConcat(key, list + rest);
    OutOfList(ts, rest);
  }

  /** The browser hashes exactly the bytes that Go hashes. */
  lemma CanonicalIsEncode(b: JsBlock)
    ensures Utf8(Canonical(b)) == Encode(HeaderOf(GoBlock(b)))
  {
    assert Utf8(Canonical(b)) == Out(Stringify(b));
    OutOfJs("}");
    assert Ascii("}") == [CLOSE];
    hide Out, Field, Quote, Number, Join, Utf8, NumberField, TextField, Js, EncodeList, GoTransactions, PlainAscii;
    var nonce := Field(",\"nonce\":", Number(b.nonce), Js("}"));
    var prev := Field(",\"prev_hash\":", Quote(b.prevHash), nonce);
    var list := Field(",\"transactions\":[", Join(b.transactions) + Js("]"), prev);
    var time := Field(",\"timestamp\":", Number(b.timestamp), list);
    var index := Field(",\"index\":", Number(b.index), time);
    var level := Field(",\"difficulty\":", Number(b.difficulty), index);
    PlainKeys();
    OutOfNumberField(",\"nonce\":", b.nonce, Js("}"));
    OutOfTextField(",\"prev_hash\":", b.prevHash, nonce);
    OutOfListField(b.transactions, prev);
    OutOfNumberField(",\"timestamp\":", b.timestamp, list);
    OutOfNumberField(",\"index\":", b.index, time);
    OutOfNumberField(",\"difficulty\":", b.difficulty, index);
    OutOfNumberField("{\"version\":", b.version, level);
  }
}
