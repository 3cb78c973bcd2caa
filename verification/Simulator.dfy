/** The browser's second implementation of the ledger rules, written in fewer checks, and
    the proof that it accepts the chains the Go nodes accept and decides forks alike. */
module Simulator {
  import opened GoText
  import opened UnicodeText
  import opened Entities
  import opened HeaderEncoding
  import opened CanonicalJson
  import opened Models
  import opened Mempools

  const VERSION := 1
  const DIFFICULTY := 2
  const MAX_SAFE_INTEGER := 0x1F_FFFF_FFFF_FFFF

  // ---------------------------------------------------------------- the browser's rules

  /** The SHA-256 of the canonical header, in hexadecimal. */
  function Hash(sha: ByteHash, b: JsBlock): JsText {
    FromAscii(HexOf(sha, Utf8(Canonical(b))))
  }

  function HexOf(sha: ByteHash, z: Text): (t: Text)
    ensures t == sha(z) && IsDigest(t) && forall i | 0 <= i < |t| :: t[i] < 0x80
  {
    assert IsDigest(sha(z));
    assert forall i | 0 <= i < |sha(z)| :: LowerHex(sha(z)[i]);
    sha(z)
  }

  /** The first block before it is hashed. */
  function Unhashed(): JsBlock {
    JsBlock(VERSION, DIFFICULTY, 0, 1767225600, [], [], [], 0)
  }

  function Genesis(sha: ByteHash): JsBlock {
    Unhashed().(hash := Hash(sha, Unhashed()))
  }

  predicate IsSafeInteger(n: int) {
    -MAX_SAFE_INTEGER <= n <= MAX_SAFE_INTEGER
  }

  predicate JsValidTransaction(t: JsTransaction) {
    && !JsBlank(t.id) && |Utf8(t.id)| <= 128
    && !JsBlank(t.data) && |Utf8(t.data)| <= 4096
    && IsSafeInteger(t.timestamp) && t.timestamp > 0
  }

  /** `hash.startsWith('00')` */
  predicate StartsWithZeros(hash: JsText) {
    |hash| >= DIFFICULTY && forall i | 0 <= i < DIFFICULTY :: hash[i] == 48
  }

  /** All messages of a chain but those of its first block, in order. */
  function JsMessages(chain: seq<JsBlock>): seq<JsTransaction> {
    if |chain| <= 1 then [] else JsMessages(chain[..|chain| - 1]) + chain[|chain| - 1].transactions
  }

  function JsIds(ts: seq<JsTransaction>): set<JsText> {
    set t | t in ts :: t.id
  }

  predicate JsDistinctIds(ts: seq<JsTransaction>) {
    forall i, j | 0 <= i < j < |ts| :: ts[i].id != ts[j].id
  }

  /** Not more than two minutes ahead of `Date.now()`, which counts milliseconds. */
  predicate InTime(timestamp: int, ms: int) {
    timestamp as real <= ms as real / 1000.0 + 120.0
  }

  predicate AllJsValid(ts: seq<JsTransaction>) {
    forall t | t in ts :: JsValidTransaction(t)
  }

  /** The checks of one block against its index and parent. `ms` is `Date.now()`. */
  predicate JsValidLink(sha: ByteHash, chain: seq<JsBlock>, i: int, ms: int)
    requires 1 <= i < |chain|
  {
    var block, previous := chain[i], chain[i - 1];
    && block.version == VERSION && block.difficulty == DIFFICULTY && block.index == i
    && block.prevHash == previous.hash && IsSafeInteger(block.timestamp)
    && block.timestamp >= previous.timestamp && InTime(block.timestamp, ms)
    && IsSafeInteger(block.nonce)
    && 1 <= |block.transactions| <= 100
    && AllJsValid(block.transactions)
    && StartsWithZeros(block.hash) && block.hash == Hash(sha, block)
  }

  predicate JsValidLinks(sha: ByteHash, chain: seq<JsBlock>, ms: int) {
    forall i | 1 <= i < |chain| :: JsValidLink(sha, chain, i, ms)
  }

  predicate JsValidChain(sha: ByteHash, chain: seq<JsBlock>, ms: int) {
    && 1 <= |chain| <= 10000
    && chain[0] == Genesis(sha)
    && JsValidLinks(sha, chain, ms)
    && JsDistinctIds(JsMessages(chain))
  }

  function JsLast(chain: seq<JsBlock>): JsBlock
    requires chain != []
  {
    chain[|chain| - 1]
  }

  predicate Better(candidate: seq<JsBlock>, current: seq<JsBlock>) {
    if |candidate| != |current| then |candidate| > |current|
    else |candidate| > 0 && JsLess(JsLast(candidate).hash, JsLast(current).hash)
  }

  // ---------------------------------------------------------------- correspondence

  function GoRules(sha: ByteHash): Rules {
    HashedRules(sha, DIFFICULTY)
  }

  lemma HashIsCalculateHash(sha: ByteHash, b: JsBlock)
    ensures Utf8(Hash(sha, b)) == CalculateHash(GoRules(sha), GoBlock(b))
  {
    CanonicalIsEncode(b);
    hide Canonical, Encode;
    Utf8OfAscii(HexOf(sha, Utf8(Canonical(b))));
  }

  /** A right hash has the 64 digits Go asks for, and as many leading zeros in either
      language. */
  lemma HashShape(sha: ByteHash, b: JsBlock)
    ensures |Utf8(Hash(sha, b))| == 64
    ensures StartsWithZeros(Hash(sha, b)) <==> MeetsTarget(Utf8(Hash(sha, b)), DIFFICULTY)
  {
    hide Canonical;
    var h := HexOf(sha, Utf8(Canonical(b)));
    Utf8OfAscii(h);
    hide Utf8, HexOf;
    assert forall i | 0 <= i < DIFFICULTY :: FromAscii(h)[i] == h[i];
  }

  /** No text in it is white space for one language only. */
  predicate PlainTexts(t: JsTransaction) {
    !OddlyBlank(t.id) && !OddlyBlank(t.data)
  }

  lemma SameTransaction(t: JsTransaction)
    ensures PlainTexts(t) && IsSafeInteger(t.timestamp) ==> JsValidTransaction(t) == ValidTransaction(GoTransaction(t))
    ensures JsValidTransaction(t) && ValidTransaction(GoTransaction(t)) ==> PlainTexts(t) && IsSafeInteger(t.timestamp)
  {
    BlankAgrees(t.id);
    BlankAgrees(t.data);
    DecodeEncode(t.id);
    DecodeEncode(t.data);
    hide Utf8, OddlyBlank, Blank, JsBlank, ValidUtf8, FromUtf8;
  }

  /** The clock in milliseconds and the clock in whole seconds put the limit at the same
      second. */
  lemma SameLimit(timestamp: int, ms: int)
    ensures InTime(timestamp, ms) <==> timestamp <= ms / 1000 + CLOCK_SKEW
  {
    assert ms == ms / 1000 * 1000 + ms % 1000;
    var floor := ms / 1000;
    assert floor as real <= ms as real / 1000.0 < floor as real + 1.0;
    if timestamp > floor + 120 {
      assert timestamp as real >= floor as real + 121.0;
    } else {
      assert timestamp as real <= floor as real + 120.0;
    }
  }

  lemma GoTransactionsConcat(a: seq<JsTransaction>, b: seq<JsTransaction>)
    ensures GoTransactions(a + b) == GoTransactions(a) + GoTransactions(b)
  {
    hide GoTransaction;
  }

  lemma {:induction false} SameMessages(chain: seq<JsBlock>)
    requires chain != [] && chain[0].transactions == []
    ensures Messages(GoChain(chain)) == GoTransactions(JsMessages(chain))
  {
    hide GoTransaction;
    var n := |chain| - 1;
    assert GoChain(chain)[..n] == GoChain(chain[..n]);
    if n > 0 {
      SameMessages(chain[..n]);
      GoTransactionsConcat(JsMessages(chain[..n]), chain[n].transactions);
    } else {
      assert Messages(GoChain(chain)[..0]) == [];
    }
  }

  lemma SameDistinct(ts: seq<JsTransaction>)
    ensures JsDistinctIds(ts) == DistinctIds(GoTransactions(ts))
  {
    hide Utf8;
    var go := GoTransactions(ts);
    forall i, j | 0 <= i < |ts| && 0 <= j < |ts| ensures ts[i].id == ts[j].id <==> go[i].id == go[j].id {
      Utf8Injective(ts[i].id, ts[j].id);
    }
    if JsDistinctIds(ts) {
      assert DistinctIds(go);
    }
    if DistinctIds(go) {
      forall i, j | 0 <= i < j < |ts| ensures ts[i].id != ts[j].id {
        assert go[i].id != go[j].id;
      }
    }
  }

  lemma BlockDistinct(chain: seq<Block>, i: nat)
    requires i < |chain| && DistinctIds(Messages(chain))
    ensures DistinctIds(chain[i].transactions)
  {
    hide Messages, TxIds, DistinctIds;
    MessagesPrefix(chain, i + 1);
    assert chain[..i + 1] == chain[..i] + [chain[i]];
    MessagesSnoc(chain[..i], chain[i]);
    var head, rest := Messages(chain[..i + 1]), Messages(chain)[|Messages(chain[..i + 1])|..];
    assert head + rest == Messages(chain);
    DistinctConcat(head, rest);
    DistinctConcat(Messages(chain[..i]), chain[i].transactions);
  }

  predicate PlainBlock(b: JsBlock) {
    forall t | t in b.transactions :: PlainTexts(t)
  }

  predicate SafeBlock(b: JsBlock) {
    && IsSafeInteger(b.timestamp) && IsSafeInteger(b.nonce)
    && forall t | t in b.transactions :: IsSafeInteger(t.timestamp)
  }

  lemma SameTransactions(b: JsBlock)
    ensures var go := GoTransactions(b.transactions);
      && (PlainBlock(b) && SafeBlock(b) ==> (AllJsValid(b.transactions) <==> AllValid(go)))
      && (AllJsValid(b.transactions) && AllValid(go) ==>
            PlainBlock(b) && forall t | t in b.transactions :: IsSafeInteger(t.timestamp))
  {
    hide JsValidTransaction, ValidTransaction, PlainTexts, IsSafeInteger, GoTransaction;
    var go := GoTransactions(b.transactions);
    forall t | t in b.transactions
      ensures GoTransaction(t) in go
      ensures PlainTexts(t) && IsSafeInteger(t.timestamp) ==> JsValidTransaction(t) == ValidTransaction(GoTransaction(t))
      ensures JsValidTransaction(t) && ValidTransaction(GoTransaction(t)) ==> PlainTexts(t) && IsSafeInteger(t.timestamp)
    {
      var i :| 0 <= i < |b.transactions| && b.transactions[i] == t;
      assert go[i] == GoTransaction(t);
      SameTransaction(t);
    }
    forall t | t in go ensures exists u :: u in b.transactions && GoTransaction(u) == t {
      var i :| 0 <= i < |go| && go[i] == t;
      assert b.transactions[i] in b.transactions && GoTransaction(b.transactions[i]) == t;
    }
  }

  /** Both proofs of work are over the same digest. */
  lemma SameWork(sha: ByteHash, b: JsBlock)
    ensures StartsWithZeros(b.hash) && b.hash == Hash(sha, b) <==> ValidWork(GoRules(sha), GoBlock(b))
  {
    HashIsCalculateHash(sha, b);
    HashShape(sha, b);
    assert GoRules(sha).difficulty == DIFFICULTY;
    hide Canonical, CalculateHash, Hash, Utf8, GoTransactions, MeetsTarget, StartsWithZeros, HashedRules;
    Utf8Injective(b.hash, Hash(sha, b));
  }

  /** What Go checks of a link and the browser does not, because the context implies it. */
  predicate Implied(chain: seq<JsBlock>, i: int)
    requires 1 <= i < |chain|
  {
    && i < MAX_CHAIN_BLOCKS && |Utf8(chain[i].prevHash)| == 64
    && GENESIS_TIME <= chain[i].timestamp && DistinctIds(GoTransactions(chain[i].transactions))
  }

  /** The fields a link compares in both languages. */
  predicate Shape(chain: seq<JsBlock>, i: int, now: int)
    requires 1 <= i < |chain|
  {
    var b, prev := chain[i], chain[i - 1];
    && b.version == VERSION && b.difficulty == DIFFICULTY && b.index == i && b.prevHash == prev.hash
    && prev.timestamp <= b.timestamp <= now + CLOCK_SKEW
    && 1 <= |b.transactions| <= MAX_BLOCK_TRANSACTIONS
  }

  lemma JsLinkIs(sha: ByteHash, chain: seq<JsBlock>, i: int, ms: int)
    requires 1 <= i < |chain|
    ensures JsValidLink(sha, chain, i, ms) <==>
      && Shape(chain, i, ms / 1000) && IsSafeInteger(chain[i].timestamp) && IsSafeInteger(chain[i].nonce)
      && AllJsValid(chain[i].transactions)
      && StartsWithZeros(chain[i].hash) && chain[i].hash == Hash(sha, chain[i])
  {
    hide Hash, AllJsValid, StartsWithZeros, IsSafeInteger, InTime;
    SameLimit(chain[i].timestamp, ms);
  }

  lemma GoLinkIs(sha: ByteHash, chain: seq<JsBlock>, i: int, now: int)
    requires 1 <= i < |chain|
    ensures ValidLink(GoRules(sha), GoChain(chain), i, now) <==>
      && Shape(chain, i, now) && Implied(chain, i)
      && AllValid(GoTransactions(chain[i].transactions)) && ValidWork(GoRules(sha), GoBlock(chain[i]))
  {
    hide Utf8, ValidWork, AllValid, DistinctIds, GoRules, GoTransaction;
    GoDifficulty(sha);
    Utf8Injective(chain[i].prevHash, chain[i - 1].hash);
  }

  lemma GoDifficulty(sha: ByteHash)
    ensures GoRules(sha).difficulty == DIFFICULTY
  {
  }

  lemma SameLink(sha: ByteHash, chain: seq<JsBlock>, i: int, ms: int)
    requires 1 <= i < |chain|
    ensures var js, go := JsValidLink(sha, chain, i, ms), ValidLink(GoRules(sha), GoChain(chain), i, ms / 1000);
      && (PlainBlock(chain[i]) && SafeBlock(chain[i]) ==> (go <==> js && Implied(chain, i)))
      && (js && go ==> PlainBlock(chain[i]) && SafeBlock(chain[i]))
  {
    hide Implied, Shape, Hash, ValidWork, PlainBlock, AllJsValid, AllValid, StartsWithZeros, IsSafeInteger, JsValidLink, ValidLink,
      GoChain, GoRules, GoTransactions, GoBlock;
    SameTransactions(chain[i]);
    SameWork(sha, chain[i]);
    JsLinkIs(sha, chain, i, ms);
    GoLinkIs(sha, chain, i, ms / 1000);
  }

  // ---------------------------------------------------------------- the validators agree

  lemma GoUnhashed()
    ensures GoBlock(Unhashed()) == Block(PROTOCOL_VERSION, DIFFICULTY, 0, GENESIS_TIME, [], [], [], 0)
  {
    hide Utf8;
    assert GoTransactions([]) == [];
    EmptyText();
  }

  lemma GoGenesis(sha: ByteHash)
    ensures GoBlock(Genesis(sha)) == CreateGenesisBlock(GoRules(sha))
  {
    hide Hash, CalculateHash, GoRules, Utf8, GoTransactions, Unhashed, Canonical;
    GoDifficulty(sha);
    GoUnhashed();
    HashIsCalculateHash(sha, Unhashed());
    GenesisParts(sha);
  }

  lemma GenesisParts(sha: ByteHash)
    ensures GoBlock(Genesis(sha)) == GoBlock(Unhashed()).(hash := Utf8(Hash(sha, Unhashed())))
  {
    hide Hash, Utf8;
  }

  lemma EmptyText()
    ensures Utf8([]) == []
  {
  }

  lemma SameGenesis(sha: ByteHash, b: JsBlock)
    ensures b == Genesis(sha) <==> GoBlock(b) == CreateGenesisBlock(GoRules(sha))
    ensures Genesis(sha).transactions == [] && Genesis(sha).timestamp == GENESIS_TIME
  {
    hide Hash, GoBlock, CreateGenesisBlock, GoRules;
    GoGenesis(sha);
    GoBlockInjective(b, Genesis(sha));
  }

  lemma GenesisHash(sha: ByteHash)
    ensures |Utf8(Genesis(sha).hash)| == 64
  {
    HashShape(sha, Unhashed());
    hide Hash, Utf8;
  }

  lemma {:induction false} NotBeforeGenesis(sha: ByteHash, chain: seq<JsBlock>, ms: int, i: nat)
    requires JsValidChain(sha, chain, ms) && i < |chain|
    ensures chain[i].timestamp >= GENESIS_TIME
  {
    hide Hash, AllJsValid, StartsWithZeros, InTime, JsMessages;
    if i > 0 {
      NotBeforeGenesis(sha, chain, ms, i - 1);
      assert JsValidLink(sha, chain, i, ms);
    }
  }

  lemma LinkHash(sha: ByteHash, chain: seq<JsBlock>, ms: int, i: nat)
    requires JsValidChain(sha, chain, ms) && 0 < i < |chain|
    ensures |Utf8(chain[i].prevHash)| == 64
  {
    hide Hash, AllJsValid, StartsWithZeros, InTime, JsMessages, Utf8, Genesis;
    assert JsValidLink(sha, chain, i, ms);
    if i == 1 {
      GenesisHash(sha);
    } else {
      assert JsValidLink(sha, chain, i - 1, ms);
      HashShape(sha, chain[i - 1]);
    }
  }

  lemma SameDistinctMessages(sha: ByteHash, chain: seq<JsBlock>)
    requires chain != [] && chain[0] == Genesis(sha)
    ensures JsDistinctIds(JsMessages(chain)) == DistinctIds(Messages(GoChain(chain)))
  {
    SameGenesis(sha, chain[0]);
    hide Genesis, JsMessages, Messages, GoTransactions, DistinctIds, JsDistinctIds;
    SameMessages(chain);
    SameDistinct(JsMessages(chain));
  }

  /** The index cap, the length of the previous hash, the earliest timestamp and the
      distinct IDs within one block need no checks of their own. */
  lemma ContextImplies(sha: ByteHash, chain: seq<JsBlock>, ms: int, i: int)
    requires JsValidChain(sha, chain, ms) && 1 <= i < |chain|
    ensures Implied(chain, i)
  {
    hide Hash, Genesis, JsMessages, JsValidLinks, JsDistinctIds, DistinctIds, Utf8, Messages;
    NotBeforeGenesis(sha, chain, ms, i);
    LinkHash(sha, chain, ms, i);
    SameDistinctMessages(sha, chain);
    BlockDistinct(GoChain(chain), i);
  }

  predicate PlainAt(chain: seq<JsBlock>, i: int)
    requires 0 <= i < |chain|
  {
    PlainBlock(chain[i]) && SafeBlock(chain[i])
  }

  /** In every block after the first, each text is blank for both languages or for neither,
      and each number is one that a browser holds exactly. */
  predicate PlainChain(chain: seq<JsBlock>) {
    forall i | 1 <= i < |chain| :: PlainAt(chain, i)
  }

  lemma JsImpliesGo(sha: ByteHash, chain: seq<JsBlock>, ms: int)
    requires JsValidChain(sha, chain, ms) && PlainChain(chain)
    ensures ValidChain(GoRules(sha), GoChain(chain), ms / 1000)
  {
    hide JsValidLink, ValidLink, PlainBlock, SafeBlock, Genesis, CreateGenesisBlock, JsMessages, Messages, GoRules,
      Implied, DistinctIds, JsDistinctIds, GoBlock;
    GoDifficulty(sha);
    SameGenesis(sha, chain[0]);
    SameDistinctMessages(sha, chain);
    forall i | 1 <= i < |chain| ensures ValidLink(GoRules(sha), GoChain(chain), i, ms / 1000) {
      assert PlainAt(chain, i) && JsValidLink(sha, chain, i, ms);
      ContextImplies(sha, chain, ms, i);
      SameLink(sha, chain, i, ms);
    }
  }

  lemma GoImpliesJs(sha: ByteHash, chain: seq<JsBlock>, ms: int)
    requires ValidChain(GoRules(sha), GoChain(chain), ms / 1000) && PlainChain(chain)
    ensures JsValidChain(sha, chain, ms)
  {
    hide JsValidLink, ValidLink, PlainBlock, SafeBlock, Genesis, CreateGenesisBlock, JsMessages, Messages, GoRules,
      DistinctIds, JsDistinctIds, GoBlock, Implied;
    SameGenesis(sha, chain[0]);
    assert GoChain(chain)[0] == GoBlock(chain[0]);
    SameDistinctMessages(sha, chain);
    forall i | 1 <= i < |chain| ensures JsValidLink(sha, chain, i, ms) {
      assert PlainAt(chain, i) && ValidLink(GoRules(sha), GoChain(chain), i, ms / 1000);
      SameLink(sha, chain, i, ms);
    }
  }

  lemma BothImplyPlain(sha: ByteHash, chain: seq<JsBlock>, ms: int)
    requires JsValidChain(sha, chain, ms) && ValidChain(GoRules(sha), GoChain(chain), ms / 1000)
    ensures PlainChain(chain)
  {
    hide JsValidLink, ValidLink, PlainBlock, SafeBlock, Genesis, CreateGenesisBlock, JsMessages, Messages, GoRules,
      GoBlock, Implied;
    forall i | 1 <= i < |chain| ensures PlainAt(chain, i) {
      assert JsValidLink(sha, chain, i, ms) && ValidLink(GoRules(sha), GoChain(chain), i, ms / 1000);
      SameLink(sha, chain, i, ms);
    }
  }

  /** The browser and the Go nodes accept the same chains at difficulty 2, with fewer checks
      on the one side, but for one thing: a chain that one of them accepts is accepted by
      the other exactly if no text in it is white space in one language only and no number
      in it is beyond those a browser holds exactly. */
  lemma ValidatorsAgree(sha: ByteHash, chain: seq<JsBlock>, ms: int)
    ensures PlainChain(chain) ==> (JsValidChain(sha, chain, ms) <==> ValidChain(GoRules(sha), GoChain(chain), ms / 1000))
    ensures JsValidChain(sha, chain, ms) || ValidChain(GoRules(sha), GoChain(chain), ms / 1000) ==>
      (JsValidChain(sha, chain, ms) == ValidChain(GoRules(sha), GoChain(chain), ms / 1000) <==> PlainChain(chain))
  {
    hide JsValidChain, ValidChain, PlainChain, GoRules, GoChain;
    if PlainChain(chain) {
      if JsValidChain(sha, chain, ms) {
        JsImpliesGo(sha, chain, ms);
      }
      if ValidChain(GoRules(sha), GoChain(chain), ms / 1000) {
        GoImpliesJs(sha, chain, ms);
      }
    }
    if JsValidChain(sha, chain, ms) && ValidChain(GoRules(sha), GoChain(chain), ms / 1000) {
      BothImplyPlain(sha, chain, ms);
    }
  }

  /** The difference is real: each side accepts a message that the other refuses. */
  lemma ValidatorsDiffer()
    ensures var nextLine := JsTransaction([0x85], [0x61], 1);
      JsValidTransaction(nextLine) && !ValidTransaction(GoTransaction(nextLine))
    ensures var mark := JsTransaction([0xFEFF], [0x61], 1);
      !JsValidTransaction(mark) && ValidTransaction(GoTransaction(mark))
  {
    OddTextsExist();
    BlankMeans([0x61]);
    assert 0x61 in [0x61];
    DecodeEncode([0xFEFF]);
    DecodeEncode([0x61]);
    assert Utf8([0x85]) == EncodeScalar(0x85) + Utf8([]) && Utf8([0x61]) == EncodeScalar(0x61) + Utf8([]);
    assert Utf8([0xFEFF]) == EncodeScalar(0xFEFF) + Utf8([]);
  }

  /** A digest of nothing but zeros, so that every block meets every target. */
  function ZeroDigest(): (sha: ByteHash)
    ensures forall z: Text :: sha(z) == ZeroBytes()
  {
    var f: Text -> Text := (z: Text) => ZeroBytes();
    assert forall z: Text :: f(z) == ZeroBytes();
    f
  }

  function ZeroBytes(): (t: Text)
    ensures IsDigest(t) && forall i | 0 <= i < |t| :: t[i] == 48
  {
    seq(64, i => 48)
  }

  function Zeros(): JsText {
    FromAscii(ZeroBytes())
  }

  /** A chain of one block with one message, at the time of the genesis block. */
  function OneMessage(t: JsTransaction): seq<JsBlock> {
    [Genesis(ZeroDigest()), JsBlock(VERSION, DIFFICULTY, 1, GENESIS_TIME, [t], Zeros(), Zeros(), 0)]
  }

  lemma ZeroHash(b: JsBlock)
    ensures Hash(ZeroDigest(), b) == Zeros() && StartsWithZeros(Zeros())
  {
    hide Canonical, Utf8;
    assert HexOf(ZeroDigest(), Utf8(Canonical(b))) == ZeroBytes();
  }

  lemma OneMessageIds(t: JsTransaction)
    ensures JsMessages(OneMessage(t)) == [t] && JsDistinctIds([t])
  {
    hide Genesis;
    var chain := OneMessage(t);
    assert JsMessages(chain[..1]) == [] && chain[..|chain| - 1] == chain[..1];
  }

  lemma OneMessageParts(t: JsTransaction)
    ensures var chain := OneMessage(t);
      && |chain| == 2 && chain[0] == Genesis(ZeroDigest())
      && chain[1].transactions == [t] && chain[1].hash == Zeros() == Hash(ZeroDigest(), chain[1])
      && chain[1].timestamp == GENESIS_TIME && chain[1].nonce == 0
      && Genesis(ZeroDigest()).hash == Zeros() && Genesis(ZeroDigest()).timestamp == GENESIS_TIME
  {
    ZeroHash(Unhashed());
    ZeroHash(OneMessage(t)[1]);
    hide Hash, Zeros;
  }

  lemma OneMessageShape(t: JsTransaction)
    ensures Shape(OneMessage(t), 1, GENESIS_TIME) && Implied(OneMessage(t), 1)
  {
    OneMessageParts(t);
    Utf8OfAscii(ZeroBytes());
    hide Hash, Utf8, Genesis;
    assert DistinctIds(GoTransactions([t]));
  }

  lemma OneValid(t: JsTransaction)
    ensures AllJsValid([t]) <==> JsValidTransaction(t)
    ensures AllValid(GoTransactions([t])) <==> ValidTransaction(GoTransaction(t))
  {
    hide JsValidTransaction, ValidTransaction, GoTransaction;
    assert t in [t] && GoTransactions([t]) == [GoTransaction(t)];
  }

  lemma OneLink(t: JsTransaction)
    ensures JsValidLink(ZeroDigest(), OneMessage(t), 1, GENESIS_TIME * 1000) <==> JsValidTransaction(t)
    ensures ValidLink(GoRules(ZeroDigest()), GoChain(OneMessage(t)), 1, GENESIS_TIME) <==> ValidTransaction(GoTransaction(t))
  {
    OneValid(t);
    ZeroHash(Unhashed());
    hide OneMessage, Hash, JsValidTransaction, ValidTransaction, AllJsValid, AllValid, GoTransactions, GoTransaction, Zeros,
      StartsWithZeros, ValidWork, Shape, Implied, JsValidLink, ValidLink, GoRules, GoBlock, GoChain, Genesis;
    var chain := OneMessage(t);
    OneMessageParts(t);
    OneMessageShape(t);
    SameWork(ZeroDigest(), chain[1]);
    JsLinkIs(ZeroDigest(), chain, 1, GENESIS_TIME * 1000);
    GoLinkIs(ZeroDigest(), chain, 1, GENESIS_TIME);
  }

  /** What is wrong with the chain, if anything, is wrong with its message. */
  lemma JsOneMessage(t: JsTransaction)
    ensures JsValidChain(ZeroDigest(), OneMessage(t), GENESIS_TIME * 1000) <==> JsValidTransaction(t)
  {
    hide OneMessage, JsValidTransaction, JsMessages, JsDistinctIds, JsValidLink, Genesis, Hash;
    OneMessageParts(t);
    OneMessageIds(t);
    OneLink(t);
  }

  lemma GoOneMessage(t: JsTransaction)
    ensures ValidChain(GoRules(ZeroDigest()), GoChain(OneMessage(t)), GENESIS_TIME) <==> ValidTransaction(GoTransaction(t))
  {
    var chain := OneMessage(t);
    hide OneMessage, ValidTransaction, JsMessages, JsDistinctIds, DistinctIds, Messages, ValidLink, Genesis, CreateGenesisBlock,
      GoRules, GoBlock, GoTransaction, Hash;
    OneMessageParts(t);
    OneMessageIds(t);
    GoDifficulty(ZeroDigest());
    SameGenesis(ZeroDigest(), chain[0]);
    SameDistinctMessages(ZeroDigest(), chain);
    OneLink(t);
    assert GoChain(chain)[0] == GoBlock(chain[0]) && |GoChain(chain)| == 2;
  }

  ghost predicate BrowserOnly(sha: ByteHash, chain: seq<JsBlock>, ms: int) {
    JsValidChain(sha, chain, ms) && !ValidChain(GoRules(sha), GoChain(chain), ms / 1000)
  }

  ghost predicate GoOnly(sha: ByteHash, chain: seq<JsBlock>, ms: int) {
    !JsValidChain(sha, chain, ms) && ValidChain(GoRules(sha), GoChain(chain), ms / 1000)
  }

  predicate AllPlain(chain: seq<JsBlock>) {
    forall b | b in chain :: PlainBlock(b)
  }

  predicate AllSafe(chain: seq<JsBlock>) {
    forall b | b in chain :: SafeBlock(b)
  }

  /** There are whole chains on which the validators differ, for each cause alone: one that
      only the browser accepts, and two that only Go accepts, with nothing but safe
      integers in the one and nothing but plain texts in the other. */
  lemma ChainsDiffer()
    ensures exists sha, chain, ms :: BrowserOnly(sha, chain, ms) && AllSafe(chain)
    ensures exists sha, chain, ms :: GoOnly(sha, chain, ms) && AllSafe(chain)
    ensures exists sha, chain, ms :: GoOnly(sha, chain, ms) && AllPlain(chain)
  {
    ValidatorsDiffer();
    var nextLine, mark := JsTransaction([0x85], [0x61], 1), JsTransaction([0xFEFF], [0x61], 1);
    var late := JsTransaction([0x61], [0x61], MAX_SAFE_INTEGER + 1);
    GoAcceptsLate(late);
    hide OneMessage, GoRules, GoChain, JsValidChain, ValidChain, JsValidTransaction, ValidTransaction, GoTransaction, AllSafe,
      AllPlain;
    OneSided(nextLine);
    OneSided(mark);
    OneSided(late);
  }

  lemma OneSided(t: JsTransaction)
    ensures JsValidTransaction(t) && !ValidTransaction(GoTransaction(t)) ==>
      BrowserOnly(ZeroDigest(), OneMessage(t), GENESIS_TIME * 1000)
    ensures !JsValidTransaction(t) && ValidTransaction(GoTransaction(t)) ==>
      GoOnly(ZeroDigest(), OneMessage(t), GENESIS_TIME * 1000)
    ensures IsSafeInteger(t.timestamp) ==> AllSafe(OneMessage(t))
    ensures PlainTexts(t) ==> AllPlain(OneMessage(t))
  {
    JsOneMessage(t);
    GoOneMessage(t);
    hide GoRules, GoChain, JsValidChain, ValidChain, JsValidTransaction, ValidTransaction, GoTransaction, PlainTexts, Hash, Zeros;
  }

  lemma GoAcceptsLate(late: JsTransaction)
    requires late == JsTransaction([0x61], [0x61], MAX_SAFE_INTEGER + 1)
    ensures !JsValidTransaction(late) && ValidTransaction(GoTransaction(late)) && PlainTexts(late)
  {
    BlankMeans([0x61]);
    assert 0x61 in [0x61];
    DecodeEncode([0x61]);
    assert Utf8([0x61]) == EncodeScalar(0x61) + Utf8([]);
  }

  // ---------------------------------------------------------------- the validation loop

  lemma JsMessagesSnoc(chain: seq<JsBlock>, i: nat)
    requires 1 <= i < |chain|
    ensures JsMessages(chain[..i + 1]) == JsMessages(chain[..i]) + chain[i].transactions
  {
    assert chain[..i + 1][..i] == chain[..i];
  }

  lemma {:induction false} JsMessagesPrefix(chain: seq<JsBlock>, i: nat)
    requires 1 <= i <= |chain|
    ensures JsMessages(chain[..i]) <= JsMessages(chain)
    decreases |chain| - i
  {
    hide JsMessages;
    if i == |chain| {
      assert chain[..i] == chain;
    } else {
      JsMessagesPrefix(chain, i + 1);
      JsMessagesSnoc(chain, i);
    }
  }

  /** An ID met again at message `k` of block `i` repeats in the whole chain. */
  lemma JsRepeat(chain: seq<JsBlock>, i: nat, k: nat)
    requires 1 <= i < |chain| && k < |chain[i].transactions|
    requires chain[i].transactions[k].id in JsIds(JsMessages(chain[..i]) + chain[i].transactions[..k])
    ensures !JsDistinctIds(JsMessages(chain))
  {
    hide JsMessages;
    JsMessagesSnoc(chain, i);
    JsMessagesPrefix(chain, i + 1);
    var txs, all := chain[i].transactions, JsMessages(chain);
    var before := JsMessages(chain[..i]) + txs[..k];
    assert JsMessages(chain[..i]) + txs == before + txs[k..];
    var j :| 0 <= j < |before| && before[j].id == txs[k].id;
    assert all[j] == before[j] && all[|before|] == txs[k];
  }

  lemma JsLinksSnoc(sha: ByteHash, chain: seq<JsBlock>, i: nat, ms: int)
    requires 1 <= i < |chain|
    ensures JsValidLinks(sha, chain[..i + 1], ms) <==> JsValidLinks(sha, chain[..i], ms) && JsValidLink(sha, chain, i, ms)
  {
    hide Hash, AllJsValid, StartsWithZeros, InTime;
    var longer, shorter := chain[..i + 1], chain[..i];
    assert JsValidLink(sha, longer, i, ms) == JsValidLink(sha, chain, i, ms);
    forall j | 1 <= j < i ensures JsValidLink(sha, longer, j, ms) == JsValidLink(sha, shorter, j, ms) {
      assert longer[j] == shorter[j] && longer[j - 1] == shorter[j - 1];
    }
  }

  /** One pass over all messages of block `i`, adding to the IDs seen so far. */
  method SeeBlock(chain: seq<JsBlock>, i: nat, before: set<JsText>) returns (seen: set<JsText>, ok: bool)
    requires 1 <= i < |chain|
    requires before == JsIds(JsMessages(chain[..i])) && JsDistinctIds(JsMessages(chain[..i]))
    ensures ok ==>
      && AllJsValid(chain[i].transactions)
      && seen == JsIds(JsMessages(chain[..i + 1])) && JsDistinctIds(JsMessages(chain[..i + 1]))
    ensures !ok ==> !AllJsValid(chain[i].transactions) || !JsDistinctIds(JsMessages(chain))
  {
    hide JsMessages, JsValidTransaction;
    seen := before;
    var txs := chain[i].transactions;
    ghost var earlier := JsMessages(chain[..i]);
    assert earlier + txs[..0] == earlier;
    for k := 0 to |txs|
      invariant AllJsValid(txs[..k])
      invariant seen == JsIds(earlier + txs[..k]) && JsDistinctIds(earlier + txs[..k])
    {
      assert earlier + txs[..k + 1] == (earlier + txs[..k]) + [txs[k]];
      if !JsValidTransaction(txs[k]) {
        return seen, false;
      }
      if txs[k].id in seen {
        JsRepeat(chain, i, k);
        return seen, false;
      }
      assert txs[..k + 1] == txs[..k] + [txs[k]];
      seen := seen + {txs[k].id};
    }
    assert txs[..|txs|] == txs;
    JsMessagesSnoc(chain, i);
    ok := true;
  }

  /** The browser's `validChain`. */
  method ValidateJsChain(sha: ByteHash, chain: seq<JsBlock>, ms: int) returns (ok: bool)
    ensures ok == JsValidChain(sha, chain, ms)
  {
    hide Hash, Genesis, JsMessages, AllJsValid, StartsWithZeros, InTime, JsDistinctIds;
    if |chain| == 0 || |chain| > 10000 {
      return false;
    }
    if chain[0] != Genesis(sha) {
      return false;
    }
    var seen: set<JsText> := {};
    NothingSeen(chain);
    for i := 1 to |chain|
      invariant seen == JsIds(JsMessages(chain[..i])) && JsDistinctIds(JsMessages(chain[..i]))
      invariant JsValidLinks(sha, chain[..i], ms)
    {
      var block, previous := chain[i], chain[i - 1];
      JsLinksSnoc(sha, chain, i, ms);
      if block.version != VERSION || block.difficulty != DIFFICULTY || block.index != i
        || block.prevHash != previous.hash || !IsSafeInteger(block.timestamp)
        || block.timestamp < previous.timestamp || !InTime(block.timestamp, ms)
        || !IsSafeInteger(block.nonce) || block.nonce < 0
        || |block.transactions| == 0 || |block.transactions| > 100
      {
        assert !JsValidLink(sha, chain, i, ms);
        return false;
      }
      seen, ok := SeeBlock(chain, i, seen);
      if !ok {
        BadBlock(sha, chain, i, ms);
        return false;
      }
      if !StartsWithZeros(block.hash) || block.hash != Hash(sha, block) {
        assert !JsValidLink(sha, chain, i, ms);
        return false;
      }
    }
    assert chain[..|chain|] == chain;
    ok := true;
  }

  lemma BadBlock(sha: ByteHash, chain: seq<JsBlock>, i: nat, ms: int)
    requires 1 <= i < |chain|
    requires !AllJsValid(chain[i].transactions) || !JsDistinctIds(JsMessages(chain))
    ensures !JsValidChain(sha, chain, ms)
  {
    hide Hash, Genesis, JsMessages, AllJsValid, StartsWithZeros, InTime, JsDistinctIds;
    if JsValidLinks(sha, chain, ms) {
      assert JsValidLink(sha, chain, i, ms);
    }
  }

  lemma NothingSeen(chain: seq<JsBlock>)
    requires chain != []
    ensures JsMessages(chain[..1]) == [] && JsIds([]) == {} && JsDistinctIds([])
  {
  }

  // ---------------------------------------------------------------- forks

  lemma TipIsHex(sha: ByteHash, chain: seq<JsBlock>, ms: int)
    requires JsValidChain(sha, chain, ms)
    ensures chain != []
    ensures var x := Utf8(JsLast(chain).hash);
      (forall i | 0 <= i < |x| :: x[i] < 0x80) && JsLast(chain).hash == FromAscii(x)
  {
    var n := |chain| - 1;
    if n > 0 {
      assert JsValidLink(sha, chain, n, ms);
    }
    var b := if n > 0 then chain[n] else Unhashed();
    assert JsLast(chain).hash == Hash(sha, b);
    hide JsValidChain, Canonical, Utf8;
    Utf8OfAscii(HexOf(sha, Utf8(Canonical(b))));
  }

  lemma GoTip(chain: seq<JsBlock>)
    requires chain != []
    ensures |GoChain(chain)| == |chain| && Last(GoChain(chain)).hash == Utf8(JsLast(chain).hash)
  {
    hide Utf8, GoTransactions;
  }

  /** Of chains that the browser accepts it prefers the one Go prefers. */
  lemma SamePreference(sha: ByteHash, a: seq<JsBlock>, b: seq<JsBlock>, ms: int)
    requires JsValidChain(sha, a, ms) && JsValidChain(sha, b, ms)
    ensures Better(a, b) <==> BetterChain(GoChain(a), GoChain(b))
  {
    hide JsValidChain, JsLess, Less, Utf8, FromAscii, GoChain, JsLast, Last;
    TipIsHex(sha, a, ms);
    TipIsHex(sha, b, ms);
    GoTip(a);
    GoTip(b);
    var x, y := Utf8(JsLast(a).hash), Utf8(JsLast(b).hash);
    AsciiOrdersAlike(x, y);
  }

  // ---------------------------------------------------------------- reconciliation

  function IdsOf(ts: seq<JsTransaction>): seq<JsText> {
    seq(|ts|, i requires 0 <= i < |ts| => ts[i].id)
  }

  /** `chain.flatMap(block => block.transactions.map(tx => tx.id))` */
  function FlatIds(chain: seq<JsBlock>): seq<JsText> {
    if chain == [] then [] else IdsOf(chain[0].transactions) + FlatIds(chain[1..])
  }

  /** The elements of a new Set, in order of first insertion. */
  function Unique(s: seq<JsText>): seq<JsText> {
    if s == [] then []
    else
      var before := Unique(s[..|s| - 1]);
      if s[|s| - 1] in before then before else before + [s[|s| - 1]]
  }

  function Without(s: seq<JsText>, gone: set<JsText>): seq<JsText> {
    if s == [] then [] else (if s[0] in gone then [] else [s[0]]) + Without(s[1..], gone)
  }

  function InsertId(id: JsText, ids: seq<JsText>): seq<JsText> {
    if ids == [] then [id]
    else if JsLess(ids[0], id) then [ids[0]] + InsertId(id, ids[1..])
    else [id] + ids
  }

  /** `sort()` on strings. */
  function SortIds(ids: seq<JsText>): seq<JsText> {
    if ids == [] then [] else InsertId(ids[0], SortIds(ids[1..]))
  }

  predicate AscendingIds(ids: seq<JsText>) {
    forall i, j | 0 <= i < j < |ids| :: JsLess(ids[i], ids[j])
  }

  /** The pending IDs after a change of chain. */
  function Reconcile(oldChain: seq<JsBlock>, newChain: seq<JsBlock>, pending: seq<JsText>): seq<JsText> {
    SortIds(Without(Unique(pending + FlatIds(oldChain)), set id | id in FlatIds(newChain)))
  }

  lemma {:induction false} InsertSorted(id: JsText, ids: seq<JsText>)
    requires AscendingIds(ids) && id !in ids
    ensures AscendingIds(InsertId(id, ids)) && |InsertId(id, ids)| == |ids| + 1
    ensures forall x :: x in InsertId(id, ids) <==> x == id || x in ids
  {
    hide JsLess;
    if ids != [] {
      var rest := ids[1..];
      assert ids == [ids[0]] + rest;
      JsLessOrder(ids[0], id, id);
      if JsLess(ids[0], id) {
        InsertSorted(id, rest);
        HeadFirst(ids[0], InsertId(id, rest));
      } else {
        forall x | x in ids ensures JsLess(id, x) {
          JsLessOrder(id, ids[0], x);
        }
        HeadFirst(id, ids);
      }
    }
  }

  lemma HeadFirst(head: JsText, ids: seq<JsText>)
    requires AscendingIds(ids) && forall x | x in ids :: JsLess(head, x)
    ensures AscendingIds([head] + ids)
  {
    hide JsLess;
    var all := [head] + ids;
    forall i, j | 0 <= i < j < |all| ensures JsLess(all[i], all[j]) {
      assert all[j] == ids[j - 1] && ids[j - 1] in ids;
    }
  }

  lemma {:induction false} SortedIds(ids: seq<JsText>)
    requires forall i, j | 0 <= i < j < |ids| :: ids[i] != ids[j]
    ensures AscendingIds(SortIds(ids)) && |SortIds(ids)| == |ids|
    ensures forall x :: x in SortIds(ids) <==> x in ids
  {
    if ids != [] {
      SortedIds(ids[1..]);
      assert ids == [ids[0]] + ids[1..];
      InsertSorted(ids[0], SortIds(ids[1..]));
    }
  }

  lemma {:induction false} UniqueSame(s: seq<JsText>)
    ensures forall x :: x in Unique(s) <==> x in s
    ensures forall i, j | 0 <= i < j < |Unique(s)| :: Unique(s)[i] != Unique(s)[j]
  {
    if s != [] {
      UniqueSame(s[..|s| - 1]);
      assert s == s[..|s| - 1] + [s[|s| - 1]];
    }
  }

  lemma {:induction false} WithoutKeeps(s: seq<JsText>, gone: set<JsText>)
    ensures forall x :: x in Without(s, gone) <==> x in s && x !in gone
  {
    if s != [] {
      WithoutKeeps(s[1..], gone);
      assert s == [s[0]] + s[1..];
    }
  }

  function Utf8Ids(ids: seq<JsText>): set<Text> {
    set id | id in ids :: Utf8(id)
  }

  lemma {:induction false} FlatIdsAre(chain: seq<JsBlock>)
    ensures Utf8Ids(FlatIds(chain)) == ChainIds(GoChain(chain))
  {
    hide Utf8;
    if chain == [] {
      assert Messages([]) == [] && Utf8Ids([]) == {};
    } else {
      FlatIdsAre(chain[1..]);
      assert GoChain(chain) == [GoBlock(chain[0])] + GoChain(chain[1..]);
      ChainIdsCons(GoBlock(chain[0]), GoChain(chain[1..]));
      BlockIds(chain[0].transactions);
      hide ChainIds, TxIds;
      assert Utf8Ids(FlatIds(chain)) == Utf8Ids(IdsOf(chain[0].transactions)) + Utf8Ids(FlatIds(chain[1..]));
    }
  }

  lemma BlockIds(ts: seq<JsTransaction>)
    ensures Utf8Ids(IdsOf(ts)) == TxIds(GoTransactions(ts))
  {
    hide Utf8;
    var ids, go := IdsOf(ts), GoTransactions(ts);
    forall i | 0 <= i < |ts| ensures go[i].id == Utf8(ids[i]) && ids[i] in ids && go[i] in go {
    }
  }

  lemma {:induction false} ChainIdsCons(b: Block, chain: seq<Block>)
    ensures ChainIds([b] + chain) == TxIds(b.transactions) + ChainIds(chain)
    decreases |chain|
  {
    hide TxIds;
    var n := |chain| - 1;
    if chain == [] {
      assert [b] + chain == [] + [b];
      MessagesSnoc([], b);
      NoChainIds();
    } else {
      ChainIdsCons(b, chain[..n]);
      assert [b] + chain == ([b] + chain[..n]) + [chain[n]];
      assert chain == chain[..n] + [chain[n]];
      MessagesSnoc([b] + chain[..n], chain[n]);
      MessagesSnoc(chain[..n], chain[n]);
    }
  }

  lemma NoChainIds()
    ensures ChainIds([]) == {}
  {
  }

  lemma Utf8In(id: JsText, ids: seq<JsText>)
    ensures id in ids <==> Utf8(id) in Utf8Ids(ids)
  {
    hide Utf8;
    if Utf8(id) in Utf8Ids(ids) {
      var other :| other in ids && Utf8(other) == Utf8(id);
      Utf8Injective(other, id);
    }
  }

  lemma {:induction false} IdCount(ids: seq<JsText>)
    requires forall i, j | 0 <= i < j < |ids| :: ids[i] != ids[j]
    ensures |Utf8Ids(ids)| == |ids|
  {
    hide Utf8;
    if ids == [] {
      assert Utf8Ids(ids) == {};
    } else {
      var n := |ids| - 1;
      IdCount(ids[..n]);
      assert ids == ids[..n] + [ids[n]];
      assert Utf8Ids(ids) == Utf8Ids(ids[..n]) + {Utf8(ids[n])};
      Utf8In(ids[n], ids[..n]);
    }
  }

  lemma {:induction false} WithoutDistinct(s: seq<JsText>, gone: set<JsText>)
    requires forall i, j | 0 <= i < j < |s| :: s[i] != s[j]
    ensures forall i, j | 0 <= i < j < |Without(s, gone)| :: Without(s, gone)[i] != Without(s, gone)[j]
  {
    if s != [] {
      WithoutDistinct(s[1..], gone);
      WithoutKeeps(s[1..], gone);
      assert s[0] !in s[1..];
    }
  }

  lemma ReconcileFacts(oldChain: seq<JsBlock>, newChain: seq<JsBlock>, pending: seq<JsText>)
    ensures var ids := Reconcile(oldChain, newChain, pending);
      && AscendingIds(ids)
      && Utf8Ids(ids) == Utf8Ids(pending) + Utf8Ids(FlatIds(oldChain)) - Utf8Ids(FlatIds(newChain))
  {
    hide FlatIds, Utf8Ids, Unique, Without, SortIds, AscendingIds;
    var was, now := pending + FlatIds(oldChain), FlatIds(newChain);
    var gone := set id | id in now;
    UniqueSame(was);
    WithoutDistinct(Unique(was), gone);
    WithoutKeeps(Unique(was), gone);
    SortedIds(Without(Unique(was), gone));
    var ids := Reconcile(oldChain, newChain, pending);
    assert forall x :: x in ids <==> (x in pending || x in FlatIds(oldChain)) && x !in now;
    IdSets(ids, pending, FlatIds(oldChain), now);
  }

  lemma IdSets(ids: seq<JsText>, a: seq<JsText>, b: seq<JsText>, gone: seq<JsText>)
    requires forall x :: x in ids <==> (x in a || x in b) && x !in gone
    ensures Utf8Ids(ids) == Utf8Ids(a) + Utf8Ids(b) - Utf8Ids(gone)
  {
    hide Utf8;
    forall x: JsText ensures x in gone <==> Utf8(x) in Utf8Ids(gone) {
      Utf8In(x, gone);
    }
  }

  lemma AscendingDiffer(ids: seq<JsText>)
    requires AscendingIds(ids)
    ensures forall i, j | 0 <= i < j < |ids| :: ids[i] != ids[j]
  {
    hide JsLess;
    forall i, j | 0 <= i < j < |ids| ensures ids[i] != ids[j] {
      JsLessOrder(ids[i], ids[i], ids[i]);
    }
  }

  /** After a change of chain the browser has exactly the pending IDs that a Go node has
      when its reconciliation is accepted, each once and in strictly ascending order. */
  lemma SameReconciliation(oldChain: seq<JsBlock>, newChain: seq<JsBlock>, pending: seq<JsText>, pool: Pool)
    requires Keyed(pool) && pool.Keys == Utf8Ids(pending)
    ensures var ids, next := Reconcile(oldChain, newChain, pending), ReorgPool(pool, GoChain(oldChain), GoChain(newChain));
      Utf8Ids(ids) == next.Keys && |ids| == |next| && AscendingIds(ids)
  {
    hide Utf8, FlatIds, Utf8Ids, ChainIds, GoChain, ReorgPool, Reconcile, AscendingIds;
    ReconcileFacts(oldChain, newChain, pending);
    FlatIdsAre(oldChain);
    FlatIdsAre(newChain);
    ReorgKeys(pool, GoChain(oldChain), GoChain(newChain));
    AscendingDiffer(Reconcile(oldChain, newChain, pending));
    IdCount(Reconcile(oldChain, newChain, pending));
    var next := ReorgPool(pool, GoChain(oldChain), GoChain(newChain));
    assert |next| == |next.Keys|;
  }

  lemma KeyedWithout(pool: Pool, gone: set<Text>)
    requires Keyed(pool)
    ensures Keyed(pool - gone) && (pool - gone).Keys == pool.Keys - gone
  {
  }

  lemma ReorgKeys(pool: Pool, current: seq<Block>, next: seq<Block>)
    requires Keyed(pool)
    ensures ReorgPool(pool, current, next).Keys == pool.Keys + ChainIds(current) - ChainIds(next)
  {
    hide Overlay, TxIds, Messages;
    var confirmed := ChainIds(next);
    KeyedWithout(pool, confirmed);
    OverlayFacts(pool - confirmed, Messages(current), confirmed);
  }
}
