/** The rules every node shares: which messages, blocks and chains are valid, and which
    of two chains is preferred. */
module Models {
  import opened GoText
  import opened Entities
  import opened HeaderEncoding

  const PROTOCOL_VERSION := 1
  const MAX_DIFFICULTY := 4
  const MAX_BLOCK_TRANSACTIONS := 100
  const MAX_CHAIN_BLOCKS := 10000
  const MAX_TRANSACTION_ID_BYTES := 128
  const MAX_TRANSACTION_DATA_BYTES := 4096
  /** 2026-01-01 00:00 UTC, and how far a block may be ahead of the clock. */
  const GENESIS_TIME := 1767225600
  const CLOCK_SKEW := 120

  // ---------------------------------------------------------------- what is valid

  predicate ValidTransaction(tx: Transaction) {
    && !Blank(tx.id) && |tx.id| <= MAX_TRANSACTION_ID_BYTES && ValidUtf8(tx.id)
    && !Blank(tx.data) && |tx.data| <= MAX_TRANSACTION_DATA_BYTES && ValidUtf8(tx.data)
    && tx.timestamp > 0
  }

  predicate CheckDifficulty(d: int) {
    1 <= d <= MAX_DIFFICULTY
  }

  function TxIds(txs: seq<Transaction>): set<Text> {
    set t | t in txs :: t.id
  }

  predicate DistinctIds(txs: seq<Transaction>) {
    forall i, j | 0 <= i < j < |txs| :: txs[i].id != txs[j].id
  }

  predicate AllValid(txs: seq<Transaction>) {
    forall t | t in txs :: ValidTransaction(t)
  }

  function CreateGenesisBlock(p: Rules): (b: Block)
    ensures b.hash == CalculateHash(p, b)
  {
    var empty := Block(PROTOCOL_VERSION, p.difficulty, 0, GENESIS_TIME, [], [], [], 0);
    empty.(hash := CalculateHash(p, empty))
  }

  /** `hash` starts with `d` zero digits. */
  predicate MeetsTarget(hash: Text, d: int) {
    d <= |hash| && forall i | 0 <= i < d :: hash[i] == 48
  }

  /** `d` zero digits are exactly what a hash must begin with. */
  lemma TargetMeans(hash: Text, d: nat)
    ensures MeetsTarget(hash, d) <==> seq(d, (i: nat) => 48) <= hash
  {
    var zeros := seq(d, (i: nat) => 48);
    if MeetsTarget(hash, d) {
      assert forall i | 0 <= i < d :: zeros[i] == hash[i];
    }
    if zeros <= hash {
      assert forall i | 0 <= i < d :: hash[i] == zeros[i];
    }
  }

  predicate ValidTransactions(txs: seq<Transaction>) {
    1 <= |txs| <= MAX_BLOCK_TRANSACTIONS && AllValid(txs) && DistinctIds(txs)
  }

  predicate ValidWork(p: Rules, b: Block) {
    |b.hash| == 64 && b.hash == CalculateHash(p, b) && MeetsTarget(b.hash, p.difficulty)
  }

  /** A block that is right on its own, at clock `now`. */
  predicate ValidBlock(p: Rules, b: Block, now: int) {
    && CheckDifficulty(p.difficulty)
    && b.version == PROTOCOL_VERSION && b.difficulty == p.difficulty
    && 1 <= b.index < MAX_CHAIN_BLOCKS && |b.prevHash| == 64
    && GENESIS_TIME <= b.timestamp <= now + CLOCK_SKEW
    && ValidTransactions(b.transactions)
    && ValidWork(p, b)
  }

  /** All messages of a chain, in order. */
  function Messages(chain: seq<Block>): seq<Transaction> {
    if chain == [] then [] else Messages(chain[..|chain| - 1]) + chain[|chain| - 1].transactions
  }

  function ChainIds(chain: seq<Block>): set<Text> {
    TxIds(Messages(chain))
  }

  predicate Follows(b: Block, prev: Block, i: int) {
    b.index == i && b.prevHash == prev.hash && b.timestamp >= prev.timestamp
  }

  predicate ValidLink(p: Rules, chain: seq<Block>, i: int, now: int)
    requires 1 <= i < |chain|
  {
    ValidBlock(p, chain[i], now) && Follows(chain[i], chain[i - 1], i)
  }

  predicate ValidLinks(p: Rules, chain: seq<Block>, now: int) {
    forall i | 1 <= i < |chain| :: ValidLink(p, chain, i, now)
  }

  /** A chain that every node with these rules accepts at clock `now`. No ID occurs
      twice anywhere in it. */
  predicate ValidChain(p: Rules, chain: seq<Block>, now: int) {
    && CheckDifficulty(p.difficulty)
    && 1 <= |chain| <= MAX_CHAIN_BLOCKS
    && chain[0] == CreateGenesisBlock(p)
    && ValidLinks(p, chain, now)
    && DistinctIds(Messages(chain))
  }

  function Last(chain: seq<Block>): Block
    requires chain != []
  {
    chain[|chain| - 1]
  }

  /** Fork choice: the longer chain, and of two equally long the smaller tip hash. */
  predicate BetterChain(candidate: seq<Block>, current: seq<Block>) {
    if |candidate| != |current| then |candidate| > |current|
    else |candidate| > 0 && Less(Last(candidate).hash, Last(current).hash)
  }

  // ---------------------------------------------------------------- messages of chains

  lemma TxIdsConcat(a: seq<Transaction>, b: seq<Transaction>)
    ensures TxIds(a + b) == TxIds(a) + TxIds(b)
  {
  }

  lemma TxIdsSnoc(txs: seq<Transaction>, k: nat)
    requires k < |txs|
    ensures TxIds(txs[..k + 1]) == TxIds(txs[..k]) + {txs[k].id}
  {
    assert txs[..k + 1] == txs[..k] + [txs[k]];
    TxIdsConcat(txs[..k], [txs[k]]);
  }

  lemma NoIds(txs: seq<Transaction>)
    ensures TxIds(txs[..0]) == {}
  {
  }

  lemma DistinctConcat(a: seq<Transaction>, b: seq<Transaction>)
    ensures DistinctIds(a + b) <==> DistinctIds(a) && DistinctIds(b) && TxIds(a) !! TxIds(b)
  {
    if DistinctIds(a + b) {
      forall i, j | 0 <= i < j < |a| ensures a[i].id != a[j].id {
        assert (a + b)[i] == a[i] && (a + b)[j] == a[j];
      }
      forall i, j | 0 <= i < j < |b| ensures b[i].id != b[j].id {
        assert (a + b)[|a| + i] == b[i] && (a + b)[|a| + j] == b[j];
      }
      forall i, j | 0 <= i < |a| && 0 <= j < |b| ensures a[i].id != b[j].id {
        assert (a + b)[i] == a[i] && (a + b)[|a| + j] == b[j];
      }
    } else {
      var i, j :| 0 <= i < j < |a + b| && (a + b)[i].id == (a + b)[j].id;
      if i < |a| <= j {
        assert a[i].id in TxIds(a) && b[j - |a|].id in TxIds(b);
      }
    }
  }

  lemma MessagesSnoc(chain: seq<Block>, b: Block)
    ensures Messages(chain + [b]) == Messages(chain) + b.transactions
    ensures ChainIds(chain + [b]) == ChainIds(chain) + TxIds(b.transactions)
  {
    assert (chain + [b])[..|chain|] == chain;
    TxIdsConcat(Messages(chain), b.transactions);
  }

  lemma {:induction false} MessageInBlock(chain: seq<Block>, t: Transaction)
    ensures t in Messages(chain) <==> exists i :: 0 <= i < |chain| && t in chain[i].transactions
  {
    if chain != [] {
      var n := |chain| - 1;
      MessageInBlock(chain[..n], t);
      if t in Messages(chain[..n]) {
        var i :| 0 <= i < n && t in chain[..n][i].transactions;
        assert t in chain[i].transactions;
      }
      if i :| 0 <= i < |chain| && t in chain[i].transactions {
        if i < n {
          assert chain[..n][i] == chain[i];
        }
      }
    }
  }

  lemma ChainMessagesValid(p: Rules, chain: seq<Block>, now: int)
    requires ValidChain(p, chain, now)
    ensures AllValid(Messages(chain))
  {
    forall t | t in Messages(chain) ensures ValidTransaction(t) {
      MessageInBlock(chain, t);
      var i :| 0 <= i < |chain| && t in chain[i].transactions;
      assert ValidLink(p, chain, i, now);
    }
  }

  // ---------------------------------------------------------------- validation loops

  /** Block validation as nodes run it: one pass over the messages with a `seen` set. */
  method ValidateBlock(p: Rules, b: Block, now: int) returns (err: Status)
    ensures err == if ValidBlock(p, b, now) then Accepted else Invalid
    ensures err == Accepted ==> 1 <= p.difficulty <= 4 && seq(p.difficulty, (i: nat) => 48) <= b.hash
    ensures p.difficulty < 1 || p.difficulty > 4 || !(seq(p.difficulty, (i: nat) => 48) <= b.hash) ==> err == Invalid
  {
    hide MeetsTarget;
    if p.difficulty >= 0 {
      TargetMeans(b.hash, p.difficulty);
    }
    if !CheckDifficulty(p.difficulty) {
      return Invalid;
    }
    if b.version != PROTOCOL_VERSION || b.difficulty != p.difficulty {
      return Invalid;
    }
    if b.index < 1 || b.index >= MAX_CHAIN_BLOCKS || |b.prevHash| != 64 {
      return Invalid;
    }
    if b.timestamp < CreateGenesisBlock(p).timestamp || b.timestamp > now + CLOCK_SKEW {
      return Invalid;
    }
    if |b.transactions| == 0 || |b.transactions| > MAX_BLOCK_TRANSACTIONS {
      return Invalid;
    }
    var seen: set<Text> := {};
    for k := 0 to |b.transactions|
      invariant seen == TxIds(b.transactions[..k])
      invariant AllValid(b.transactions[..k]) && DistinctIds(b.transactions[..k])
    {
      var tx := b.transactions[k];
      assert b.transactions[..k + 1] == b.transactions[..k] + [tx];
      if !ValidTransaction(tx) {
        return Invalid;
      }
      if tx.id in seen {
        return Invalid;
      }
      seen := seen + {tx.id};
    }
    assert b.transactions[..|b.transactions|] == b.transactions;
    if |b.hash| != 64 || b.hash != CalculateHash(p, b) {
      return Invalid;
    }
    if !MeetsTarget(b.hash, p.difficulty) {
      return Invalid;
    }
    return Accepted;
  }

  lemma LinksSnoc(p: Rules, chain: seq<Block>, i: nat, now: int)
    requires 1 <= i < |chain|
    ensures ValidLinks(p, chain[..i + 1], now) <==> ValidLinks(p, chain[..i], now) && ValidLink(p, chain, i, now)
  {
    hide ValidBlock;
    var longer, shorter := chain[..i + 1], chain[..i];
    assert ValidLink(p, longer, i, now) == ValidLink(p, chain, i, now);
    forall j | 1 <= j < i ensures ValidLink(p, longer, j, now) == ValidLink(p, shorter, j, now) {
      assert longer[j] == shorter[j] && longer[j - 1] == shorter[j - 1];
    }
  }

  lemma GenesisHasNoMessages(p: Rules)
    ensures CreateGenesisBlock(p).transactions == [] && Messages([]) == []
  {
  }

  /** Chain validation as nodes run it: one pass over the blocks, with one `seen` set
      for the messages of all of them. */
  method ValidateChain(p: Rules, chain: seq<Block>, now: int) returns (err: Status)
    ensures err == if ValidChain(p, chain, now) then Accepted else Invalid
  {
    hide ValidBlock, CreateGenesisBlock, Messages;
    if !CheckDifficulty(p.difficulty) {
      return Invalid;
    }
    if |chain| == 0 || |chain| > MAX_CHAIN_BLOCKS {
      return Invalid;
    }
    if chain[0] != CreateGenesisBlock(p) {
      return Invalid;
    }
    var seen: set<Text> := {};
    GenesisHasNoMessages(p);
    assert chain[..1] == [] + [chain[0]];
    MessagesSnoc([], chain[0]);
    for i := 1 to |chain|
      invariant seen == ChainIds(chain[..i])
      invariant ValidLinks(p, chain[..i], now)
      invariant DistinctIds(Messages(chain[..i]))
    {
      var b, prev := chain[i], chain[i - 1];
      assert chain[..i + 1] == chain[..i] + [b];
      MessagesSnoc(chain[..i], b);
      var before := Messages(chain[..i]);
      LinksSnoc(p, chain, i, now);
      var check := ValidateBlock(p, b, now);
      if check != Accepted {
        assert !ValidLink(p, chain, i, now);
        return Invalid;
      }
      if b.index != i || b.prevHash != prev.hash || b.timestamp < prev.timestamp {
        assert !ValidLink(p, chain, i, now);
        return Invalid;
      }
      for k := 0 to |b.transactions|
        invariant seen == TxIds(before + b.transactions[..k])
        invariant DistinctIds(before + b.transactions[..k])
      {
        var tx := b.transactions[k];
        assert before + b.transactions[..k + 1] == (before + b.transactions[..k]) + [tx];
        if tx.id in seen {
          RepeatSpoilsChain(chain, i, k);
          return Invalid;
        }
        seen := seen + {tx.id};
      }
      assert b.transactions[..|b.transactions|] == b.transactions;
    }
    assert chain[..|chain|] == chain;
    return Accepted;
  }

  lemma {:induction false} MessagesPrefix(chain: seq<Block>, i: nat)
    requires i <= |chain|
    ensures Messages(chain[..i]) <= Messages(chain)
    decreases |chain| - i
  {
    if i == |chain| {
      assert chain[..i] == chain;
    } else {
      MessagesPrefix(chain, i + 1);
      assert chain[..i + 1] == chain[..i] + [chain[i]];
      MessagesSnoc(chain[..i], chain[i]);
    }
  }

  lemma RepeatInPrefix(all: seq<Transaction>, before: seq<Transaction>, t: Transaction)
    requires before + [t] <= all && t.id in TxIds(before)
    ensures !DistinctIds(all)
  {
    var j :| 0 <= j < |before| && before[j].id == t.id;
    assert all[j] == before[j] && all[|before|] == t;
  }

  /** An ID met again at message `k` of block `i` repeats in the whole chain. */
  lemma RepeatSpoilsChain(chain: seq<Block>, i: nat, k: nat)
    requires i < |chain| && k < |chain[i].transactions|
    requires chain[i].transactions[k].id in TxIds(Messages(chain[..i]) + chain[i].transactions[..k])
    ensures !DistinctIds(Messages(chain))
  {
    hide Messages, TxIds, DistinctIds;
    var t := chain[i].transactions[k];
    var head, some := Messages(chain[..i]), chain[i].transactions[..k];
    assert chain[..i + 1] == chain[..i] + [chain[i]];
    MessagesSnoc(chain[..i], chain[i]);
    MessagesPrefix(chain, i + 1);
    PrefixOfConcat(head, chain[i].transactions, k, Messages(chain));
    RepeatInPrefix(Messages(chain), head + some, t);
  }

  lemma PrefixOfConcat(head: seq<Transaction>, txs: seq<Transaction>, k: nat, all: seq<Transaction>)
    requires k < |txs| && head + txs <= all
    ensures head + txs[..k] + [txs[k]] <= all
  {
    assert txs == txs[..k] + [txs[k]] + txs[k + 1..];
    assert head + txs == (head + txs[..k] + [txs[k]]) + txs[k + 1..];
  }

  // ---------------------------------------------------------------- time, prefixes, extension

  /** Stored chains stay valid because the clock only moves forward. */
  lemma ValidChainMonotone(p: Rules, chain: seq<Block>, now: int, later: int)
    requires ValidChain(p, chain, now) && now <= later
    ensures ValidChain(p, chain, later)
  {
    forall i | 1 <= i < |chain| ensures ValidLink(p, chain, i, later) {
      assert ValidLink(p, chain, i, now);
    }
  }

  lemma GenesisValid(p: Rules, now: int)
    requires CheckDifficulty(p.difficulty)
    ensures ValidChain(p, [CreateGenesisBlock(p)], now)
  {
    MessagesSnoc([], CreateGenesisBlock(p));
    assert [] + [CreateGenesisBlock(p)] == [CreateGenesisBlock(p)];
  }

  /** What AddBlock checks of a block beyond the block itself. */
  predicate Extends(chain: seq<Block>, b: Block)
    requires chain != []
  {
    && b.index == Last(chain).index + 1 && b.prevHash == Last(chain).hash
    && b.timestamp >= Last(chain).timestamp
    && TxIds(b.transactions) !! ChainIds(chain)
  }

  lemma LastIndex(p: Rules, chain: seq<Block>, now: int)
    requires ValidChain(p, chain, now)
    ensures Last(chain).index == |chain| - 1
  {
    if |chain| > 1 {
      assert ValidLink(p, chain, |chain| - 1, now);
    }
  }

  lemma ValidBlockFacts(p: Rules, b: Block, now: int)
    requires ValidBlock(p, b, now)
    ensures 1 <= b.index < MAX_CHAIN_BLOCKS && DistinctIds(b.transactions) && AllValid(b.transactions)
  {
  }

  /** Checking a block against the tip and the ID index is exactly as strict as
      validating the longer chain from its genesis, length limit included. */
  lemma IncrementalEqualsFull(p: Rules, chain: seq<Block>, b: Block, now: int)
    requires ValidChain(p, chain, now)
    ensures ValidBlock(p, b, now) && Extends(chain, b) <==> ValidChain(p, chain + [b], now)
  {
    var longer := chain + [b];
    LastIndex(p, chain, now);
    MessagesSnoc(chain, b);
    DistinctConcat(Messages(chain), b.transactions);
    LinksSnoc(p, longer, |chain|, now);
    assert longer[..|chain|] == chain && longer[..|chain| + 1] == longer;
    if ValidBlock(p, b, now) {
      ValidBlockFacts(p, b, now);
    }
    hide ValidBlock, CreateGenesisBlock, Messages, DistinctIds, TxIds, ValidLinks;
    if ValidChain(p, longer, now) {
      assert ValidBlock(p, b, now);
    }
  }

  lemma PrefixValid(p: Rules, chain: seq<Block>, b: Block, now: int)
    requires chain != [] && ValidChain(p, chain + [b], now)
    ensures ValidChain(p, chain, now)
  {
    var longer := chain + [b];
    MessagesSnoc(chain, b);
    DistinctConcat(Messages(chain), b.transactions);
    LinksSnoc(p, longer, |chain|, now);
    assert longer[..|chain|] == chain && longer[..|chain| + 1] == longer;
    assert longer[0] == chain[0];
  }

  // ---------------------------------------------------------------- the fork-choice order

  lemma BetterIrreflexive(a: seq<Block>)
    ensures !BetterChain(a, a)
  {
    if a != [] {
      LessIrreflexive(Last(a).hash);
    }
  }

  lemma BetterTransitive(a: seq<Block>, b: seq<Block>, c: seq<Block>)
    requires BetterChain(a, b) && BetterChain(b, c)
    ensures BetterChain(a, c)
  {
    if |a| == |b| == |c| {
      LessTransitive(Last(a).hash, Last(b).hash, Last(c).hash);
    }
  }

  ghost predicate BlocksAmong(chain: seq<Block>, blocks: set<Block>) {
    forall b | b in chain :: b in blocks
  }

  ghost predicate HashedAt(p: Rules, chain: seq<Block>, i: int)
    requires 0 <= i < |chain|
  {
    && chain[i].index == i && chain[i].hash == CalculateHash(p, chain[i])
    && (i > 0 ==> chain[i].prevHash == chain[i - 1].hash)
  }

  /** A chain whose hashes are right, whatever its messages. */
  ghost predicate Hashed(p: Rules, chain: seq<Block>) {
    chain != [] && forall i | 0 <= i < |chain| :: HashedAt(p, chain, i)
  }

  lemma ValidIsHashed(p: Rules, chain: seq<Block>, now: int)
    requires ValidChain(p, chain, now)
    ensures Hashed(p, chain)
  {
    forall i | 0 <= i < |chain| ensures HashedAt(p, chain, i) {
      if i > 0 {
        assert ValidLink(p, chain, i, now);
      }
    }
  }

  lemma HashedPrefix(p: Rules, chain: seq<Block>)
    requires Hashed(p, chain) && |chain| > 1
    ensures Hashed(p, chain[..|chain| - 1])
  {
    hide CalculateHash;
    var shorter := chain[..|chain| - 1];
    forall i | 0 <= i < |shorter| ensures HashedAt(p, shorter, i) {
      assert HashedAt(p, chain, i);
    }
  }

  lemma {:induction false} HashDeterminesChain(p: Rules, a: seq<Block>, b: seq<Block>, blocks: set<Block>)
    requires Hashed(p, a) && Hashed(p, b)
    requires NoCollision(p, blocks) && BlocksAmong(a, blocks) && BlocksAmong(b, blocks)
    requires Last(a).hash == Last(b).hash
    ensures a == b
    decreases |a|
  {
    var x, y := Last(a), Last(b);
    assert HashedAt(p, a, |a| - 1) && HashedAt(p, b, |b| - 1);
    assert HeaderOf(x) == HeaderOf(y);
    assert x == y && |a| == |b|;
    var n := |a| - 1;
    if n > 0 {
      HashedPrefix(p, a);
      HashedPrefix(p, b);
      HashDeterminesChain(p, a[..n], b[..n], blocks);
    }
    assert a == a[..n] + [x] && b == b[..n] + [y];
  }

  /** The tip hash of a valid chain determines every block of it. */
  lemma TipDeterminesChain(p: Rules, a: seq<Block>, b: seq<Block>, now: int, blocks: set<Block>)
    requires ValidChain(p, a, now) && ValidChain(p, b, now)
    requires NoCollision(p, blocks) && BlocksAmong(a, blocks) && BlocksAmong(b, blocks)
    ensures Last(a).hash == Last(b).hash <==> a == b
  {
    ValidIsHashed(p, a, now);
    ValidIsHashed(p, b, now);
    if Last(a).hash == Last(b).hash {
      HashDeterminesChain(p, a, b, blocks);
    }
  }

  /** Of two different valid chains exactly one is better. With `BetterTransitive` and
      `BetterIrreflexive`: a strict total order. */
  lemma BetterTotal(p: Rules, a: seq<Block>, b: seq<Block>, now: int, blocks: set<Block>)
    requires ValidChain(p, a, now) && ValidChain(p, b, now)
    requires NoCollision(p, blocks) && BlocksAmong(a, blocks) && BlocksAmong(b, blocks)
    ensures a != b <==> BetterChain(a, b) || BetterChain(b, a)
    ensures !(BetterChain(a, b) && BetterChain(b, a))
  {
    TipDeterminesChain(p, a, b, now, blocks);
    LessTotal(Last(a).hash, Last(b).hash);
    BetterIrreflexive(a);
    if BetterChain(a, b) && BetterChain(b, a) {
      BetterTransitive(a, b, a);
    }
  }

  // ---------------------------------------------------------------- down to hashed bytes

  /** Everything a valid chain hashes is valid text, so its encoding can be read back. */
  lemma ValidChainTexts(p: Rules, chain: seq<Block>, now: int)
    requires ValidChain(p, chain, now)
    ensures forall b | b in chain :: ValidHeaderTexts(HeaderOf(b))
  {
    forall b | b in chain ensures ValidHeaderTexts(HeaderOf(b)) {
      var i :| 0 <= i < |chain| && chain[i] == b;
      ValidIsHashed(p, chain, now);
      if i > 0 {
        assert ValidLink(p, chain, i, now) && HashedAt(p, chain, i - 1);
        AsciiIsValid(b.prevHash);
      }
    }
  }

  ghost function BlocksOf(chain: seq<Block>): set<Block> {
    set b | b in chain
  }

  /** For a deployment that hashes encodings with `sha`: two valid chains with the same
      tip hash are equal, unless `sha` maps two different byte strings to one digest. */
  lemma TipDeterminesChainBytes(sha: ByteHash, d: int64, a: seq<Block>, b: seq<Block>, now: int)
    requires ValidChain(HashedRules(sha, d), a, now) && ValidChain(HashedRules(sha, d), b, now)
    requires NoByteCollision(sha, BlocksOf(a) + BlocksOf(b))
    ensures Last(a).hash == Last(b).hash <==> a == b
  {
    hide ValidChain, HashedRules, ValidHeaderTexts, NoByteCollision;
    var p := HashedRules(sha, d);
    ValidChainTexts(p, a, now);
    ValidChainTexts(p, b, now);
    BytesToHeaders(sha, d, BlocksOf(a) + BlocksOf(b));
    TipDeterminesChain(p, a, b, now, BlocksOf(a) + BlocksOf(b));
  }
}
