/** Confirmed blocks in memory and on disk. Blocks are structs that hold their messages
    through a slice, so two copies of a block share its messages until they are cloned;
    the store clones what comes in and what goes out. */
module Storage {
  import opened GoText
  import opened Entities
  import opened Models
  import opened Nodes

  /** A block as it lies in memory: the messages are in a shared, mutable array. */
  datatype BlockRef = BlockRef(
    version: int64,
    difficulty: int64,
    index: int64,
    timestamp: int64,
    transactions: array<Transaction>,
    prevHash: Text,
    hash: Text,
    nonce: uint64)

  function View(b: BlockRef): Block
    reads b.transactions
  {
    Block(b.version, b.difficulty, b.index, b.timestamp, b.transactions[..], b.prevHash, b.hash, b.nonce)
  }

  ghost function Slices(chain: seq<BlockRef>): set<array<Transaction>> {
    set b | b in chain :: b.transactions
  }

  function Views(chain: seq<BlockRef>): (v: seq<Block>)
    reads Slices(chain)
    ensures |v| == |chain| && forall i | 0 <= i < |v| :: v[i] == View(chain[i])
  {
    assert forall b | b in chain :: b.transactions in Slices(chain);
    seq(|chain|, i requires 0 <= i < |chain| reads Slices(chain) => View(chain[i]))
  }

  /** A chain reads the same while nobody writes to its slices. */
  twostate lemma ViewsSame(chain: seq<BlockRef>)
    requires forall b | b in chain :: unchanged(b.transactions)
    ensures Views(chain) == old(Views(chain))
  {
    assert forall i | 0 <= i < |chain| :: chain[i] in chain;
  }

  twostate lemma ViewSame(b: BlockRef)
    requires unchanged(b.transactions)
    ensures View(b) == old(View(b))
  {
  }

  function TransactionsOf(b: BlockRef): (txs: seq<Transaction>)
    reads b.transactions
    ensures txs == View(b).transactions
  {
    b.transactions[..]
  }

  lemma ViewsSnoc(chain: seq<BlockRef>, b: BlockRef)
    ensures Views(chain + [b]) == Views(chain) + [View(b)]
  {
  }

  /** Copies the messages of every block into slices of their own. */
  method CloneChain(chain: seq<BlockRef>) returns (out: seq<BlockRef>)
    ensures Views(out) == Views(chain)
    ensures fresh(Slices(out))
  {
    out := chain;
    for i := 0 to |chain|
      invariant |out| == |chain| && out[i..] == chain[i..]
      invariant forall k | 0 <= k < i :: fresh(out[k].transactions) && View(out[k]) == View(chain[k])
    {
      var b := chain[i];
      var copy := new Transaction[b.transactions.Length](j requires 0 <= j < b.transactions.Length reads b.transactions => b.transactions[j]);
      assert copy[..] == b.transactions[..];
      out := out[i := b.(transactions := copy)];
    }
  }

  /** Slices for a chain read from a file. */
  method Decode(chain: seq<Block>) returns (out: seq<BlockRef>)
    ensures Views(out) == chain
    ensures fresh(Slices(out))
  {
    out := [];
    for i := 0 to |chain|
      invariant |out| == i
      invariant forall k | 0 <= k < i :: fresh(out[k].transactions) && View(out[k]) == chain[k]
    {
      var b := chain[i];
      var copy := new Transaction[|b.transactions|](j requires 0 <= j < |b.transactions| => b.transactions[j]);
      assert copy[..] == b.transactions;
      out := out + [BlockRef(b.version, b.difficulty, b.index, b.timestamp, copy, b.prevHash, b.hash, b.nonce)];
    }
  }

  method DecodeBlock(b: Block) returns (r: BlockRef)
    ensures View(r) == b
    ensures fresh(r.transactions)
  {
    var refs := Decode([b]);
    assert View(refs[0]) == Views(refs)[0] && refs[0].transactions in Slices(refs);
    r := refs[0];
  }

  /** The chain file: absent, of unusable size or content, or a chain. */
  datatype ChainFile = Missing | Unreadable | Holds(chain: seq<Block>)

  /** The chain is valid, the index lists its IDs, and the file holds it. */
  ghost predicate Consistent(p: Rules, chain: seq<Block>, txIDs: set<Text>, file: ChainFile, now: int) {
    ValidChain(p, chain, now) && txIDs == ChainIds(chain) && file == Holds(chain)
  }

  class FileChainStorage {
    const rules: Rules
    var chain: seq<BlockRef>
    var txIDs: set<Text>
    var file: ChainFile
    /** The chain as a value, whatever slices hold it. */
    ghost var contents: seq<Block>

    ghost predicate Valid(now: int)
      reads this, Slices(chain)
    {
      contents == Views(chain) && Consistent(rules, contents, txIDs, file, now)
    }

    /** Every slice the store holds now it held before, or it is new. */
    twostate predicate OwnSlices()
      reads this
    {
      forall a | a in Slices(chain) :: a in old(Slices(chain)) || fresh(a)
    }

    constructor (rules: Rules, chain: seq<BlockRef>, file: ChainFile)
      ensures this.rules == rules && this.chain == chain && this.file == file
      ensures contents == Views(chain) && txIDs == ChainIds(contents)
    {
      this.contents := Views(chain);
      this.rules := rules;
      this.chain := chain;
      this.file := file;
      this.txIDs := {};
      new;
      IndexTransactions();
    }

    /** Opens a chain file, or starts one. A file that cannot be used is left as it is;
        `after` is the file once the call has returned. */
    static method Open(rules: Rules, file: ChainFile, now: int, saves: bool)
      returns (fs: FileChainStorage?, err: Status, after: ChainFile)
      ensures err ==
        if !CheckDifficulty(rules.difficulty) then Invalid
        else match file {
          case Missing => if saves then Accepted else SaveFailed
          case Unreadable => Invalid
          case Holds(chain) => if ValidChain(rules, chain, now) then Accepted else Invalid
        }
      ensures fs != null <==> err == Accepted
      ensures fs != null ==> fresh(fs) && fresh(Slices(fs.chain)) && fs.rules == rules && fs.Valid(now) && after == fs.file
      ensures fs != null ==> fs.contents == if file.Holds? then file.chain else [CreateGenesisBlock(rules)]
      ensures err != Accepted || file.Holds? ==> after == file
    {
      if !CheckDifficulty(rules.difficulty) {
        return null, Invalid, file;
      }
      var loaded: seq<Block>;
      match file {
        case Missing =>
          GenesisValid(rules, now);
          loaded := [CreateGenesisBlock(rules)];
          if !saves {
            return null, SaveFailed, file;
          }
        case Unreadable =>
          return null, Invalid, file;
        case Holds(chain) =>
          loaded := chain;
          var check := ValidateChain(rules, loaded, now);
          if check != Accepted {
            return null, Invalid, file;
          }
      }
      var refs := Decode(loaded);
      fs := new FileChainStorage(rules, refs, Holds(loaded));
      return fs, Accepted, fs.file;
    }

    /** Rebuilds the index from the chain. */
    method IndexTransactions()
      modifies this`txIDs
      ensures txIDs == ChainIds(Views(chain))
    {
      var blocks := Views(chain);
      assert Messages([]) == [] && TxIds([]) == {};
      hide Messages, TxIds, ChainIds;
      txIDs := {};
      for i := 0 to |blocks|
        invariant Views(chain) == blocks
        invariant txIDs == ChainIds(blocks[..i])
      {
        assert blocks[..i + 1] == blocks[..i] + [blocks[i]];
        MessagesSnoc(blocks[..i], blocks[i]);
        IndexMessages(blocks[i].transactions);
      }
      assert blocks[..|blocks|] == blocks;
    }

    method GetChain() returns (out: seq<BlockRef>)
      ensures Views(out) == Views(chain)
      ensures fresh(Slices(out))
    {
      out := CloneChain(chain);
    }

    method GetLatestBlock() returns (b: BlockRef)
      requires chain != []
      ensures View(b) == Last(Views(chain))
      ensures fresh(b.transactions)
    {
      var copies := CloneChain([chain[|chain| - 1]]);
      assert Views(copies)[0] == View(chain[|chain| - 1]);
      assert copies[0].transactions in Slices(copies);
      b := copies[0];
    }

    method TransactionExists(id: Text) returns (known: bool)
      requires txIDs == ChainIds(contents)
      ensures known <==> id in ChainIds(contents)
    {
      known := id in txIDs;
    }

    /** The rename is the commit: before it the file is the old one, after it the new. */
    method SaveUnlocked(candidate: seq<BlockRef>, saves: bool) returns (err: Status)
      modifies this`file
      ensures err == if saves then Accepted else SaveFailed
      ensures file == if saves then Holds(Views(candidate)) else old(file)
    {
      if !saves {
        return SaveFailed;
      }
      file := Holds(Views(candidate));
      return Accepted;
    }

    /** Appends a block that extends the tip. On success every slice of the store is new,
        so neither the caller's block nor any earlier snapshot shares messages with it. */
    method AddBlock(b: BlockRef, now: int, saves: bool) returns (err: Status)
      requires Valid(now)
      modifies this
      ensures Valid(now)
      ensures err == AppendStatus(rules, old(contents), View(b), now, saves)
      ensures err == Accepted <==> ValidChain(rules, old(contents) + [View(b)], now) && saves
      ensures err == SaveFailed <==> ValidChain(rules, old(contents) + [View(b)], now) && !saves
      ensures old(contents) != []
      ensures err == StaleBlock <==> ValidBlock(rules, View(b), now) && (View(b).index != |old(contents)| || View(b).prevHash != Last(old(contents)).hash)
      ensures err == Invalid <==>
        || !ValidBlock(rules, View(b), now)
        || (View(b).index == |old(contents)| && View(b).prevHash == Last(old(contents)).hash
            && (View(b).timestamp < Last(old(contents)).timestamp || !(TxIds(View(b).transactions) !! ChainIds(old(contents)))))
      ensures err == Accepted ==> contents == old(contents) + [View(b)] && fresh(Slices(chain))
      ensures err != Accepted ==> unchanged(this)
    {
      ghost var before := contents;
      ghost var block := View(b);
      err := CheckBlock(b, now);
      assert Views(chain) == before && View(b) == block;
      hide ValidBlock, ValidChain, ChainIds, TxIds, Extends;
      if err == Accepted {
        IncrementalEqualsFull(rules, before, block, now);
        MessagesSnoc(before, block);
        err := CommitBlock(b, saves);
        assert contents == Views(chain) == if saves then before + [block] else before;
      }
      AppendStatusExact(rules, before, block, now, saves);
    }

    /** The checks, in order: the block itself, its place on the tip, its messages. */
    method CheckBlock(b: BlockRef, now: int) returns (err: Status)
      requires Valid(now)
      ensures err == AppendStatus(rules, contents, View(b), now, true)
      ensures err == Accepted <==> ValidChain(rules, contents + [View(b)], now)
      ensures contents != []
      ensures err == StaleBlock <==> ValidBlock(rules, View(b), now) && (View(b).index != |contents| || View(b).prevHash != Last(contents).hash)
      ensures err == Invalid <==>
        || !ValidBlock(rules, View(b), now)
        || (View(b).index == |contents| && View(b).prevHash == Last(contents).hash
            && (View(b).timestamp < Last(contents).timestamp || !(TxIds(View(b).transactions) !! ChainIds(contents))))
    {
      err := Check(b, now);
      CheckExact(contents, View(b), now);
    }

    lemma CheckExact(chain: seq<Block>, b: Block, now: int)
      requires ValidChain(rules, chain, now)
      ensures chain != []
      ensures var err := AppendStatus(rules, chain, b, now, true);
        && (err == Accepted <==> ValidChain(rules, chain + [b], now))
        && (err == StaleBlock <==> ValidBlock(rules, b, now) && (b.index != |chain| || b.prevHash != Last(chain).hash))
        && (err == Invalid <==>
            || !ValidBlock(rules, b, now)
            || (b.index == |chain| && b.prevHash == Last(chain).hash
                && (b.timestamp < Last(chain).timestamp || !(TxIds(b.transactions) !! ChainIds(chain)))))
    {
      hide ValidBlock, ValidLinks, TxIds, ChainIds, AppendStatus, DistinctIds, Messages;
      AppendStatusExact(rules, chain, b, now, true);
    }

    method Check(b: BlockRef, now: int) returns (err: Status)
      requires Valid(now)
      ensures err == AppendStatus(rules, contents, View(b), now, true)
    {
      ghost var before := contents;
      ghost var block := View(b);
      var check := ValidateBlock(rules, View(b), now);
      assert Views(chain) == before && View(b) == block;
      if check != Accepted {
        return Invalid;
      }
      hide ValidBlock, ValidChain, ChainIds, TxIds;
      var prev := chain[|chain| - 1];
      if b.index != prev.index + 1 || b.prevHash != prev.hash {
        return StaleBlock;
      }
      if b.timestamp < prev.timestamp {
        return Invalid;
      }
      var known := Overlaps(b.transactions[..], txIDs);
      assert Views(chain) == before && View(b) == block;
      return if known then Invalid else Accepted;
    }

    /** Saves the longer chain, then publishes it and indexes the new messages. */
    method CommitBlock(b: BlockRef, saves: bool) returns (err: Status)
      requires contents == Views(chain)
      modifies this
      ensures err == if saves then Accepted else SaveFailed
      ensures saves ==> contents == old(contents) + [View(b)] && contents == Views(chain) && fresh(Slices(chain))
      ensures saves ==> file == Holds(contents) && txIDs == old(txIDs) + TxIds(View(b).transactions)
      ensures !saves ==> unchanged(this)
    {
      hide TxIds, Views, View, TransactionsOf;
      ghost var longer := contents + [View(b)];
      var candidate := LongerBy(b);
      label built:
      err := SaveUnlocked(candidate, saves);
      ViewsSame@built(candidate);
      ViewSame(b);
      assert Views(candidate) == longer;
      if err == Accepted {
        var txs := TxsOf(b);
        PublishChain(candidate, txs);
        ViewSame(b);
        assert contents == longer;
      }
    }

    static method TxsOf(b: BlockRef) returns (txs: seq<Transaction>)
      ensures txs == View(b).transactions
    {
      txs := TransactionsOf(b);
    }

    /** A copy of the chain with the block on top. */
    method LongerBy(b: BlockRef) returns (candidate: seq<BlockRef>)
      ensures Views(candidate) == old(Views(chain)) + [old(View(b))] && View(b) == old(View(b))
    {
      hide View;
      var clone := CloneChain(chain);
      candidate := clone + [b];
      ViewsSnoc(clone, b);
      ViewsSame(chain);
      ViewSame(b);
    }

    method PublishChain(candidate: seq<BlockRef>, txs: seq<Transaction>)
      modifies this`chain, this`contents, this`txIDs
      ensures contents == Views(chain) == old(Views(candidate)) && fresh(Slices(chain))
      ensures txIDs == old(txIDs) + TxIds(txs)
    {
      hide TxIds, Views, View;
      chain := CloneChain(candidate);
      label published:
      contents := Views(chain);
      ViewsSame(candidate);
      IndexMessages(txs);
      ViewsSame@published(chain);
    }

    method IndexMessages(txs: seq<Transaction>)
      modifies this`txIDs
      ensures txIDs == old(txIDs) + TxIds(txs)
    {
      NoIds(txs);
      for k := 0 to |txs|
        invariant txIDs == old(txIDs) + TxIds(txs[..k])
      {
        TxIdsSnoc(txs, k);
        txIDs := txIDs + {txs[k].id};
      }
      assert txs[..|txs|] == txs;
    }

    /** Whether a message has an ID in `ids`. */
    static method Overlaps(txs: seq<Transaction>, ids: set<Text>) returns (found: bool)
      ensures found <==> !(TxIds(txs) !! ids)
    {
      for k := 0 to |txs|
        invariant TxIds(txs[..k]) !! ids
      {
        if txs[k].id in ids {
          assert txs[k].id in TxIds(txs);
          return true;
        }
        TxIdsSnoc(txs, k);
      }
      assert txs[..|txs|] == txs;
      return false;
    }

    /** What ReplaceChain answers. */
    static function ReplaceStatus(p: Rules, current: seq<Block>, candidate: seq<Block>, now: int, saves: bool): Status {
      if !ValidChain(p, candidate, now) then Invalid
      else if !BetterChain(candidate, current) then NotBetter
      else if !saves then SaveFailed
      else Accepted
    }

    /** Replaces the chain by a better one, and by nothing else. */
    method ReplaceChain(replacement: seq<BlockRef>, now: int, saves: bool) returns (err: Status)
      requires Valid(now)
      modifies this
      ensures Valid(now)
      ensures Views(replacement) == old(Views(replacement))
      ensures err == ReplaceStatus(rules, old(contents), Views(replacement), now, saves)
      ensures err == Accepted <==>
        ValidChain(rules, Views(replacement), now) && BetterChain(Views(replacement), old(contents)) && saves
      ensures err == Accepted ==> contents == Views(replacement) && fresh(Slices(chain))
      ensures err != Accepted ==> unchanged(this)
    {
      hide ValidChain, BetterChain, ChainIds, Views, View;
      var candidate := CloneChain(replacement);
      label cloned:
      ViewsSame(chain);
      ViewsSame(replacement);
      var check := ValidateChain(rules, Views(candidate), now);
      ViewsSame(chain);
      ViewsSame(replacement);
      ViewsSame@cloned(candidate);
      if check != Accepted {
        return Invalid;
      }
      if !BetterChain(Views(candidate), Views(chain)) {
        return NotBetter;
      }
      err := SaveUnlocked(candidate, saves);
      ViewsSame(replacement);
      ViewsSame@cloned(candidate);
      if err != Accepted {
        ViewsSame(chain);
        return;
      }
      chain := candidate;
      contents := Views(chain);
      IndexTransactions();
      ViewsSame(replacement);
      ViewsSame@cloned(candidate);
    }
  }

  // ---------------------------------------------------------------- isolation

  /** What callers do: with blocks of their own, with blocks they got or passed before (by
      number, in `held`), and with the slices of any of them. */
  datatype Call =
    | Makes(b: Block)
    | Copies(i: nat, fields: Block)
    | Adds(i: nat, saves: bool)
    | Replaces(chosen: seq<nat>, saves: bool)
    | GetsChain
    | GetsTip
    | Writes(i: nat, k: nat, t: Transaction)

  predicate AllBelow(chosen: seq<nat>, n: nat) {
    forall i | 0 <= i < |chosen| :: chosen[i] < n
  }

  function Picked<T>(all: seq<T>, chosen: seq<nat>): seq<T>
    requires AllBelow(chosen, |all|)
  {
    seq(|chosen|, i requires 0 <= i < |chosen| => all[chosen[i]])
  }

  /** The store's chain after a call, `held` being what the callers' blocks say at the time
      of the call. */
  function Outcome(p: Rules, contents: seq<Block>, held: seq<Block>, c: Call, now: int): seq<Block>
    requires contents != []
  {
    match c
    case Adds(i, saves) =>
      if i < |held| && AppendStatus(p, contents, held[i], now, saves) == Accepted then contents + [held[i]] else contents
    case Replaces(chosen, saves) =>
      if AllBelow(chosen, |held|)
        && FileChainStorage.ReplaceStatus(p, contents, Picked(held, chosen), now, saves) == Accepted
      then Picked(held, chosen)
      else contents
    case _ => contents
  }

  /** A block passed is appended exactly if it makes a valid chain, a chain passed is taken
      exactly if it is valid and better, each if it can be saved; nothing else matters. */
  lemma OutcomeExact(p: Rules, contents: seq<Block>, held: seq<Block>, c: Call, now: int)
    requires ValidChain(p, contents, now)
    ensures contents != []
    ensures c.Adds? && c.i < |held| ==>
      Outcome(p, contents, held, c, now) ==
        if ValidChain(p, contents + [held[c.i]], now) && c.saves then contents + [held[c.i]] else contents
    ensures c.Replaces? && AllBelow(c.chosen, |held|) ==>
      Outcome(p, contents, held, c, now) ==
        var candidate := Picked(held, c.chosen);
        if ValidChain(p, candidate, now) && BetterChain(candidate, contents) && c.saves then candidate else contents
    ensures !c.Adds? && !c.Replaces? ==> Outcome(p, contents, held, c, now) == contents
  {
    hide ValidBlock, ValidLinks, TxIds, ChainIds, AppendStatus, DistinctIds, Messages, BetterChain;
    if c.Adds? && c.i < |held| {
      AppendStatusExact(p, contents, held[c.i], now, c.saves);
    }
  }

  /** The store shares no slice with anything its callers hold. */
  ghost predicate Apart(fs: FileChainStorage, held: seq<BlockRef>)
    reads fs
  {
    Slices(fs.chain) !! Slices(held)
  }

  /** Nor after a call that leaves it with slices it had, or with new ones. */
  twostate lemma StaysApart(fs: FileChainStorage, held: seq<BlockRef>)
    requires old(Apart(fs, held)) && fs.OwnSlices()
    ensures Apart(fs, held)
  {
  }

  lemma SlicesAdd(held: seq<BlockRef>, more: seq<BlockRef>)
    ensures Slices(held + more) == Slices(held) + Slices(more)
  {
  }

  lemma PickedViews(held: seq<BlockRef>, chosen: seq<nat>)
    requires AllBelow(chosen, |held|)
    ensures Views(Picked(held, chosen)) == Picked(Views(held), chosen)
  {
  }

  /** Writing to a slice the store does not hold leaves the store as it was. */
  method ScribbleElsewhere(fs: FileChainStorage, a: array<Transaction>, k: nat, t: Transaction, ghost now: int)
    requires fs.Valid(now) && a !in Slices(fs.chain)
    modifies a
    ensures fs.Valid(now) && unchanged(fs)
    ensures a[..] == if k < a.Length then old(a[..])[k := t] else old(a[..])
  {
    hide Consistent;
    if k < a.Length {
      a[k] := t;
    }
    ViewsSame(fs.chain);
  }

  lemma StoreFacts(fs: FileChainStorage, now: int)
    requires fs.Valid(now)
    ensures fs.contents == Views(fs.chain) && fs.contents != [] && |fs.chain| == |fs.contents|
  {
    hide ValidLinks;
  }

  /** Whatever a caller does next, the chain becomes what the call asked for, judged by what
      the blocks passed said at that moment, and afterwards the store again shares nothing
      with any block that ever went in or came out. */
  method CallersCannotReachIn(fs: FileChainStorage, held: seq<BlockRef>, c: Call, now: int) returns (more: seq<BlockRef>)
    requires fs.Valid(now) && Apart(fs, held)
    modifies fs, Slices(held)
    ensures fs.Valid(now) && Apart(fs, more)
    ensures held <= more && forall a | a in Slices(more) :: a in Slices(held) || fresh(a)
    ensures old(fs.contents) != [] && fs.contents == Outcome(fs.rules, old(fs.contents), old(Views(held)), c, now)
    ensures !c.Adds? && !c.Replaces? ==> unchanged(fs)
  {
    more := held;
    StoreFacts(fs, now);
    hide Consistent, Views, View, AppendStatus;
    hide FileChainStorage.ReplaceStatus;
    match c {
      case Makes(b) =>
        var r := DecodeBlock(b);
        ViewsSame(fs.chain);
        more := held + [r];
        SlicesAdd(held, [r]);
      case Copies(i, fields) =>
        if i < |held| {
          var r := BlockRef(fields.version, fields.difficulty, fields.index, fields.timestamp, held[i].transactions,
            fields.prevHash, fields.hash, fields.nonce);
          more := held + [r];
          SlicesAdd(held, [r]);
          assert held[i].transactions in Slices(held);
        }
      case Adds(i, saves) =>
        PassBlock(fs, held, i, now, saves);
      case Replaces(chosen, saves) =>
        PassChain(fs, held, chosen, now, saves);
      case GetsChain =>
        var out := fs.GetChain();
        ViewsSame(fs.chain);
        more := held + out;
        SlicesAdd(held, out);
      case GetsTip =>
        var b := fs.GetLatestBlock();
        ViewsSame(fs.chain);
        more := held + [b];
        SlicesAdd(held, [b]);
      case Writes(i, k, t) =>
        if i < |held| {
          assert held[i].transactions in Slices(held);
          ScribbleElsewhere(fs, held[i].transactions, k, t, now);
        }
    }
  }

  method PassBlock(fs: FileChainStorage, held: seq<BlockRef>, i: nat, now: int, saves: bool)
    requires fs.Valid(now) && Apart(fs, held)
    modifies fs
    ensures fs.Valid(now) && Apart(fs, held)
    ensures old(fs.contents) != [] && fs.contents == Outcome(fs.rules, old(fs.contents), old(Views(held)), Adds(i, saves), now)
  {
    StoreFacts(fs, now);
    hide Consistent, Views, View, AppendStatus;
    if i < |held| {
      assert Views(held)[i] == View(held[i]);
      var err := fs.AddBlock(held[i], now, saves);
    }
  }

  method PassChain(fs: FileChainStorage, held: seq<BlockRef>, chosen: seq<nat>, now: int, saves: bool)
    requires fs.Valid(now) && Apart(fs, held)
    modifies fs
    ensures fs.Valid(now) && Apart(fs, held)
    ensures old(fs.contents) != [] && fs.contents == Outcome(fs.rules, old(fs.contents), old(Views(held)), Replaces(chosen, saves), now)
  {
    StoreFacts(fs, now);
    hide Consistent, Views, View;
    hide FileChainStorage.ReplaceStatus;
    if AllBelow(chosen, |held|) {
      PickedViews(held, chosen);
      var err := fs.ReplaceChain(Picked(held, chosen), now, saves);
    }
  }

  lemma LaterValid(fs: FileChainStorage, now: int, later: int)
    requires fs.Valid(now) && now <= later
    ensures fs.Valid(later)
  {
    ValidChainMonotone(fs.rules, fs.contents, now, later);
    hide ValidChain, Views;
  }

  lemma OutcomeAscends(p: Rules, contents: seq<Block>, held: seq<Block>, c: Call, now: int)
    requires contents != []
    ensures NoWorse(Outcome(p, contents, held, c, now), contents)
  {
    hide ValidChain, AppendStatus;
  }

  /** Any calls in any order, each at its clock, with any writes in between: the store stays
      valid, apart from all that its callers hold, and its chain never gets worse. */
  method AnySession(fs: FileChainStorage, calls: seq<Call>, clock: seq<int>, start: int) returns (held: seq<BlockRef>)
    requires fs.Valid(start) && |clock| == |calls|
    requires forall i | 0 <= i < |clock| :: start <= clock[i]
    requires forall i, j | 0 <= i < j < |clock| :: clock[i] <= clock[j]
    modifies fs
    ensures Apart(fs, held) && fs.Valid(if clock == [] then start else clock[|clock| - 1])
    ensures NoWorse(fs.contents, old(fs.contents))
  {
    held := [];
    NoWorseReflexive(fs.contents);
    hide FileChainStorage.Valid, NoWorse, Outcome;
    for n := 0 to |calls|
      invariant fs.Valid(if n == 0 then start else clock[n - 1]) && Apart(fs, held)
      invariant forall a | a in Slices(held) :: fresh(a)
      invariant NoWorse(fs.contents, old(fs.contents))
    {
      LaterValid(fs, if n == 0 then start else clock[n - 1], clock[n]);
      ghost var before, views := fs.contents, Views(held);
      held := CallersCannotReachIn(fs, held, calls[n], clock[n]);
      OutcomeAscends(fs.rules, before, views, calls[n], clock[n]);
      NoWorseTransitive(fs.contents, before, old(fs.contents));
    }
  }
}
