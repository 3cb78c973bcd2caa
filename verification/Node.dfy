/** One node as a state machine: what each lock-protected operation of the engine does to
    the chain, the queue, the mining epoch and the file on disk. Incoming messages, blocks
    and chains are arbitrary; the clock and the outcome of a save are inputs. */
module Nodes {
  import opened GoText
  import opened Entities
  import opened Models
  import opened Mempools

  /** `epoch` stands for the `changed` channel: it moves on exactly when the channel that
      miners wait on is closed and replaced. `disk` is the chain file. */
  datatype Node = Node(chain: seq<Block>, pool: Pool, epoch: nat, disk: seq<Block>)

  // ---------------------------------------------------------------- operations

  function Submit(n: Node, tx: Transaction): (r: (Node, Status)) {
    if !ValidTransaction(tx) then (n, Invalid)
    else if tx.id in ChainIds(n.chain) || tx.id in n.pool then (n, Duplicate)
    else if |n.pool| >= MAX_PENDING then (n, Full)
    else (n.(pool := n.pool[tx.id := tx]), Accepted)
  }

  /** A new chain and queue take effect together, on disk and in memory. */
  function Commit(n: Node, chain: seq<Block>, pool: Pool): Node {
    Node(chain, pool, n.epoch + 1, chain)
  }

  function AppendStatus(p: Rules, chain: seq<Block>, b: Block, now: int, saves: bool): Status
    requires chain != []
  {
    if !ValidBlock(p, b, now) then Invalid
    else if b.index != Last(chain).index + 1 || b.prevHash != Last(chain).hash then StaleBlock
    else if !Extends(chain, b) then Invalid
    else if !saves then SaveFailed
    else Accepted
  }

  function Append(p: Rules, n: Node, b: Block, now: int, saves: bool): (r: (Node, Status))
    requires n.chain != []
  {
    var err := AppendStatus(p, n.chain, b, now, saves);
    if err == Accepted then (Commit(n, n.chain + [b], n.pool - TxIds(b.transactions)), err) else (n, err)
  }

  function Adopt(p: Rules, n: Node, candidate: seq<Block>, now: int, saves: bool): (r: (Node, Status)) {
    if !BetterChain(candidate, n.chain) then (n, NotBetter)
    else if |ReorgPool(n.pool, n.chain, candidate)| > MAX_PENDING then (n, Full)
    else if !ValidChain(p, candidate, now) then (n, Invalid)
    else if !saves then (n, SaveFailed)
    else (Commit(n, candidate, ReorgPool(n.pool, n.chain, candidate)), Accepted)
  }

  function SubmitAll(n: Node, txs: seq<Transaction>): Node {
    if txs == [] then n else Submit(SubmitAll(n, txs[..|txs| - 1]), txs[|txs| - 1]).0
  }

  /** A new process on the file an old one left behind: the queue is gone. */
  function Restart(n: Node): Node {
    Node(n.disk, map[], 0, n.disk)
  }

  /** The moment inside an append or adoption when the file has been renamed into place
      and the new chain is not yet published in memory. */
  function Renamed(n: Node, committed: (Node, Status)): Node {
    if committed.1 == Accepted then n.(disk := committed.0.disk) else n
  }

  datatype Step =
    | TakeMessage(tx: Transaction)
    | TakeBlock(b: Block, saves: bool)
    | TakeChain(chain: seq<Block>, saves: bool)
    | Crash
    | CrashInAppend(b: Block)
    | CrashInAdopt(chain: seq<Block>)

  predicate IsCrash(s: Step) {
    s.Crash? || s.CrashInAppend? || s.CrashInAdopt?
  }

  function Next(p: Rules, n: Node, s: Step, now: int): Node
    requires n.chain != []
  {
    match s
    case TakeMessage(tx) => Submit(n, tx).0
    case TakeBlock(b, saves) => Append(p, n, b, now, saves).0
    case TakeChain(chain, saves) => Adopt(p, n, chain, now, saves).0
    case Crash => Restart(n)
    case CrashInAppend(b) => Restart(Renamed(n, Append(p, n, b, now, true)))
    case CrashInAdopt(chain) => Restart(Renamed(n, Adopt(p, n, chain, now, true)))
  }

  // ---------------------------------------------------------------- the invariant

  ghost predicate ValidEntries(pool: Pool) {
    forall id | id in pool :: ValidTransaction(pool[id])
  }

  ghost predicate ValidPool(pool: Pool) {
    Keyed(pool) && |pool| <= MAX_PENDING && ValidEntries(pool)
  }

  ghost predicate Inv(p: Rules, n: Node, now: int) {
    && ValidChain(p, n.chain, now)
    && ValidPool(n.pool)
    && n.pool.Keys !! ChainIds(n.chain)
    && n.disk == n.chain
  }

  /** The IDs a node would refuse as known. */
  function Known(n: Node): set<Text> {
    ChainIds(n.chain) + n.pool.Keys
  }

  /** A refused append or adoption changes nothing: not the chain, the queue, the epoch
      or the file; an accepted one changes the epoch. */
  lemma RefusedAppend(p: Rules, n: Node, b: Block, now: int, saves: bool)
    requires n.chain != []
    ensures Append(p, n, b, now, saves).1 != Accepted <==> Append(p, n, b, now, saves).0 == n
  {
    hide ValidBlock, Extends, TxIds;
  }

  lemma RefusedAdopt(p: Rules, n: Node, candidate: seq<Block>, now: int, saves: bool)
    ensures Adopt(p, n, candidate, now, saves).1 != Accepted <==> Adopt(p, n, candidate, now, saves).0 == n
  {
    hide ValidChain, ReorgPool, BetterChain;
  }

  lemma RefusedSubmit(n: Node, tx: Transaction)
    ensures Submit(n, tx).1 != Accepted <==> Submit(n, tx).0 == n
  {
    hide ValidTransaction, ChainIds;
    assert tx.id in n.pool[tx.id := tx];
  }

  lemma FileMessage(pool: Pool, tx: Transaction)
    requires ValidPool(pool) && ValidTransaction(tx) && tx.id !in pool && |pool| < MAX_PENDING
    ensures ValidPool(pool[tx.id := tx]) && pool[tx.id := tx].Keys == pool.Keys + {tx.id}
  {
    hide ValidTransaction;
  }

  lemma PendingBounded(p: Rules, n: Node, now: int)
    requires Inv(p, n, now)
    ensures |n.pool| <= 1000
  {
    hide ValidLinks, ChainIds;
  }

  lemma SubmitExact(n: Node, tx: Transaction)
    ensures Submit(n, tx).1 == Accepted <==> ValidTransaction(tx) && tx.id !in Known(n) && |n.pool| < 1000
    ensures Submit(n, tx).0 == if Submit(n, tx).1 == Accepted then n.(pool := n.pool[tx.id := tx]) else n
  {
    hide ValidTransaction, ChainIds;
  }

  lemma SubmitFacts(p: Rules, n: Node, tx: Transaction, now: int)
    requires Inv(p, n, now)
    ensures Inv(p, Submit(n, tx).0, now)
    ensures Submit(n, tx).0.chain == n.chain && |n.pool| <= 1000
    ensures Submit(n, tx).1 == Accepted <==> ValidTransaction(tx) && tx.id !in Known(n) && |n.pool| < 1000
    ensures Submit(n, tx).1 == Accepted ==> Submit(n, tx).0.pool == n.pool[tx.id := tx]
    ensures Known(Submit(n, tx).0) == Known(n) + (if Submit(n, tx).1 == Accepted then {tx.id} else {})
  {
    hide Submit, Inv, Known, ValidTransaction;
    SubmitExact(n, tx);
    PendingBounded(p, n, now);
    if Submit(n, tx).1 == Accepted {
      FiledKeepsInv(p, n, tx, now);
      FiledKnown(n, tx);
    }
  }

  lemma FiledKeepsInv(p: Rules, n: Node, tx: Transaction, now: int)
    requires Inv(p, n, now) && ValidTransaction(tx) && tx.id !in Known(n) && |n.pool| < 1000
    ensures Inv(p, n.(pool := n.pool[tx.id := tx]), now)
  {
    hide ValidTransaction, ValidChain, ChainIds, ValidPool;
    FileMessage(n.pool, tx);
  }

  lemma FiledKnown(n: Node, tx: Transaction)
    ensures Known(n.(pool := n.pool[tx.id := tx])) == Known(n) + {tx.id}
  {
    hide ChainIds;
    assert n.pool[tx.id := tx].Keys == n.pool.Keys + {tx.id};
  }

  /** A block is accepted exactly if the longer chain is valid and can be saved, and it is
      stale exactly if it is right on its own but does not name the tip and its height. */
  lemma AppendStatusExact(p: Rules, chain: seq<Block>, b: Block, now: int, saves: bool)
    requires ValidChain(p, chain, now)
    ensures var err := AppendStatus(p, chain, b, now, saves);
      && (err == Accepted <==> ValidChain(p, chain + [b], now) && saves)
      && (err == SaveFailed <==> ValidChain(p, chain + [b], now) && !saves)
      && (err == StaleBlock <==> ValidBlock(p, b, now) && (b.index != |chain| || b.prevHash != Last(chain).hash))
      && (err == Invalid <==>
          || !ValidBlock(p, b, now)
          || (b.index == |chain| && b.prevHash == Last(chain).hash
              && (b.timestamp < Last(chain).timestamp || !(TxIds(b.transactions) !! ChainIds(chain)))))
  {
    IncrementalEqualsFull(p, chain, b, now);
    LastIndex(p, chain, now);
    hide ValidBlock, ValidLinks, TxIds, ChainIds, Messages;
  }

  lemma AppendExact(p: Rules, n: Node, b: Block, now: int, saves: bool)
    requires Inv(p, n, now)
    ensures n.chain != []
    ensures Append(p, n, b, now, saves).1 == Accepted <==> ValidChain(p, n.chain + [b], now) && saves
  {
    AppendStatusExact(p, n.chain, b, now, saves);
    hide AppendStatus, ValidLinks, TxIds;
  }

  lemma AppendFacts(p: Rules, n: Node, b: Block, now: int, saves: bool)
    requires Inv(p, n, now)
    ensures var r := Append(p, n, b, now, saves);
      && Inv(p, r.0, now)
      && Known(r.0) == Known(n) + (if r.1 == Accepted then TxIds(b.transactions) else {})
      && (r.1 == Accepted ==> r.0.chain == n.chain + [b] && |n.chain| == b.index)
  {
    IncrementalEqualsFull(p, n.chain, b, now);
    MessagesSnoc(n.chain, b);
    LastIndex(p, n.chain, now);
    hide ValidBlock, ValidChain, ChainIds, TxIds, Extends, Known, Inv;
    var r := Append(p, n, b, now, saves);
    if r.1 == Accepted {
      CommitAppend(p, n, b, now);
    }
  }

  lemma CommitAppend(p: Rules, n: Node, b: Block, now: int)
    requires Inv(p, n, now) && ValidChain(p, n.chain + [b], now)
    ensures var m := Commit(n, n.chain + [b], n.pool - TxIds(b.transactions));
      Inv(p, m, now) && Known(m) == Known(n) + TxIds(b.transactions)
  {
    MessagesSnoc(n.chain, b);
    SmallerPool(n.pool, TxIds(b.transactions));
    hide ValidChain, ValidTransaction, ChainIds, TxIds;
    var pool := n.pool - TxIds(b.transactions);
    assert pool.Keys == n.pool.Keys - TxIds(b.transactions);
  }

  lemma SmallerPool(pool: Pool, gone: set<Text>)
    ensures |pool - gone| <= |pool|
  {
    assert (pool - gone).Keys == pool.Keys - gone;
    SubsetSize(pool.Keys - gone, pool.Keys);
    assert |pool - gone| == |(pool - gone).Keys| && |pool| == |pool.Keys|;
  }

  lemma SubsetSize<T>(a: set<T>, b: set<T>)
    requires a <= b
    ensures |a| <= |b|
  {
    assert b == a + (b - a);
  }

  lemma LessPool(pool: Pool, gone: set<Text>)
    requires Keyed(pool) && ValidEntries(pool)
    ensures Keyed(pool - gone) && ValidEntries(pool - gone) && (pool - gone).Keys == pool.Keys - gone
  {
    hide ValidTransaction;
  }

  lemma OverlayValid(base: Pool, txs: seq<Transaction>, confirmed: set<Text>)
    requires AllValid(txs) && ValidEntries(base)
    ensures ValidEntries(Overlay(base, txs, confirmed))
  {
    hide ValidTransaction, Overlay;
    forall id | id in Overlay(base, txs, confirmed) ensures ValidTransaction(Overlay(base, txs, confirmed)[id]) {
      OverlayOrigin(base, txs, confirmed, id);
    }
  }

  lemma Reconciled(pool: Pool, txs: seq<Transaction>, confirmed: set<Text>)
    requires Keyed(pool) && ValidEntries(pool) && AllValid(txs)
    ensures var next := Overlay(pool - confirmed, txs, confirmed);
      Keyed(next) && ValidEntries(next) && next.Keys == TxIds(txs) + pool.Keys - confirmed
  {
    hide Overlay, TxIds, ValidEntries, AllValid, Keyed;
    LessPool(pool, confirmed);
    OverlayFacts(pool - confirmed, txs, confirmed);
    OverlayValid(pool - confirmed, txs, confirmed);
  }

  lemma ReorgFacts(p: Rules, n: Node, candidate: seq<Block>, now: int)
    requires Inv(p, n, now)
    ensures var next := ReorgPool(n.pool, n.chain, candidate);
      Keyed(next) && ValidEntries(next) && next.Keys == Known(n) - ChainIds(candidate)
  {
    ChainMessagesValid(p, n.chain, now);
    Reconciled(n.pool, Messages(n.chain), ChainIds(candidate));
    hide Overlay, TxIds, ValidEntries, AllValid, ValidChain, Messages, Keyed;
  }

  lemma ReorgKeyed(p: Rules, n: Node, candidate: seq<Block>, now: int)
    requires Inv(p, n, now)
    ensures Keyed(ReorgPool(n.pool, n.chain, candidate))
  {
    ReorgFacts(p, n, candidate, now);
  }

  lemma CommitAdopt(p: Rules, n: Node, candidate: seq<Block>, now: int)
    requires Inv(p, n, now) && ValidChain(p, candidate, now)
    requires |ReorgPool(n.pool, n.chain, candidate)| <= MAX_PENDING
    ensures var m := Commit(n, candidate, ReorgPool(n.pool, n.chain, candidate));
      Inv(p, m, now) && Known(m) == Known(n) + ChainIds(candidate)
  {
    ReorgFacts(p, n, candidate, now);
    hide ValidChain, ValidEntries, ReorgPool, ChainIds, Keyed;
  }

  lemma AdoptFacts(p: Rules, n: Node, candidate: seq<Block>, now: int, saves: bool)
    requires Inv(p, n, now)
    ensures var r := Adopt(p, n, candidate, now, saves);
      && Inv(p, r.0, now)
      && Known(r.0) == Known(n) + (if r.1 == Accepted then ChainIds(candidate) else {})
      && (r.1 == Accepted ==> r.0.chain == candidate && r.0.pool == ReorgPool(n.pool, n.chain, candidate))
      && (r.1 == Accepted <==>
          BetterChain(candidate, n.chain) && |ReorgPool(n.pool, n.chain, candidate)| <= 1000 && ValidChain(p, candidate, now) && saves)
  {
    hide ValidChain, ReorgPool, ChainIds, ValidPool, BetterChain, Known, Inv;
    if Adopt(p, n, candidate, now, saves).1 == Accepted {
      CommitAdopt(p, n, candidate, now);
    }
  }

  lemma SubmitKeepsInv(p: Rules, n: Node, tx: Transaction, now: int)
    requires Inv(p, n, now)
    ensures Inv(p, Submit(n, tx).0, now)
  {
    SubmitFacts(p, n, tx, now);
  }

  lemma AppendKeepsInv(p: Rules, n: Node, b: Block, now: int, saves: bool)
    requires Inv(p, n, now)
    ensures n.chain != [] && Inv(p, Append(p, n, b, now, saves).0, now)
  {
    AppendFacts(p, n, b, now, saves);
  }

  lemma AdoptKeepsInv(p: Rules, n: Node, candidate: seq<Block>, now: int, saves: bool)
    requires Inv(p, n, now)
    ensures Inv(p, Adopt(p, n, candidate, now, saves).0, now)
  {
    AdoptFacts(p, n, candidate, now, saves);
  }

  lemma InvMonotone(p: Rules, n: Node, now: int, later: int)
    requires Inv(p, n, now) && now <= later
    ensures Inv(p, n, later)
  {
    ValidChainMonotone(p, n.chain, now, later);
  }

  /** Whatever a node is sent, and wherever it crashes, the invariant holds again. */
  lemma StepKeepsInv(p: Rules, n: Node, s: Step, now: int, later: int)
    requires Inv(p, n, now) && now <= later
    ensures Inv(p, Next(p, n, s, later), later)
  {
    InvMonotone(p, n, now, later);
    NonemptyChain(p, n, now);
    hide Inv, Submit, Append, Adopt, Restart, Renamed;
    match s
    case TakeMessage(tx) => SubmitKeepsInv(p, n, tx, later);
    case TakeBlock(b, saves) => AppendKeepsInv(p, n, b, later, saves);
    case TakeChain(chain, saves) => AdoptKeepsInv(p, n, chain, later, saves);
    case Crash => RestartKeepsInv(p, n, later);
    case CrashInAppend(b) =>
      AppendKeepsInv(p, n, b, later, true);
      RenamedKeepsInv(p, n, Append(p, n, b, later, true), later);
    case CrashInAdopt(chain) =>
      AdoptKeepsInv(p, n, chain, later, true);
      RenamedKeepsInv(p, n, Adopt(p, n, chain, later, true), later);
  }

  lemma NonemptyChain(p: Rules, n: Node, now: int)
    requires Inv(p, n, now)
    ensures n.chain != []
  {
  }

  /** A process that starts on the file of one that stopped right after the rename. */
  lemma RenamedKeepsInv(p: Rules, n: Node, committed: (Node, Status), now: int)
    requires Inv(p, n, now) && Inv(p, committed.0, now)
    ensures Inv(p, Restart(Renamed(n, committed)), now)
  {
    RestartKeepsInv(p, n, now);
    RestartKeepsInv(p, committed.0, now);
    hide Inv;
  }

  lemma RestartKeepsInv(p: Rules, n: Node, now: int)
    requires Inv(p, n, now)
    ensures Inv(p, Restart(n), now)
    ensures Restart(n).pool == map[] && Restart(n).chain == n.disk && Known(Restart(n)) == ChainIds(n.disk)
  {
    hide ValidChain, ChainIds;
  }

  // ---------------------------------------------------------------- what one step gains

  /** The IDs a step makes known, beyond those known already. */
  function Gains(p: Rules, n: Node, s: Step, now: int): set<Text>
    requires n.chain != []
  {
    match s
    case TakeMessage(tx) => if Submit(n, tx).1 == Accepted then {tx.id} else {}
    case TakeBlock(b, saves) => if Append(p, n, b, now, saves).1 == Accepted then TxIds(b.transactions) else {}
    case TakeChain(chain, saves) => if Adopt(p, n, chain, now, saves).1 == Accepted then ChainIds(chain) else {}
    case _ => {}
  }

  /** Short of a crash no ID is ever lost, and none appears from nowhere. */
  lemma StepConservesIds(p: Rules, n: Node, s: Step, now: int, later: int)
    requires Inv(p, n, now) && now <= later && !IsCrash(s)
    ensures Known(Next(p, n, s, later)) == Known(n) + Gains(p, n, s, later)
  {
    InvMonotone(p, n, now, later);
    hide Known, Inv, Submit, Append, Adopt;
    match s
    case TakeMessage(tx) => SubmitFacts(p, n, tx, later);
    case TakeBlock(b, saves) => AppendFacts(p, n, b, later, saves);
    case TakeChain(chain, saves) => AdoptFacts(p, n, chain, later, saves);
  }

  /** `a` is `b` or is preferred to it. */
  predicate NoWorse(a: seq<Block>, b: seq<Block>) {
    a == b || BetterChain(a, b)
  }

  lemma NoWorseReflexive(a: seq<Block>)
    ensures NoWorse(a, a)
  {
  }

  lemma NoWorseTransitive(a: seq<Block>, b: seq<Block>, c: seq<Block>)
    requires NoWorse(a, b) && NoWorse(b, c)
    ensures NoWorse(a, c)
  {
    if a != b && b != c {
      BetterTransitive(a, b, c);
    }
  }

  /** Short of a crash the epoch moves by one exactly when the chain changes, and a
      changed chain is a better one; a crash keeps or improves the chain. */
  lemma StepAscends(p: Rules, n: Node, s: Step, now: int)
    requires n.chain != [] && n.disk == n.chain
    ensures NoWorse(Next(p, n, s, now).chain, n.chain)
    ensures !IsCrash(s) ==>
      var m := Next(p, n, s, now);
      if m.chain == n.chain then m.epoch == n.epoch else BetterChain(m.chain, n.chain) && m.epoch == n.epoch + 1
  {
    BetterIrreflexive(n.chain);
    hide ValidBlock, ValidChain, ReorgPool, ValidTransaction, Extends;
  }
}
