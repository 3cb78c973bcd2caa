/** A network of honest nodes. Packets may be delayed, duplicated, reordered and lost:
    whatever was ever sent may be received by anyone at any later time, any number of
    times. Nodes mine, gossip, synchronize, fail to save, crash and restart. */
module Network {
  import opened Entities
  import opened Models
  import opened Mempools
  import opened Nodes
  import opened NodeRuns

  datatype Packet =
    | MessagePacket(tx: Transaction)
    | BlockPacket(b: Block)
    | ChainPacket(chain: seq<Block>)

  /** Work a miner has taken and may still solve: for which node, on which chain. */
  datatype Work = Work(node: nat, base: seq<Block>, txs: seq<Transaction>)

  /** `mined` and `submitted` are history: the chains that arose when a mined block was
      committed by its own node, and the messages clients handed in. */
  datatype Net = Net(
    nodes: seq<Node>,
    sent: set<Packet>,
    works: set<Work>,
    clock: int,
    mined: set<seq<Block>>,
    submitted: set<Transaction>)

  datatype NetStep =
    | Tick(later: int)
    | ClientSubmits(i: nat, tx: Transaction)
    | TakesWork(i: nat)
    | MinerOffers(work: Work, own: Step)
    | ServesChain(i: nat)
    | ServesPool(i: nat)
    | Receives(i: nat, s: Step)

  // ---------------------------------------------------------------- steps

  /** The payload of a step, as a packet. */
  function Payload(s: Step): Option<Packet> {
    match s
    case TakeMessage(tx) => Some(MessagePacket(tx))
    case TakeBlock(b, _) => Some(BlockPacket(b))
    case TakeChain(chain, _) => Some(ChainPacket(chain))
    case Crash => None
    case CrashInAppend(b) => Some(BlockPacket(b))
    case CrashInAdopt(chain) => Some(ChainPacket(chain))
  }

  /** What a node forwards after a step: an accepted message, an appended block. */
  function Relays(p: Rules, n: Node, s: Step, now: int): set<Packet>
    requires n.chain != []
  {
    match s
    case TakeMessage(tx) => if Submit(n, tx).1 == Accepted then {MessagePacket(tx)} else {}
    case TakeBlock(b, saves) => if Append(p, n, b, now, saves).1 == Accepted then {BlockPacket(b)} else {}
    case _ => {}
  }

  /** A node forwards what it was handed exactly if that changed it, chains apart. */
  lemma RelaysExact(p: Rules, n: Node, s: Step, now: int)
    requires n.chain != []
    ensures Relays(p, n, s, now) ==
      if (s.TakeMessage? || s.TakeBlock?) && Next(p, n, s, now) != n then {Payload(s).value} else {}
  {
    match s
    case TakeMessage(tx) => RefusedSubmit(n, tx);
    case TakeBlock(b, saves) => RefusedAppend(p, n, b, now, saves);
    case _ =>
    hide Submit, Append, Adopt;
  }

  function StepNode(p: Rules, net: Net, i: nat, s: Step): Net
    requires i < |net.nodes| && net.nodes[i].chain != []
  {
    net.(nodes := net.nodes[i := Next(p, net.nodes[i], s, net.clock)],
         sent := net.sent + Relays(p, net.nodes[i], s, net.clock))
  }

  /** `b` is a solution of the work: its messages on its parent. */
  predicate Solution(p: Rules, w: Work, b: Block) {
    w.base != [] && b.prevHash == Last(w.base).hash && b.transactions == w.txs && ValidWork(p, b)
  }

  /** The block in a step by which a miner hands its block to its own node. */
  function OwnBlock(s: Step): Option<Block> {
    match s
    case TakeBlock(b, _) => Some(b)
    case CrashInAppend(b) => Some(b)
    case _ => None
  }

  ghost predicate Enabled(p: Rules, net: Net, s: NetStep) {
    match s
    case Tick(later) => net.clock <= later
    case ClientSubmits(i, tx) => i < |net.nodes| && net.nodes[i].chain != []
    case TakesWork(i) => i < |net.nodes| && Keyed(net.nodes[i].pool)
    case MinerOffers(w, own) =>
      && w in net.works && w.node < |net.nodes| && net.nodes[w.node].chain != []
      && OwnBlock(own).Some? && Solution(p, w, OwnBlock(own).value)
    case ServesChain(i) => i < |net.nodes|
    case ServesPool(i) => i < |net.nodes|
    case Receives(i, r) => i < |net.nodes| && net.nodes[i].chain != [] && (Payload(r).Some? ==> Payload(r).value in net.sent)
  }

  ghost function NetNext(p: Rules, net: Net, s: NetStep): Net
    requires Enabled(p, net, s)
  {
    match s
    case Tick(later) => net.(clock := later)
    case ClientSubmits(i, tx) => StepNode(p, net.(submitted := net.submitted + {tx}), i, TakeMessage(tx))
    case TakesWork(i) => net.(works := net.works + {Work(i, net.nodes[i].chain, WorkOf(net.nodes[i]))})
    case MinerOffers(w, own) =>
      var after := StepNode(p, net, w.node, own);
      after.(mined := net.mined + {after.nodes[w.node].chain})
    case ServesChain(i) => net.(sent := net.sent + {ChainPacket(net.nodes[i].chain)})
    case ServesPool(i) => net.(sent := net.sent + set id | id in net.nodes[i].pool :: MessagePacket(net.nodes[i].pool[id]))
    case Receives(i, r) => StepNode(p, net, i, r)
  }

  // ---------------------------------------------------------------- where things come from

  ghost predicate MessagesFrom(txs: seq<Transaction>, submitted: set<Transaction>) {
    forall t | t in txs :: t in submitted
  }

  ghost predicate PoolFrom(pool: Pool, submitted: set<Transaction>) {
    forall id | id in pool :: pool[id] in submitted
  }

  function Parent(chain: seq<Block>): seq<Block>
    requires chain != []
  {
    chain[..|chain| - 1]
  }

  /** A chain with a history: valid, grown block by block, of submitted messages. */
  ghost predicate ChainOk(p: Rules, chain: seq<Block>, mined: set<seq<Block>>, submitted: set<Transaction>, now: int) {
    && ValidChain(p, chain, now)
    && MessagesFrom(Messages(chain), submitted)
    && (|chain| > 1 ==> Parent(chain) in mined)
  }

  ghost predicate MinedOk(p: Rules, mined: set<seq<Block>>, submitted: set<Transaction>, now: int) {
    forall c | c in mined :: ChainOk(p, c, mined, submitted, now)
  }

  ghost predicate EndsIn(chain: seq<Block>, b: Block) {
    |chain| > 1 && Last(chain) == b
  }

  ghost predicate PacketOk(k: Packet, mined: set<seq<Block>>, submitted: set<Transaction>) {
    match k
    case MessagePacket(tx) => tx in submitted
    case BlockPacket(b) => exists c :: c in mined && EndsIn(c, b)
    case ChainPacket(c) => c in mined
  }

  ghost predicate SentOk(sent: set<Packet>, mined: set<seq<Block>>, submitted: set<Transaction>) {
    forall k | k in sent :: PacketOk(k, mined, submitted)
  }

  ghost predicate NodeOk(p: Rules, n: Node, mined: set<seq<Block>>, submitted: set<Transaction>, now: int) {
    Inv(p, n, now) && n.chain in mined && PoolFrom(n.pool, submitted)
  }

  ghost predicate NodesOk(p: Rules, net: Net) {
    forall i | 0 <= i < |net.nodes| :: NodeOk(p, net.nodes[i], net.mined, net.submitted, net.clock)
  }

  ghost predicate WorkOk(w: Work, mined: set<seq<Block>>, submitted: set<Transaction>) {
    w.base in mined && MessagesFrom(w.txs, submitted)
  }

  ghost predicate WorksOk(net: Net) {
    forall w | w in net.works :: WorkOk(w, net.mined, net.submitted)
  }

  /** Some node holds a chain no worse than `c`. */
  ghost predicate Held(nodes: seq<Node>, c: seq<Block>) {
    exists i :: 0 <= i < |nodes| && NoWorse(nodes[i].chain, c)
  }

  ghost predicate MinedHeld(net: Net) {
    forall c | c in net.mined :: Held(net.nodes, c)
  }

  ghost predicate NetInv(p: Rules, net: Net) {
    && NodesOk(p, net)
    && MinedOk(p, net.mined, net.submitted, net.clock)
    && SentOk(net.sent, net.mined, net.submitted)
    && WorksOk(net)
    && MinedHeld(net)
  }

  ghost function BlocksIn(mined: set<seq<Block>>): set<Block> {
    set c, b | c in mined && b in c :: b
  }

  lemma BlocksInMono(small: set<seq<Block>>, large: set<seq<Block>>)
    requires small <= large
    ensures BlocksIn(small) <= BlocksIn(large)
  {
  }

  lemma FewerCollisions(p: Rules, small: set<Block>, large: set<Block>)
    requires small <= large && NoCollision(p, large)
    ensures NoCollision(p, small)
  {
  }

  // ---------------------------------------------------------------- blocks find their chain

  lemma LastLink(p: Rules, chain: seq<Block>, now: int)
    requires ValidChain(p, chain, now) && |chain| > 1
    ensures Last(chain).prevHash == Last(Parent(chain)).hash
    ensures chain == Parent(chain) + [Last(chain)]
  {
    hide ValidBlock;
    assert ValidLink(p, chain, |chain| - 1, now);
  }

  /** A block that some miner's node committed as the tip of `mother` is appended by
      another node only to the chain the miner extended: nobody ends up with a chain that
      was not mined as a whole. */
  lemma BlockFindsItsChain(p: Rules, mined: set<seq<Block>>, submitted: set<Transaction>, now: int,
                           n: Node, mother: seq<Block>, b: Block, saves: bool)
    requires MinedOk(p, mined, submitted, now) && NoCollision(p, BlocksIn(mined))
    requires n.chain in mined && mother in mined && EndsIn(mother, b)
    ensures n.chain != []
    ensures Append(p, n, b, now, saves).1 == Accepted ==> n.chain == Parent(mother) && n.chain + [b] == mother
  {
    hide ValidChain, Messages, ValidBlock, MessagesFrom;
    assert ChainOk(p, n.chain, mined, submitted, now) && ChainOk(p, mother, mined, submitted, now);
    ValidNonempty(p, n.chain, now);
    if Append(p, n, b, now, saves).1 == Accepted {
      LastLink(p, mother, now);
      var base := Parent(mother);
      assert ChainOk(p, base, mined, submitted, now);
      TipDeterminesChain(p, n.chain, base, now, BlocksIn(mined));
    }
  }

  lemma ValidNonempty(p: Rules, chain: seq<Block>, now: int)
    requires ValidChain(p, chain, now)
    ensures chain != []
  {
  }

  // ---------------------------------------------------------------- one node

  lemma PoolFromReorg(pool: Pool, chain: seq<Block>, candidate: seq<Block>, submitted: set<Transaction>)
    requires PoolFrom(pool, submitted) && MessagesFrom(Messages(chain), submitted)
    ensures PoolFrom(ReorgPool(pool, chain, candidate), submitted)
  {
    var next := ReorgPool(pool, chain, candidate);
    hide Messages, ChainIds, Overlay;
    forall id | id in next ensures next[id] in submitted {
      OverlayOrigin(pool - ChainIds(candidate), Messages(chain), ChainIds(candidate), id);
    }
  }

  lemma SubmitFrom(n: Node, tx: Transaction, submitted: set<Transaction>)
    requires PoolFrom(n.pool, submitted) && tx in submitted
    ensures PoolFrom(Submit(n, tx).0.pool, submitted)
  {
    hide ValidTransaction, ChainIds;
  }

  lemma AppendFrom(p: Rules, n: Node, b: Block, now: int, saves: bool, submitted: set<Transaction>)
    requires n.chain != [] && PoolFrom(n.pool, submitted)
    ensures PoolFrom(Append(p, n, b, now, saves).0.pool, submitted)
  {
    hide ValidBlock, Extends, TxIds, AppendStatus;
  }

  lemma AdoptFrom(p: Rules, n: Node, c: seq<Block>, now: int, saves: bool, submitted: set<Transaction>)
    requires PoolFrom(n.pool, submitted) && MessagesFrom(Messages(n.chain), submitted)
    ensures PoolFrom(Adopt(p, n, c, now, saves).0.pool, submitted)
  {
    PoolFromReorg(n.pool, n.chain, c, submitted);
    hide ValidChain, BetterChain, ReorgPool, Messages;
  }

  /** Whatever honest packet a node receives, its chain stays among those mined and its
      messages among those submitted. */
  lemma NodeStepOk(p: Rules, n: Node, s: Step, mined: set<seq<Block>>, submitted: set<Transaction>, now: int)
    requires NodeOk(p, n, mined, submitted, now) && MinedOk(p, mined, submitted, now) && NoCollision(p, BlocksIn(mined))
    requires Payload(s).Some? ==> PacketOk(Payload(s).value, mined, submitted)
    ensures n.chain != [] && NodeOk(p, Next(p, n, s, now), mined, submitted, now)
  {
    InvFacts(p, n, now);
    StepKeepsInv(p, n, s, now, now);
    assert ChainOk(p, n.chain, mined, submitted, now);
    hide Inv, MinedOk, ValidChain, Messages, Submit, Append, Adopt, PoolFrom, NoCollision;
    match s
    case TakeMessage(tx) =>
      SubmitFrom(n, tx, submitted);
      SubmitKeepsChain(n, tx);
    case TakeBlock(b, saves) => BlockStepOk(p, n, b, saves, mined, submitted, now);
    case TakeChain(c, saves) => ChainStepOk(p, n, c, saves, mined, submitted, now);
    case Crash => EmptyPoolFrom(submitted);
    case CrashInAppend(b) =>
      BlockStepOk(p, n, b, true, mined, submitted, now);
      EmptyPoolFrom(submitted);
    case CrashInAdopt(c) =>
      ChainStepOk(p, n, c, true, mined, submitted, now);
      EmptyPoolFrom(submitted);
  }

  lemma EmptyPoolFrom(submitted: set<Transaction>)
    ensures PoolFrom(map[], submitted)
  {
  }

  lemma SubmitKeepsChain(n: Node, tx: Transaction)
    ensures Submit(n, tx).0.chain == n.chain
  {
    hide ValidTransaction, ChainIds;
  }

  lemma InvFacts(p: Rules, n: Node, now: int)
    requires Inv(p, n, now)
    ensures n.chain != [] && n.disk == n.chain && Keyed(n.pool)
  {
  }

  /** A step that takes or nearly takes a block or chain leaves the old or the new one. */
  ghost predicate ChainWithin(m: Node, mined: set<seq<Block>>) {
    m.chain in mined && m.disk in mined
  }

  lemma BlockStepOk(p: Rules, n: Node, b: Block, saves: bool, mined: set<seq<Block>>, submitted: set<Transaction>, now: int)
    requires NodeOk(p, n, mined, submitted, now) && MinedOk(p, mined, submitted, now) && NoCollision(p, BlocksIn(mined))
    requires PacketOk(BlockPacket(b), mined, submitted)
    ensures n.chain != []
    ensures var m := Append(p, n, b, now, saves).0; ChainWithin(m, mined) && PoolFrom(m.pool, submitted)
  {
    InvFacts(p, n, now);
    AppendFrom(p, n, b, now, saves, submitted);
    hide Inv, MinedOk, PoolFrom, NoCollision, AppendStatus, TxIds;
    var mother :| mother in mined && EndsIn(mother, b);
    BlockFindsItsChain(p, mined, submitted, now, n, mother, b, saves);
  }

  lemma ChainStepOk(p: Rules, n: Node, c: seq<Block>, saves: bool, mined: set<seq<Block>>, submitted: set<Transaction>, now: int)
    requires NodeOk(p, n, mined, submitted, now) && MinedOk(p, mined, submitted, now) && c in mined
    ensures var m := Adopt(p, n, c, now, saves).0; ChainWithin(m, mined) && PoolFrom(m.pool, submitted)
  {
    InvFacts(p, n, now);
    assert ChainOk(p, n.chain, mined, submitted, now);
    AdoptFrom(p, n, c, now, saves, submitted);
    hide Inv, MinedOk, PoolFrom, ReorgPool, ValidChain, BetterChain, Messages;
  }

  // ---------------------------------------------------------------- the whole network

  ghost predicate NetOk(p: Rules, net: Net) {
    && NodesOk(p, net)
    && MinedOk(p, net.mined, net.submitted, net.clock)
    && SentOk(net.sent, net.mined, net.submitted)
    && WorksOk(net)
  }

  lemma StepNodeOk(p: Rules, net: Net, i: nat, s: Step)
    requires NetOk(p, net) && i < |net.nodes| && net.nodes[i].chain != []
    requires NodeOk(p, Next(p, net.nodes[i], s, net.clock), net.mined, net.submitted, net.clock)
    requires SentOk(Relays(p, net.nodes[i], s, net.clock), net.mined, net.submitted)
    ensures NetOk(p, StepNode(p, net, i, s))
  {
    hide NodeOk, MinedOk, PacketOk, WorkOk, Next, Relays;
    var after := StepNode(p, net, i, s);
    assert NodesOk(p, after);
    assert SentOk(after.sent, after.mined, after.submitted);
    assert WorksOk(after);
  }

  lemma RelaysOk(p: Rules, n: Node, s: Step, now: int, mined: set<seq<Block>>, submitted: set<Transaction>)
    requires n.chain != []
    requires Payload(s).Some? ==> PacketOk(Payload(s).value, mined, submitted)
    ensures SentOk(Relays(p, n, s, now), mined, submitted)
  {
    hide PacketOk, Submit, Append;
  }

  lemma StepNodeHeld(p: Rules, net: Net, i: nat, s: Step, c: seq<Block>)
    requires NodesOk(p, net) && i < |net.nodes| && net.nodes[i].chain != [] && Held(net.nodes, c)
    ensures Held(StepNode(p, net, i, s).nodes, c)
  {
    hide Inv, NoWorse, Next, Relays, PoolFrom;
    var j :| 0 <= j < |net.nodes| && NoWorse(net.nodes[j].chain, c);
    var after := StepNode(p, net, i, s).nodes;
    if j == i {
      assert NodeOk(p, net.nodes[i], net.mined, net.submitted, net.clock);
      OneStepAscends(p, net.nodes[i], s, net.clock, net.clock);
      NoWorseTransitive(after[i].chain, net.nodes[i].chain, c);
    }
    assert NoWorse(after[j].chain, c);
  }

  lemma ChainOkMono(p: Rules, c: seq<Block>, mined: set<seq<Block>>, more: set<seq<Block>>,
                    submitted: set<Transaction>, others: set<Transaction>, now: int, later: int)
    requires ChainOk(p, c, mined, submitted, now) && mined <= more && submitted <= others && now <= later
    ensures ChainOk(p, c, more, others, later)
  {
    ValidChainMonotone(p, c, now, later);
    hide ValidChain, Messages;
  }

  lemma PacketOkMono(k: Packet, mined: set<seq<Block>>, more: set<seq<Block>>, submitted: set<Transaction>, others: set<Transaction>)
    requires PacketOk(k, mined, submitted) && mined <= more && submitted <= others
    ensures PacketOk(k, more, others)
  {
    hide EndsIn;
    match k
    case BlockPacket(b) =>
      var c :| c in mined && EndsIn(c, b);
      assert c in more;
    case _ =>
  }

  lemma NodeOkMono(p: Rules, n: Node, mined: set<seq<Block>>, more: set<seq<Block>>,
                   submitted: set<Transaction>, others: set<Transaction>, now: int, later: int)
    requires NodeOk(p, n, mined, submitted, now) && mined <= more && submitted <= others && now <= later
    ensures NodeOk(p, n, more, others, later)
  {
    InvMonotone(p, n, now, later);
    hide Inv;
  }

  /** The history only grows, and what held of it goes on holding. */
  lemma HistoryGrows(p: Rules, net: Net, more: set<seq<Block>>, others: set<Transaction>, later: int)
    requires NetOk(p, net) && net.mined <= more && net.submitted <= others && net.clock <= later
    requires forall c | c in more - net.mined :: ChainOk(p, c, more, others, later)
    ensures NetOk(p, net.(mined := more, submitted := others, clock := later))
  {
    hide NodeOk, ChainOk, PacketOk;
    var after := net.(mined := more, submitted := others, clock := later);
    forall i | 0 <= i < |net.nodes| ensures NodeOk(p, net.nodes[i], more, others, later) {
      NodeOkMono(p, net.nodes[i], net.mined, more, net.submitted, others, net.clock, later);
    }
    forall c | c in more ensures ChainOk(p, c, more, others, later) {
      if c in net.mined {
        ChainOkMono(p, c, net.mined, more, net.submitted, others, net.clock, later);
      }
    }
    forall k | k in net.sent ensures PacketOk(k, more, others) {
      PacketOkMono(k, net.mined, more, net.submitted, others);
    }
    assert NodesOk(p, after) && WorksOk(after);
  }

  /** A node takes a packet that was sent. */
  lemma ReceiveOk(p: Rules, net: Net, i: nat, s: Step)
    requires NetOk(p, net) && i < |net.nodes| && NoCollision(p, BlocksIn(net.mined))
    requires Payload(s).Some? ==> PacketOk(Payload(s).value, net.mined, net.submitted)
    ensures net.nodes[i].chain != [] && NetOk(p, StepNode(p, net, i, s))
  {
    hide NodeOk, MinedOk, PacketOk, WorksOk, SentOk, Next, Relays, NoCollision, BlocksIn;
    NodeStepOk(p, net.nodes[i], s, net.mined, net.submitted, net.clock);
    RelaysOk(p, net.nodes[i], s, net.clock, net.mined, net.submitted);
    StepNodeOk(p, net, i, s);
  }

  /** Whether a miner's step commits its block, and the node before a possible restart. */
  ghost predicate Commits(p: Rules, n: Node, own: Step, now: int)
    requires n.chain != [] && OwnBlock(own).Some?
  {
    AppendStatus(p, n.chain, OwnBlock(own).value, now, own.CrashInAppend? || own.saves) == Accepted
  }

  lemma OwnStepChain(p: Rules, n: Node, own: Step, now: int)
    requires Inv(p, n, now) && OwnBlock(own).Some?
    ensures n.chain != []
    ensures Next(p, n, own, now).chain == if Commits(p, n, own, now) then n.chain + [OwnBlock(own).value] else n.chain
    ensures !Commits(p, n, own, now) ==> Relays(p, n, own, now) == {} && Next(p, n, own, now) in {n, Restart(n)}
  {
    InvFacts(p, n, now);
    hide Inv, AppendStatus, TxIds;
  }

  /** A block mined on the work of a node makes a chain with a history when it is committed. */
  lemma MinedChainOk(p: Rules, n: Node, own: Step, w: Work, mined: set<seq<Block>>, submitted: set<Transaction>, now: int)
    requires NodeOk(p, n, mined, submitted, now) && MinedOk(p, mined, submitted, now) && WorkOk(w, mined, submitted)
    requires OwnBlock(own).Some? && Solution(p, w, OwnBlock(own).value)
    ensures n.chain != []
    ensures Commits(p, n, own, now) ==> ChainOk(p, n.chain + [OwnBlock(own).value], mined, submitted, now)
  {
    InvFacts(p, n, now);
    var b := OwnBlock(own).value;
    assert ChainOk(p, n.chain, mined, submitted, now);
    AppendFacts(p, n, b, now, own.CrashInAppend? || own.saves);
    MessagesSnoc(n.chain, b);
    hide MinedOk, ValidLinks, ValidPool, AppendStatus, TxIds, ChainIds, ValidWork, Messages;
    assert Parent(n.chain + [b]) == n.chain;
  }

  lemma MinerOk(p: Rules, net: Net, w: Work, own: Step)
    requires NetOk(p, net) && Enabled(p, net, MinerOffers(w, own))
    requires NoCollision(p, BlocksIn(NetNext(p, net, MinerOffers(w, own)).mined))
    ensures NetOk(p, NetNext(p, net, MinerOffers(w, own)))
  {
    hide Inv, MinedOk, PacketOk, Next, Relays, NoCollision, BlocksIn, Commits, PoolFrom, Solution, ValidWork;
    var i, n, b := w.node, net.nodes[w.node], OwnBlock(own).value;
    assert NodeOk(p, n, net.mined, net.submitted, net.clock) && WorkOk(w, net.mined, net.submitted);
    OwnStepChain(p, n, own, net.clock);
    var grown := Next(p, n, own, net.clock).chain;
    if Commits(p, n, own, net.clock) {
      MinedChainOk(p, n, own, w, net.mined, net.submitted, net.clock);
      ChainOkMono(p, grown, net.mined, net.mined + {grown}, net.submitted, net.submitted, net.clock, net.clock);
      HistoryGrows(p, net, net.mined + {grown}, net.submitted, net.clock);
      assert EndsIn(grown, b);
      OwnPacketOk(b, grown, net.mined + {grown}, net.submitted);
      ReceiveOk(p, net.(mined := net.mined + {grown}), i, own);
    } else {
      RefusedOk(p, net, i, own);
      assert net.mined + {grown} == net.mined;
    }
  }

  lemma OwnPacketOk(b: Block, c: seq<Block>, mined: set<seq<Block>>, submitted: set<Transaction>)
    requires c in mined && EndsIn(c, b)
    ensures PacketOk(BlockPacket(b), mined, submitted)
  {
  }

  lemma RefusedOk(p: Rules, net: Net, i: nat, own: Step)
    requires NetOk(p, net) && i < |net.nodes| && net.nodes[i].chain != []
    requires Relays(p, net.nodes[i], own, net.clock) == {}
    requires Next(p, net.nodes[i], own, net.clock) in {net.nodes[i], Restart(net.nodes[i])}
    ensures NetOk(p, StepNode(p, net, i, own))
  {
    hide MinedOk, Next, Relays, PacketOk, WorksOk, Inv, PoolFrom;
    var n := net.nodes[i];
    assert NodeOk(p, n, net.mined, net.submitted, net.clock);
    InvFacts(p, n, net.clock);
    RestartKeepsInv(p, n, net.clock);
    EmptyPoolFrom(net.submitted);
    StepNodeOk(p, net, i, own);
  }

  lemma WorkMessages(n: Node)
    requires Keyed(n.pool)
    ensures forall t | t in WorkOf(n) :: t.id in n.pool && n.pool[t.id] == t
  {
    var pending := Listing(n.pool);
    assert forall t | t in WorkOf(n) :: t in pending;
  }

  /** Every step of the network keeps every chain among those mined, and every message
      among those submitted. */
  lemma NetStepOk(p: Rules, net: Net, s: NetStep)
    requires NetOk(p, net) && Enabled(p, net, s)
    requires NoCollision(p, BlocksIn(NetNext(p, net, s).mined))
    ensures NetOk(p, NetNext(p, net, s))
  {
    hide Inv, MinedOk, Next, Relays, NoCollision, BlocksIn, PoolFrom, ChainOk;
    match s
    case Tick(later) => HistoryGrows(p, net, net.mined, net.submitted, later);
    case ClientSubmits(i, tx) =>
      HistoryGrows(p, net, net.mined, net.submitted + {tx}, net.clock);
      ReceiveOk(p, net.(submitted := net.submitted + {tx}), i, TakeMessage(tx));
    case TakesWork(i) => TakeWorkOk(p, net, i);
    case MinerOffers(w, own) => MinerOk(p, net, w, own);
    case ServesChain(i) => ServeOk(p, net, i, {ChainPacket(net.nodes[i].chain)});
    case ServesPool(i) => ServeOk(p, net, i, set id | id in net.nodes[i].pool :: MessagePacket(net.nodes[i].pool[id]));
    case Receives(i, r) => ReceiveOk(p, net, i, r);
  }

  lemma TakeWorkOk(p: Rules, net: Net, i: nat)
    requires NetOk(p, net) && i < |net.nodes| && Keyed(net.nodes[i].pool)
    ensures NetOk(p, NetNext(p, net, TakesWork(i)))
  {
    assert NodeOk(p, net.nodes[i], net.mined, net.submitted, net.clock);
    WorkMessages(net.nodes[i]);
    hide Inv, MinedOk, PacketOk, WorkOf;
    var w := Work(i, net.nodes[i].chain, WorkOf(net.nodes[i]));
    assert WorkOk(w, net.mined, net.submitted);
    assert NodesOk(p, NetNext(p, net, TakesWork(i)));
  }

  /** Packets made of a node's own chain or pending messages. */
  lemma ServeOk(p: Rules, net: Net, i: nat, packets: set<Packet>)
    requires NetOk(p, net) && i < |net.nodes|
    requires packets == {ChainPacket(net.nodes[i].chain)}
      || packets == set id | id in net.nodes[i].pool :: MessagePacket(net.nodes[i].pool[id])
    ensures NetOk(p, net.(sent := net.sent + packets))
  {
    assert NodeOk(p, net.nodes[i], net.mined, net.submitted, net.clock);
    hide Inv, MinedOk;
    assert forall k | k in packets :: PacketOk(k, net.mined, net.submitted);
    hide PacketOk;
    assert NodesOk(p, net.(sent := net.sent + packets));
    assert WorksOk(net.(sent := net.sent + packets));
  }

  lemma NetStepHeld(p: Rules, net: Net, s: NetStep)
    requires NetOk(p, net) && MinedHeld(net) && Enabled(p, net, s)
    ensures MinedHeld(NetNext(p, net, s))
  {
    hide Inv, MinedOk, SentOk, WorksOk, Next, Relays, NoWorse, PoolFrom, Solution;
    var after := NetNext(p, net, s);
    forall c | c in after.mined ensures Held(after.nodes, c) {
      match s
      case Tick(_) =>
      case ClientSubmits(i, tx) =>
        StepNodeSame(p, net, net.(submitted := net.submitted + {tx}), i, TakeMessage(tx));
        StepNodeHeld(p, net, i, TakeMessage(tx), c);
      case TakesWork(_) =>
      case MinerOffers(w, own) =>
        if c in net.mined {
          StepNodeHeld(p, net, w.node, own, c);
        } else {
          NoWorseReflexive(c);
        }
      case ServesChain(_) =>
      case ServesPool(_) =>
      case Receives(i, r) => StepNodeHeld(p, net, i, r, c);
    }
  }

  lemma StepNodeSame(p: Rules, a: Net, b: Net, i: nat, s: Step)
    requires a.nodes == b.nodes && a.clock == b.clock && i < |a.nodes| && a.nodes[i].chain != []
    ensures StepNode(p, a, i, s).nodes == StepNode(p, b, i, s).nodes
  {
  }

  lemma NetStepKeepsInv(p: Rules, net: Net, s: NetStep)
    requires NetInv(p, net) && Enabled(p, net, s)
    requires NoCollision(p, BlocksIn(NetNext(p, net, s).mined))
    ensures NetInv(p, NetNext(p, net, s))
  {
    hide NodesOk, MinedOk, SentOk, WorksOk, MinedHeld, NetNext, NoCollision, BlocksIn;
    assert NetOk(p, net);
    NetStepOk(p, net, s);
    NetStepHeld(p, net, s);
  }

  // ---------------------------------------------------------------- runs

  datatype NetRun = NetRun(nets: seq<Net>, steps: seq<NetStep>)

  ghost predicate NetStepAt(p: Rules, r: NetRun, k: nat)
    requires |r.nets| == |r.steps| + 1 && k < |r.steps|
  {
    Enabled(p, r.nets[k], r.steps[k]) && r.nets[k + 1] == NetNext(p, r.nets[k], r.steps[k])
  }

  ghost predicate IsNetRun(p: Rules, r: NetRun) {
    |r.nets| == |r.steps| + 1 && forall k: nat | k < |r.steps| :: NetStepAt(p, r, k)
  }

  /** `n` new nodes and nothing sent. */
  function FirstNet(p: Rules, n: nat, clock: int): Net {
    var genesis := [CreateGenesisBlock(p)];
    Net(seq(n, i => Node(genesis, map[], 0, genesis)), {}, {}, clock, {genesis}, {})
  }

  lemma FirstNetInv(p: Rules, n: nat, clock: int)
    requires CheckDifficulty(p.difficulty) && n > 0
    ensures NetInv(p, FirstNet(p, n, clock))
  {
    var net := FirstNet(p, n, clock);
    var genesis := [CreateGenesisBlock(p)];
    GenesisValid(p, clock);
    MessagesSnoc([], CreateGenesisBlock(p));
    assert [] + [CreateGenesisBlock(p)] == genesis;
    NoWorseReflexive(genesis);
    hide ValidChain, NoWorse, CreateGenesisBlock, Messages;
    assert ChainOk(p, genesis, net.mined, {}, clock);
    forall i | 0 <= i < n ensures NodeOk(p, net.nodes[i], net.mined, {}, clock) {
    }
    assert NoWorse(net.nodes[0].chain, genesis);
  }

  lemma {:induction false} MinedGrows(p: Rules, r: NetRun, i: nat, j: nat)
    requires IsNetRun(p, r) && i <= j < |r.nets|
    ensures r.nets[i].mined <= r.nets[j].mined && r.nets[i].submitted <= r.nets[j].submitted
    ensures |r.nets[i].nodes| == |r.nets[j].nodes| && r.nets[i].clock <= r.nets[j].clock
    ensures r.nets[i].sent <= r.nets[j].sent
  {
    if i < j {
      MinedGrows(p, r, i, j - 1);
      assert NetStepAt(p, r, j - 1);
      OneStepGrows(p, r.nets[j - 1], r.steps[j - 1]);
    }
  }

  lemma OneStepGrows(p: Rules, net: Net, s: NetStep)
    requires Enabled(p, net, s)
    ensures var after := NetNext(p, net, s);
      && net.mined <= after.mined && net.submitted <= after.submitted && net.sent <= after.sent
      && |net.nodes| == |after.nodes| && net.clock <= after.clock
  {
    hide Next, Relays, Solution;
  }

  /** What a peer has served can arrive at any node at any later time: its chain as it was
      then, and every message it had pending. */
  lemma ServedCanArrive(p: Rules, r: NetRun, u: nat, v: nat, i: nat, j: nat, saves: bool)
    requires IsNetRun(p, r) && u < v < |r.nets| && i < |r.nets[v].nodes| && r.nets[v].nodes[i].chain != []
    requires r.steps[u] == ServesChain(j) || r.steps[u] == ServesPool(j)
    ensures j < |r.nets[u].nodes|
    ensures r.steps[u] == ServesChain(j) ==> Enabled(p, r.nets[v], Receives(i, TakeChain(r.nets[u].nodes[j].chain, saves)))
    ensures r.steps[u] == ServesPool(j) ==>
      forall id | id in r.nets[u].nodes[j].pool ::
        Enabled(p, r.nets[v], Receives(i, TakeMessage(r.nets[u].nodes[j].pool[id])))
  {
    assert NetStepAt(p, r, u);
    MinedGrows(p, r, u + 1, v);
  }

  /** In a run of honest nodes in which no two of the mined headers collide, every chain on
      any node, disk or wire was mined as a whole (so nothing but mined chains and their
      beginnings exists), and every message in any chain, queue or packet is one that a
      client submitted, with its data and timestamp. */
  lemma {:induction false} RunProvenance(p: Rules, r: NetRun, k: nat)
    requires IsNetRun(p, r) && k < |r.nets| && NetInv(p, r.nets[0])
    requires NoCollision(p, BlocksIn(r.nets[k].mined))
    ensures NetInv(p, r.nets[k])
  {
    hide NetInv, NetNext, Enabled, NoCollision;
    if k > 0 {
      MinedGrows(p, r, k - 1, k);
      BlocksInMono(r.nets[k - 1].mined, r.nets[k].mined);
      FewerCollisions(p, BlocksIn(r.nets[k - 1].mined), BlocksIn(r.nets[k].mined));
      RunProvenance(p, r, k - 1);
      assert NetStepAt(p, r, k - 1);
      NetStepKeepsInv(p, r.nets[k - 1], r.steps[k - 1]);
    }
  }

  /** The same, spelled out for one node. */
  lemma NodeProvenance(p: Rules, r: NetRun, k: nat, i: nat)
    requires IsNetRun(p, r) && k < |r.nets| && NetInv(p, r.nets[0]) && i < |r.nets[k].nodes|
    requires NoCollision(p, BlocksIn(r.nets[k].mined))
    ensures var net := r.nets[k];
      var n := net.nodes[i];
      && n.chain in net.mined && n.disk in net.mined && ValidChain(p, n.chain, net.clock)
      && (forall t | t in Messages(n.chain) :: t in net.submitted)
      && (forall id | id in n.pool :: n.pool[id] in net.submitted)
      && (forall c | c in net.mined && |c| > 1 :: Parent(c) in net.mined)
  {
    RunProvenance(p, r, k);
    var net := r.nets[k];
    hide ValidChain, Messages, IsNetRun, NoCollision;
    assert NodeOk(p, net.nodes[i], net.mined, net.submitted, net.clock);
    assert ChainOk(p, net.nodes[i].chain, net.mined, net.submitted, net.clock);
    forall c | c in net.mined && |c| > 1 ensures Parent(c) in net.mined {
      assert ChainOk(p, c, net.mined, net.submitted, net.clock);
    }
  }
}
