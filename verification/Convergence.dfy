/** Synchronization brings an honest network to agreement. Once mining and submissions
    stop, pulls over a strongly connected graph of peers leave every node with the best
    chain ever mined and the same pending IDs, unless a queue is too full for them; how
    long this takes is bounded by a measure that each effective step lowers. */
module Convergence {
  import opened GoText
  import opened Entities
  import opened Models
  import opened Mempools
  import opened Nodes
  import opened NodeRuns
  import opened Network

  // ---------------------------------------------------------------- quiet steps

  predicate QuietReceipt(s: Step) {
    match s
    case TakeMessage(_) => true
    case TakeBlock(_, _) => true
    case TakeChain(_, _) => true
    case _ => false
  }

  /** Time passes, peers are asked, packets arrive; nothing is mined or handed in. */
  predicate Quiet(s: NetStep) {
    match s
    case Tick(_) => true
    case ServesChain(_) => true
    case ServesPool(_) => true
    case Receives(_, r) => QuietReceipt(r)
    case _ => false
  }

  // ---------------------------------------------------------------- the measure

  function SubmittedIds(submitted: set<Transaction>): set<Text> {
    set t | t in submitted :: t.id
  }

  function Ahead(mined: set<seq<Block>>, c: seq<Block>): set<seq<Block>> {
    set d | d in mined && BetterChain(d, c)
  }

  /** How many better chains a node may still adopt, and how many IDs it may still learn. */
  function Distance(n: Node, mined: set<seq<Block>>, ids: set<Text>): nat {
    |Ahead(mined, n.chain)| + |ids - Known(n)|
  }

  function Total(nodes: seq<Node>, mined: set<seq<Block>>, ids: set<Text>): nat {
    if nodes == [] then 0
    else Total(nodes[..|nodes| - 1], mined, ids) + Distance(nodes[|nodes| - 1], mined, ids)
  }

  function Measure(net: Net): nat {
    Total(net.nodes, net.mined, SubmittedIds(net.submitted))
  }

  lemma StrictSubsetSize<T>(a: set<T>, b: set<T>, x: T)
    requires a <= b && x in b && x !in a
    ensures |a| < |b|
  {
    SubsetSize(a, b - {x});
    assert |b - {x}| == |b| - 1;
  }

  /** There are at most |mined| + |ids| steps in it for each node. */
  lemma {:induction false} TotalBound(nodes: seq<Node>, mined: set<seq<Block>>, ids: set<Text>)
    ensures Total(nodes, mined, ids) <= |nodes| * (|mined| + |ids|)
  {
    hide BetterChain, Known;
    if nodes != [] {
      var n := |nodes| - 1;
      TotalBound(nodes[..n], mined, ids);
      SubsetSize(Ahead(mined, nodes[n].chain), mined);
      SubsetSize(ids - Known(nodes[n]), ids);
      var w := |mined| + |ids|;
      assert n * w + w == (n + 1) * w;
    }
  }

  /** All that all nodes together could ever adopt and learn. */
  function Capacity(net: Net): nat {
    |net.nodes| * (|net.mined| + |SubmittedIds(net.submitted)|)
  }

  lemma MeasureBound(net: Net)
    ensures Measure(net) <= Capacity(net)
  {
    hide SubmittedIds, Total;
    TotalBound(net.nodes, net.mined, SubmittedIds(net.submitted));
  }

  lemma {:induction false} TotalUpdate(nodes: seq<Node>, i: nat, m: Node, mined: set<seq<Block>>, ids: set<Text>)
    requires i < |nodes|
    ensures Total(nodes[i := m], mined, ids) == Total(nodes, mined, ids) - Distance(nodes[i], mined, ids) + Distance(m, mined, ids)
  {
    hide Distance;
    var n := |nodes| - 1;
    if i < n {
      TotalUpdate(nodes[..n], i, m, mined, ids);
      assert nodes[i := m][..n] == nodes[..n][i := m];
    } else {
      assert nodes[i := m][..n] == nodes[..n];
    }
  }

  /** A better chain is further ahead. */
  lemma AheadShrinks(mined: set<seq<Block>>, a: seq<Block>, b: seq<Block>)
    requires BetterChain(b, a) && b in mined
    ensures |Ahead(mined, b)| < |Ahead(mined, a)|
  {
    forall d | d in Ahead(mined, b) ensures d in Ahead(mined, a) {
      BetterTransitive(d, b, a);
    }
    BetterIrreflexive(b);
    StrictSubsetSize(Ahead(mined, b), Ahead(mined, a), b);
  }

  lemma DistanceDrops(n: Node, m: Node, mined: set<seq<Block>>, ids: set<Text>)
    requires Known(n) <= Known(m)
    requires (BetterChain(m.chain, n.chain) && m.chain in mined)
      || (m.chain == n.chain && exists id :: id in ids && id in Known(m) && id !in Known(n))
    ensures Distance(m, mined, ids) < Distance(n, mined, ids)
  {
    hide Known, BetterChain, Ahead;
    if m.chain == n.chain && exists id :: id in ids && id in Known(m) && id !in Known(n) {
      var id :| id in ids && id in Known(m) && id !in Known(n);
      StrictSubsetSize(ids - Known(m), ids - Known(n), id);
    } else {
      AheadShrinks(mined, n.chain, m.chain);
      SubsetSize(ids - Known(m), ids - Known(n));
    }
  }

  /** A quiet step of a node changes nothing or brings it closer. */
  lemma NodeProgress(p: Rules, n: Node, s: Step, mined: set<seq<Block>>, submitted: set<Transaction>, now: int)
    requires NodeOk(p, n, mined, submitted, now) && MinedOk(p, mined, submitted, now) && NoCollision(p, BlocksIn(mined))
    requires QuietReceipt(s) && PacketOk(Payload(s).value, mined, submitted)
    ensures n.chain != []
    ensures var m := Next(p, n, s, now);
      && NodeOk(p, m, mined, submitted, now) && Known(n) <= Known(m)
      && (m == n || Distance(m, mined, SubmittedIds(submitted)) < Distance(n, mined, SubmittedIds(submitted)))
  {
    NodeStepOk(p, n, s, mined, submitted, now);
    StepConservesIds(p, n, s, now, now);
    var m := Next(p, n, s, now);
    hide Inv, MinedOk, PoolFrom, NoCollision, Known, BetterChain, Next, Distance, Gains, PacketOk, SubmittedIds;
    if m != n {
      EffectiveStep(p, n, s, submitted, now);
      DistanceDrops(n, m, mined, SubmittedIds(submitted));
    }
  }

  /** A quiet step that changes a node gives it a better chain, or an ID it did not know. */
  lemma EffectiveStep(p: Rules, n: Node, s: Step, submitted: set<Transaction>, now: int)
    requires Inv(p, n, now) && QuietReceipt(s) && (s.TakeMessage? ==> s.tx in submitted)
    ensures n.chain != []
    ensures var m := Next(p, n, s, now);
      || m == n
      || BetterChain(m.chain, n.chain)
      || (m.chain == n.chain && exists id :: id in SubmittedIds(submitted) && id in Known(m) && id !in Known(n))
  {
    EpochStep(p, n, s, now, now);
    hide Inv, Known, BetterChain, Submit, Append, Adopt;
    match s
    case TakeMessage(tx) =>
      RefusedSubmit(n, tx);
      SubmitFacts(p, n, tx, now);
      if Next(p, n, s, now) != n {
        assert tx.id in SubmittedIds(submitted) && tx.id in Known(Next(p, n, s, now));
      }
    case TakeBlock(b, saves) => AppendEpoch(p, n, b, now, saves);
    case TakeChain(c, saves) => AdoptEpoch(p, n, c, now, saves);
  }

  lemma AppendEpoch(p: Rules, n: Node, b: Block, now: int, saves: bool)
    requires n.chain != []
    ensures Append(p, n, b, now, saves).0 == n || Append(p, n, b, now, saves).0.epoch == n.epoch + 1
  {
    hide AppendStatus, TxIds;
  }

  lemma AdoptEpoch(p: Rules, n: Node, c: seq<Block>, now: int, saves: bool)
    ensures Adopt(p, n, c, now, saves).0 == n || Adopt(p, n, c, now, saves).0.epoch == n.epoch + 1
  {
    hide ValidChain, BetterChain, ReorgPool;
  }

  /** Every quiet step that changes any node strictly lowers the measure. */
  lemma QuietProgress(p: Rules, net: Net, s: NetStep)
    requires NetInv(p, net) && Enabled(p, net, s) && Quiet(s) && NoCollision(p, BlocksIn(net.mined))
    ensures var after := NetNext(p, net, s);
      && after.mined == net.mined && after.submitted == net.submitted && |after.nodes| == |net.nodes|
      && (after.nodes == net.nodes || Measure(after) < Measure(net))
  {
    hide MinedOk, WorksOk, MinedHeld, NoCollision, NodeOk, PacketOk, Next, Relays, Distance, SubmittedIds;
    match s
    case Receives(i, r) =>
      var ids := SubmittedIds(net.submitted);
      NodeProgress(p, net.nodes[i], r, net.mined, net.submitted, net.clock);
      TotalUpdate(net.nodes, i, Next(p, net.nodes[i], r, net.clock), net.mined, ids);
    case _ =>
  }

  // ---------------------------------------------------------------- fixpoints

  type Graph = set<(nat, nat)>

  /** `path` leads from i to j along edges. */
  ghost predicate IsPath(g: Graph, path: seq<nat>, i: nat, j: nat) {
    && path != [] && path[0] == i && path[|path| - 1] == j
    && forall k | 0 <= k < |path| - 1 :: Edge(g, path, k)
  }

  predicate Edge(g: Graph, path: seq<nat>, k: int)
    requires 0 <= k < |path| - 1
  {
    (path[k], path[k + 1]) in g
  }

  /** Everybody hears, directly or through others, from everybody. An edge (i, j) means
      that i pulls from j. */
  ghost predicate StronglyConnected(g: Graph, n: nat) {
    && (forall i, j | (i, j) in g :: i < n && j < n)
    && forall i: nat, j: nat | i < n && j < n :: Reaches(g, i, j)
  }

  ghost predicate Reaches(g: Graph, i: nat, j: nat) {
    exists path :: IsPath(g, path, i, j)
  }

  /** A reflexive and transitive relation that holds along edges holds along paths. */
  lemma {:induction false} AlongPath(g: Graph, path: seq<nat>, i: nat, j: nat, rel: (nat, nat) -> bool)
    requires IsPath(g, path, i, j)
    requires forall a: nat :: rel(a, a)
    requires forall a: nat, b: nat | (a, b) in g :: rel(a, b)
    requires forall a: nat, b: nat, c: nat | rel(a, b) && rel(b, c) :: rel(a, c)
    ensures rel(i, j)
    decreases |path|
  {
    if |path| > 1 {
      assert Edge(g, path, 0);
      var rest := path[1..];
      forall k | 0 <= k < |rest| - 1 ensures Edge(g, rest, k) {
        assert Edge(g, path, k + 1);
      }
      AlongPath(g, rest, path[1], j, rel);
      assert rel(i, path[1]) && rel(path[1], j);
    }
  }

  /** What i gets from j changes nothing at i: neither j's chain nor its messages. */
  ghost predicate PullsNothing(p: Rules, net: Net, i: nat, j: nat)
    requires i < |net.nodes| && j < |net.nodes|
  {
    var n, peer := net.nodes[i], net.nodes[j];
    && Adopt(p, n, peer.chain, net.clock, true).0 == n
    && forall id | id in peer.pool :: Submit(n, peer.pool[id]).0 == n
  }

  ghost predicate AllQuiescent(p: Rules, net: Net, g: Graph) {
    forall i, j | (i, j) in g :: i < |net.nodes| && j < |net.nodes| && PullsNothing(p, net, i, j)
  }

  ghost predicate Agree(a: Node, b: Node) {
    a.chain == b.chain && a.pool.Keys == b.pool.Keys
  }

  ghost predicate Converged(net: Net) {
    forall i, j | 0 <= i < |net.nodes| && 0 <= j < |net.nodes| :: Agree(net.nodes[i], net.nodes[j])
  }

  lemma KnownSubmitted(p: Rules, n: Node, mined: set<seq<Block>>, submitted: set<Transaction>, now: int)
    requires NodeOk(p, n, mined, submitted, now) && MinedOk(p, mined, submitted, now)
    ensures Known(n) <= SubmittedIds(submitted)
  {
    assert ChainOk(p, n.chain, mined, submitted, now);
    InvFacts(p, n, now);
    hide Inv, MinedOk, ValidChain, Messages;
    forall id | id in Known(n) ensures id in SubmittedIds(submitted) {
      if id in n.pool {
        assert n.pool[id].id == id && n.pool[id] in submitted;
      } else {
        var t :| t in Messages(n.chain) && t.id == id;
        assert t in submitted;
      }
    }
  }

  /** With room for every ID ever submitted no reorganization is refused for capacity. */
  lemma ReorgFits(p: Rules, n: Node, c: seq<Block>, mined: set<seq<Block>>, submitted: set<Transaction>, now: int)
    requires NodeOk(p, n, mined, submitted, now) && MinedOk(p, mined, submitted, now)
    requires |SubmittedIds(submitted)| <= MAX_PENDING
    ensures |ReorgPool(n.pool, n.chain, c)| <= MAX_PENDING
  {
    KnownSubmitted(p, n, mined, submitted, now);
    ReorgFacts(p, n, c, now);
    hide Inv, MinedOk, Known, ReorgPool, SubmittedIds, ChainIds;
    var next := ReorgPool(n.pool, n.chain, c);
    SubsetSize(next.Keys, SubmittedIds(submitted));
    assert |next.Keys| == |next|;
  }

  /** A chain of the system is refused only for not being better, or for want of room. */
  lemma AdoptsUnlessNotBetter(p: Rules, n: Node, c: seq<Block>, mined: set<seq<Block>>, submitted: set<Transaction>, now: int)
    requires NodeOk(p, n, mined, submitted, now) && MinedOk(p, mined, submitted, now) && NoCollision(p, BlocksIn(mined))
    requires c in mined
    ensures Adopt(p, n, c, now, true).0 == n <==> NoWorse(n.chain, c) || |ReorgPool(n.pool, n.chain, c)| > MAX_PENDING
    ensures NoWorse(n.chain, c) <==> !BetterChain(c, n.chain)
  {
    RefusedAdopt(p, n, c, now, true);
    assert ChainOk(p, n.chain, mined, submitted, now) && ChainOk(p, c, mined, submitted, now);
    hide Inv, MinedOk, ValidChain, ReorgPool, Messages, BetterChain;
    BetterTotal(p, n.chain, c, now, BlocksIn(mined));
  }

  /** A message of the system is refused only for being known, or for want of room. */
  lemma AcceptsUnlessKnown(n: Node, tx: Transaction)
    requires ValidTransaction(tx)
    ensures Submit(n, tx).0 == n <==> tx.id in Known(n) || |n.pool| >= MAX_PENDING
  {
    RefusedSubmit(n, tx);
    hide ValidTransaction, ChainIds;
  }

  lemma NoWorseAntisymmetric(a: seq<Block>, b: seq<Block>)
    requires NoWorse(a, b) && NoWorse(b, a)
    ensures a == b
  {
    if a != b {
      BetterTransitive(a, b, a);
      BetterIrreflexive(a);
    }
  }

  /** What `PullsNothing` comes to, whatever the time. */
  ghost predicate Saturated(n: Node, peer: Node) {
    && (NoWorse(n.chain, peer.chain) || |ReorgPool(n.pool, n.chain, peer.chain)| > MAX_PENDING)
    && (peer.pool.Keys <= Known(n) || |n.pool| >= MAX_PENDING)
  }

  /** There is room at `n` for what it could take from `peer`: for the queue that a change
      to the peer's chain leaves, and for a message it does not know. */
  ghost predicate Fits(n: Node, peer: Node) {
    && (BetterChain(peer.chain, n.chain) ==> |ReorgPool(n.pool, n.chain, peer.chain)| <= MAX_PENDING)
    && (peer.pool.Keys <= Known(n) || |n.pool| < MAX_PENDING)
  }

  ghost predicate AllFit(net: Net, g: Graph) {
    forall i, j | (i, j) in g :: i < |net.nodes| && j < |net.nodes| && Fits(net.nodes[i], net.nodes[j])
  }

  lemma PullsNothingMeans(p: Rules, net: Net, i: nat, j: nat)
    requires NetInv(p, net) && NoCollision(p, BlocksIn(net.mined))
    requires i < |net.nodes| && j < |net.nodes|
    ensures PullsNothing(p, net, i, j) <==> Saturated(net.nodes[i], net.nodes[j])
    ensures Fits(net.nodes[i], net.nodes[j]) && Saturated(net.nodes[i], net.nodes[j]) <==>
      NoWorse(net.nodes[i].chain, net.nodes[j].chain) && net.nodes[j].pool.Keys <= Known(net.nodes[i])
  {
    var n, peer := net.nodes[i], net.nodes[j];
    NodeOf(p, net, i);
    NodeOf(p, net, j);
    PoolFacts(p, peer, net.clock);
    hide NetInv, NodeOk, MinedOk, NoCollision, BlocksIn, NoWorse, BetterChain, Known, Adopt, Submit, ValidTransaction, ReorgPool;
    AdoptsUnlessNotBetter(p, n, peer.chain, net.mined, net.submitted, net.clock);
    forall id | id in peer.pool ensures Submit(n, peer.pool[id]).0 == n <==> id in Known(n) || |n.pool| >= MAX_PENDING {
      AcceptsUnlessKnown(n, peer.pool[id]);
    }
  }

  lemma NodeOf(p: Rules, net: Net, i: nat)
    requires NetInv(p, net) && i < |net.nodes|
    ensures NodeOk(p, net.nodes[i], net.mined, net.submitted, net.clock) && MinedOk(p, net.mined, net.submitted, net.clock)
    ensures net.nodes[i].chain in net.mined && Inv(p, net.nodes[i], net.clock)
  {
    hide MinedOk, SentOk, WorksOk, MinedHeld, Inv;
  }

  lemma QueueFits(n: Node, peer: Node, ids: set<Text>)
    requires n.pool.Keys <= ids && peer.pool.Keys <= ids && |ids| <= MAX_PENDING
    ensures peer.pool.Keys <= Known(n) || |n.pool| < MAX_PENDING
  {
    OwnPoolKnown(n);
    hide Known;
    if id :| id in peer.pool.Keys && id !in Known(n) {
      StrictSubsetSize(n.pool.Keys, ids, id);
      assert |n.pool.Keys| == |n.pool|;
    }
  }

  lemma PoolSubmitted(p: Rules, net: Net, i: nat)
    requires NetInv(p, net) && i < |net.nodes|
    ensures net.nodes[i].pool.Keys <= SubmittedIds(net.submitted)
  {
    hide NetInv, NodeOk, Inv, MinedOk, Known, SubmittedIds;
    NodeOf(p, net, i);
    KnownSubmitted(p, net.nodes[i], net.mined, net.submitted, net.clock);
    OwnPoolKnown(net.nodes[i]);
  }

  /** With at most 1000 IDs ever submitted there is always room. */
  lemma CapFits(p: Rules, net: Net, i: nat, j: nat)
    requires NetInv(p, net) && |SubmittedIds(net.submitted)| <= MAX_PENDING
    requires i < |net.nodes| && j < |net.nodes|
    ensures Fits(net.nodes[i], net.nodes[j])
  {
    hide NetInv, NodeOk, Inv, MinedOk, Known, SubmittedIds, ReorgPool, BetterChain;
    NodeOf(p, net, i);
    ReorgFits(p, net.nodes[i], net.nodes[j].chain, net.mined, net.submitted, net.clock);
    PoolSubmitted(p, net, i);
    PoolSubmitted(p, net, j);
    QueueFits(net.nodes[i], net.nodes[j], SubmittedIds(net.submitted));
  }

  lemma PoolFacts(p: Rules, n: Node, now: int)
    requires Inv(p, n, now)
    ensures forall id | id in n.pool :: n.pool[id].id == id && ValidTransaction(n.pool[id])
    ensures n.pool.Keys !! ChainIds(n.chain)
  {
    hide ValidTransaction, ValidLinks;
  }

  /** No pull along an edge changes anything, be it for lack of news or of room. */
  ghost predicate AllSaturated(net: Net, g: Graph) {
    forall i, j | (i, j) in g :: i < |net.nodes| && j < |net.nodes| && Saturated(net.nodes[i], net.nodes[j])
  }

  lemma ConnectedChains(p: Rules, net: Net, g: Graph, i: nat, j: nat)
    requires NetInv(p, net) && NoCollision(p, BlocksIn(net.mined))
    requires StronglyConnected(g, |net.nodes|) && AllSaturated(net, g) && AllFit(net, g)
    requires i < |net.nodes| && j < |net.nodes|
    ensures net.nodes[i].chain == net.nodes[j].chain
  {
    hide NetInv, NoCollision, BlocksIn, NoWorse, Saturated, Fits, Known;
    var rel := (a: nat, b: nat) =>
      a == b || (a < |net.nodes| && b < |net.nodes| && NoWorse(net.nodes[a].chain, net.nodes[b].chain));
    forall a: nat, b: nat | (a, b) in g ensures rel(a, b) {
      PullsNothingMeans(p, net, a, b);
    }
    forall a: nat, b: nat, c: nat | rel(a, b) && rel(b, c) ensures rel(a, c) {
      if a != b && b != c {
        NoWorseTransitive(net.nodes[a].chain, net.nodes[b].chain, net.nodes[c].chain);
      }
    }
    assert Reaches(g, i, j) && Reaches(g, j, i);
    var there :| IsPath(g, there, i, j);
    var back :| IsPath(g, back, j, i);
    AlongPath(g, there, i, j, rel);
    AlongPath(g, back, j, i, rel);
    if i != j {
      NoWorseAntisymmetric(net.nodes[i].chain, net.nodes[j].chain);
    }
  }

  lemma ConnectedPools(p: Rules, net: Net, g: Graph, i: nat, j: nat)
    requires NetInv(p, net) && NoCollision(p, BlocksIn(net.mined))
    requires StronglyConnected(g, |net.nodes|) && AllSaturated(net, g) && AllFit(net, g)
    requires i < |net.nodes| && j < |net.nodes|
    ensures net.nodes[j].pool.Keys <= net.nodes[i].pool.Keys
  {
    hide NetInv, NoCollision, BlocksIn, NoWorse, Saturated, Fits, Known;
    var rel := (a: nat, b: nat) =>
      a == b || (a < |net.nodes| && b < |net.nodes| && net.nodes[b].pool.Keys <= net.nodes[a].pool.Keys);
    forall a: nat, b: nat | (a, b) in g ensures rel(a, b) {
      ConnectedChains(p, net, g, a, b);
      PullsNothingMeans(p, net, a, b);
      PoolsWithin(p, net, a, b);
    }
    assert Reaches(g, i, j);
    var there :| IsPath(g, there, i, j);
    AlongPath(g, there, i, j, rel);
  }

  lemma PoolsWithin(p: Rules, net: Net, a: nat, b: nat)
    requires NetInv(p, net) && a < |net.nodes| && b < |net.nodes|
    requires net.nodes[a].chain == net.nodes[b].chain && net.nodes[b].pool.Keys <= Known(net.nodes[a])
    ensures net.nodes[b].pool.Keys <= net.nodes[a].pool.Keys
  {
    hide MinedOk, SentOk, WorksOk, MinedHeld, Inv, ChainIds, PoolFrom;
    assert NodeOk(p, net.nodes[b], net.mined, net.submitted, net.clock);
    PoolFacts(p, net.nodes[b], net.clock);
  }

  lemma SaturatedMeans(p: Rules, net: Net, g: Graph)
    requires NetInv(p, net) && NoCollision(p, BlocksIn(net.mined)) && StronglyConnected(g, |net.nodes|)
    ensures AllQuiescent(p, net, g) <==> AllSaturated(net, g)
  {
    hide NetInv, NoCollision, BlocksIn, PullsNothing, Saturated, Fits, Reaches, Known, NoWorse;
    forall i, j | (i, j) in g ensures PullsNothing(p, net, i, j) <==> Saturated(net.nodes[i], net.nodes[j]) {
      PullsNothingMeans(p, net, i, j);
    }
  }

  /** All nodes have one chain and the same pending IDs exactly in the states in which no
      pull along a strongly connected graph changes anything although there is room for
      what each pull could bring. There is no bound on how much was ever submitted. */
  lemma FixpointIffConverged(p: Rules, net: Net, g: Graph)
    requires NetInv(p, net) && NoCollision(p, BlocksIn(net.mined)) && StronglyConnected(g, |net.nodes|)
    ensures Converged(net) <==> AllQuiescent(p, net, g) && AllFit(net, g)
  {
    SaturatedMeans(p, net, g);
    hide NetInv, NoCollision, BlocksIn, AllQuiescent, Saturated, Fits, Known, NoWorse, Reaches;
    if AllSaturated(net, g) && AllFit(net, g) {
      forall i, j | 0 <= i < |net.nodes| && 0 <= j < |net.nodes| ensures Agree(net.nodes[i], net.nodes[j]) {
        ConnectedChains(p, net, g, i, j);
        ConnectedPools(p, net, g, i, j);
        ConnectedPools(p, net, g, j, i);
      }
    }
    if Converged(net) {
      forall i, j | (i, j) in g
        ensures i < |net.nodes| && j < |net.nodes| && Saturated(net.nodes[i], net.nodes[j]) && Fits(net.nodes[i], net.nodes[j])
      {
        assert Agree(net.nodes[i], net.nodes[j]);
        NoWorseReflexive(net.nodes[i].chain);
        OwnPoolKnown(net.nodes[i]);
        PullsNothingMeans(p, net, i, j);
      }
    }
  }

  /** While at most 1000 IDs were ever submitted, room is no question. */
  lemma FixpointWithinCap(p: Rules, net: Net, g: Graph)
    requires NetInv(p, net) && NoCollision(p, BlocksIn(net.mined)) && StronglyConnected(g, |net.nodes|)
    requires |SubmittedIds(net.submitted)| <= MAX_PENDING
    ensures AllFit(net, g) && (Converged(net) <==> AllQuiescent(p, net, g))
  {
    hide NetInv, NoCollision, BlocksIn, AllQuiescent, Fits, SubmittedIds, Converged, Reaches;
    forall i, j | (i, j) in g ensures Fits(net.nodes[i], net.nodes[j]) {
      CapFits(p, net, i, j);
    }
    FixpointIffConverged(p, net, g);
  }

  lemma OwnPoolKnown(n: Node)
    ensures n.pool.Keys <= Known(n)
  {
    hide ChainIds;
  }

  /** All nodes have one chain, whatever they have pending. */
  ghost predicate ChainsAgree(net: Net) {
    forall i, j | 0 <= i < |net.nodes| && 0 <= j < |net.nodes| :: net.nodes[i].chain == net.nodes[j].chain
  }

  /** The chain agreed on is the best of all that were ever mined. */
  lemma AgreedChainIsBest(p: Rules, net: Net, i: nat, c: seq<Block>)
    requires NetInv(p, net) && ChainsAgree(net) && i < |net.nodes| && c in net.mined
    ensures NoWorse(net.nodes[i].chain, c)
  {
    hide NodesOk, MinedOk, SentOk, WorksOk, NoWorse;
    assert Held(net.nodes, c);
    var j :| 0 <= j < |net.nodes| && NoWorse(net.nodes[j].chain, c);
    assert net.nodes[i].chain == net.nodes[j].chain;
  }

  // ---------------------------------------------------------------- runs and rounds

  ghost predicate IsQuietRun(p: Rules, r: NetRun) {
    && IsNetRun(p, r)
    && NetInv(p, r.nets[0]) && NoCollision(p, BlocksIn(r.nets[0].mined))
    && forall k | 0 <= k < |r.steps| :: Quiet(r.steps[k])
  }

  lemma {:induction false} QuietRunFacts(p: Rules, r: NetRun, k: nat)
    requires IsQuietRun(p, r) && k < |r.nets|
    ensures NetInv(p, r.nets[k])
    ensures r.nets[k].mined == r.nets[0].mined && r.nets[k].submitted == r.nets[0].submitted
    ensures |r.nets[k].nodes| == |r.nets[0].nodes| && NoCollision(p, BlocksIn(r.nets[k].mined))
  {
    hide NetInv, NetNext, Enabled, NoCollision, BlocksIn, SubmittedIds;
    if k > 0 {
      QuietRunFacts(p, r, k - 1);
      assert NetStepAt(p, r, k - 1) && Quiet(r.steps[k - 1]);
      QuietProgress(p, r.nets[k - 1], r.steps[k - 1]);
      NetStepKeepsInv(p, r.nets[k - 1], r.steps[k - 1]);
    }
  }

  ghost predicate Idle(r: NetRun, a: nat, b: nat)
    requires a <= b < |r.nets|
  {
    forall k | a <= k <= b :: r.nets[k].nodes == r.nets[a].nodes
  }

  /** Between a and b the measure never rises, and it falls if any node changes. */
  lemma {:induction false} MeasureFalls(p: Rules, r: NetRun, a: nat, b: nat)
    requires IsQuietRun(p, r) && a <= b < |r.nets|
    ensures Measure(r.nets[b]) <= Measure(r.nets[a])
    ensures Idle(r, a, b) || Measure(r.nets[b]) < Measure(r.nets[a])
    decreases b
  {
    hide NetInv, NetNext, Enabled, NoCollision, BlocksIn, SubmittedIds, Total;
    if a < b {
      MeasureFalls(p, r, a, b - 1);
      QuietRunFacts(p, r, b - 1);
      assert NetStepAt(p, r, b - 1) && Quiet(r.steps[b - 1]);
      QuietProgress(p, r.nets[b - 1], r.steps[b - 1]);
    }
  }

  /** The steps among the first n in which some node changes. */
  ghost function Changes(r: NetRun, n: nat): set<nat>
    requires n < |r.nets|
  {
    set k: nat | k < n && ChangesAt(r, k)
  }

  ghost predicate ChangesAt(r: NetRun, k: nat)
    requires k + 1 < |r.nets|
  {
    r.nets[k + 1].nodes != r.nets[k].nodes
  }

  /** However long a quiet run is, the nodes change in it at most as often as the measure
      allows: adoptions and accepted messages are finitely many under every schedule. */
  lemma {:induction false} FewChanges(p: Rules, r: NetRun, n: nat)
    requires IsQuietRun(p, r) && n < |r.nets|
    ensures |Changes(r, n)| + Measure(r.nets[n]) <= Measure(r.nets[0])
  {
    hide IsQuietRun, Measure;
    if n == 0 {
      assert Changes(r, 0) == {};
    } else {
      FewChanges(p, r, n - 1);
      MeasureFalls(p, r, n - 1, n);
      if !ChangesAt(r, n - 1) {
        assert Changes(r, n) == Changes(r, n - 1);
      } else {
        assert !Idle(r, n - 1, n);
        assert Changes(r, n) == Changes(r, n - 1) + {n - 1};
      }
    }
  }

  /** Peer j serves its chain, and i receives that very answer later in the interval. */
  ghost predicate PullsChain(r: NetRun, a: nat, b: nat, i: nat, j: nat)
    requires |r.nets| == |r.steps| + 1 && a <= b <= |r.steps|
  {
    exists u, v :: a <= u < v < b && ChainPulled(r, u, v, i, j)
  }

  ghost predicate ChainPulled(r: NetRun, u: nat, v: nat, i: nat, j: nat)
    requires |r.nets| == |r.steps| + 1 && u < v < |r.steps|
  {
    && r.steps[u] == ServesChain(j) && j < |r.nets[u].nodes|
    && r.steps[v] == Receives(i, TakeChain(r.nets[u].nodes[j].chain, true))
  }

  /** Peer j serves its queue, and i receives each message of that answer later. */
  ghost predicate PullsPool(r: NetRun, a: nat, b: nat, i: nat, j: nat)
    requires |r.nets| == |r.steps| + 1 && a <= b <= |r.steps|
  {
    exists u :: a <= u < b && r.steps[u] == ServesPool(j) && j < |r.nets[u].nodes| && PoolPulled(r, u, b, i, j)
  }

  ghost predicate PoolPulled(r: NetRun, u: nat, b: nat, i: nat, j: nat)
    requires |r.nets| == |r.steps| + 1 && u < b <= |r.steps| && j < |r.nets[u].nodes|
  {
    forall id | id in r.nets[u].nodes[j].pool ::
      exists v :: u < v < b && r.steps[v] == Receives(i, TakeMessage(r.nets[u].nodes[j].pool[id]))
  }

  /** In a round every node pulls from each of its peers; between asking and receiving,
      and besides, anything else may arrive, however old. */
  ghost predicate IsRound(r: NetRun, g: Graph, a: nat, b: nat)
    requires |r.nets| == |r.steps| + 1 && a <= b <= |r.steps|
  {
    forall i, j | (i, j) in g :: PullsChain(r, a, b, i, j) && PullsPool(r, a, b, i, j)
  }

  lemma IdleChainPull(p: Rules, r: NetRun, a: nat, b: nat, i: nat, j: nat)
    requires IsQuietRun(p, r) && a <= b <= |r.steps| && Idle(r, a, b) && PullsChain(r, a, b, i, j)
    requires i < |r.nets[a].nodes| && j < |r.nets[a].nodes|
    ensures var n, peer := r.nets[a].nodes[i], r.nets[a].nodes[j];
      NoWorse(n.chain, peer.chain) || |ReorgPool(n.pool, n.chain, peer.chain)| > MAX_PENDING
  {
    hide NetInv, NoCollision, BlocksIn, Adopt, NoWorse, ReorgPool, BetterChain;
    var u, v :| a <= u < v < b && ChainPulled(r, u, v, i, j);
    var net := r.nets[v];
    QuietRunFacts(p, r, v);
    assert NetStepAt(p, r, v);
    assert r.nets[u].nodes == r.nets[a].nodes && net.nodes == r.nets[a].nodes && r.nets[v + 1].nodes == r.nets[a].nodes;
    var n, c := net.nodes[i], net.nodes[j].chain;
    assert r.nets[v + 1].nodes[i] == Adopt(p, n, c, net.clock, true).0;
    NodeOf(p, net, i);
    NodeOf(p, net, j);
    AdoptsUnlessNotBetter(p, n, c, net.mined, net.submitted, net.clock);
  }

  lemma IdlePoolPull(p: Rules, r: NetRun, a: nat, b: nat, i: nat, j: nat)
    requires IsQuietRun(p, r) && |r.nets| == |r.steps| + 1 && a <= b <= |r.steps| && Idle(r, a, b) && PullsPool(r, a, b, i, j)
    requires i < |r.nets[a].nodes| && j < |r.nets[a].nodes|
    ensures var n, peer := r.nets[a].nodes[i], r.nets[a].nodes[j];
      peer.pool.Keys <= Known(n) || |n.pool| >= MAX_PENDING
  {
    hide IsQuietRun, Submit, Known, ValidTransaction;
    var u :| a <= u < b && r.steps[u] == ServesPool(j) && j < |r.nets[u].nodes| && PoolPulled(r, u, b, i, j);
    assert r.nets[u].nodes == r.nets[a].nodes;
    var n, peer := r.nets[a].nodes[i], r.nets[a].nodes[j];
    forall id | id in peer.pool ensures id in Known(n) || |n.pool| >= MAX_PENDING {
      var v :| u < v < b && r.steps[v] == Receives(i, TakeMessage(peer.pool[id]));
      PulledMessageKnown(p, r, a, b, v, i, j, id);
    }
  }

  lemma PulledMessageKnown(p: Rules, r: NetRun, a: nat, b: nat, v: nat, i: nat, j: nat, id: Text)
    requires IsQuietRun(p, r) && |r.nets| == |r.steps| + 1 && a <= v < b <= |r.steps| && Idle(r, a, b)
    requires i < |r.nets[a].nodes| && j < |r.nets[a].nodes| && id in r.nets[a].nodes[j].pool
    requires r.steps[v] == Receives(i, TakeMessage(r.nets[a].nodes[j].pool[id]))
    ensures id in Known(r.nets[a].nodes[i]) || |r.nets[a].nodes[i].pool| >= MAX_PENDING
  {
    hide NoCollision, BlocksIn, Submit, Known, ValidTransaction, NetInv, Inv;
    var net := r.nets[v];
    QuietRunFacts(p, r, v);
    assert NetStepAt(p, r, v);
    assert net.nodes == r.nets[a].nodes && r.nets[v + 1].nodes == r.nets[a].nodes;
    var tx := net.nodes[j].pool[id];
    assert r.nets[v + 1].nodes[i] == Submit(net.nodes[i], tx).0;
    NodeOf(p, net, j);
    PoolFacts(p, net.nodes[j], net.clock);
    AcceptsUnlessKnown(net.nodes[i], tx);
  }

  /** A round in which no node changes finds, and leaves, the network in agreement, exactly
      if there was room for what the pulls could bring. */
  lemma IdleRoundConverged(p: Rules, r: NetRun, g: Graph, a: nat, b: nat)
    requires IsQuietRun(p, r) && |r.nets| == |r.steps| + 1 && a <= b <= |r.steps| && Idle(r, a, b) && IsRound(r, g, a, b)
    requires StronglyConnected(g, |r.nets[0].nodes|)
    ensures AllQuiescent(p, r.nets[a], g)
    ensures Converged(r.nets[a]) == Converged(r.nets[b]) == AllFit(r.nets[a], g)
  {
    hide IsQuietRun, NetInv, NoCollision, BlocksIn, NoWorse, Known, PullsChain, PullsPool, PullsNothing, ReorgPool, Fits,
      Reaches;
    QuietRunFacts(p, r, a);
    forall i, j | (i, j) in g ensures i < |r.nets[a].nodes| && j < |r.nets[a].nodes| && Saturated(r.nets[a].nodes[i], r.nets[a].nodes[j]) {
      IdleChainPull(p, r, a, b, i, j);
      IdlePoolPull(p, r, a, b, i, j);
    }
    SaturatedMeans(p, r.nets[a], g);
    FixpointIffConverged(p, r.nets[a], g);
    assert r.nets[b].nodes == r.nets[a].nodes;
  }

  /** Round k lies between cuts[k] and cuts[k + 1]. */
  ghost predicate AreRounds(r: NetRun, g: Graph, cuts: seq<nat>)
    requires |r.nets| == |r.steps| + 1
  {
    && cuts != []
    && (forall k | 0 <= k < |cuts| :: cuts[k] <= |r.steps|)
    && forall k | 0 <= k < |cuts| - 1 :: RoundAt(r, g, cuts, k)
  }

  ghost predicate RoundAt(r: NetRun, g: Graph, cuts: seq<nat>, k: nat)
    requires |r.nets| == |r.steps| + 1 && k < |cuts| - 1
  {
    cuts[k] <= cuts[k + 1] <= |r.steps| && IsRound(r, g, cuts[k], cuts[k + 1])
  }

  /** A round in which nothing changes. */
  ghost predicate StillRound(r: NetRun, cuts: seq<nat>, k: nat)
    requires k < |cuts| - 1
  {
    cuts[k] <= cuts[k + 1] < |r.nets| && Idle(r, cuts[k], cuts[k + 1])
  }

  ghost function Restless(r: NetRun, cuts: seq<nat>): set<nat> {
    set k: nat | k < |cuts| - 1 && !StillRound(r, cuts, k)
  }

  /** Everybody agrees throughout the round. */
  ghost predicate SettledRound(r: NetRun, cuts: seq<nat>, k: nat)
    requires k < |cuts| - 1
  {
    StillRound(r, cuts, k) && Converged(r.nets[cuts[k]]) && Converged(r.nets[cuts[k + 1]])
  }

  /** There is room for what the pulls of the round could bring. */
  ghost predicate RoomInRound(r: NetRun, g: Graph, cuts: seq<nat>, k: nat)
    requires k < |cuts| - 1
  {
    cuts[k] < |r.nets| && AllFit(r.nets[cuts[k]], g)
  }

  lemma {:induction false} FewRestless(p: Rules, r: NetRun, g: Graph, cuts: seq<nat>)
    requires IsQuietRun(p, r) && |r.nets| == |r.steps| + 1 && AreRounds(r, g, cuts)
    ensures |Restless(r, cuts)| + Measure(r.nets[cuts[|cuts| - 1]]) <= Measure(r.nets[cuts[0]])
    decreases |cuts|
  {
    hide IsQuietRun, IsRound, Measure, Idle;
    var m := |cuts| - 1;
    if m == 0 {
      assert Restless(r, cuts) == {};
    } else {
      FewerRounds(r, g, cuts);
      FewRestless(p, r, g, cuts[..m]);
      assert RoundAt(r, g, cuts, m - 1);
      MeasureFalls(p, r, cuts[m - 1], cuts[m]);
      OneMoreRound(r, cuts);
    }
  }

  lemma FewerRounds(r: NetRun, g: Graph, cuts: seq<nat>)
    requires |r.nets| == |r.steps| + 1 && |cuts| > 1 && AreRounds(r, g, cuts)
    ensures AreRounds(r, g, cuts[..|cuts| - 1])
  {
    hide IsRound;
    var fewer := cuts[..|cuts| - 1];
    forall k | 0 <= k < |fewer| - 1 ensures RoundAt(r, g, fewer, k) {
      assert RoundAt(r, g, cuts, k);
    }
  }

  lemma OneMoreRound(r: NetRun, cuts: seq<nat>)
    requires |cuts| > 1
    ensures var m := |cuts| - 1;
      |Restless(r, cuts)| == |Restless(r, cuts[..m])| + if StillRound(r, cuts, m - 1) then 0 else 1
  {
    hide Idle;
    var m := |cuts| - 1;
    var fewer := Restless(r, cuts[..m]);
    assert forall k: nat | k < m - 1 :: StillRound(r, cuts, k) == StillRound(r, cuts[..m], k);
    if StillRound(r, cuts, m - 1) {
      assert Restless(r, cuts) == fewer;
    } else {
      assert Restless(r, cuts) == fewer + {m - 1};
    }
  }

  /** More rounds than restless ones. */
  lemma {:induction false} SomeStill(r: NetRun, cuts: seq<nat>)
    requires |cuts| > 0 && |Restless(r, cuts)| < |cuts| - 1
    ensures exists k: nat :: k < |cuts| - 1 && StillRound(r, cuts, k)
    decreases |cuts|
  {
    hide Idle;
    var m := |cuts| - 1;
    OneMoreRound(r, cuts);
    if !StillRound(r, cuts, m - 1) {
      SomeStill(r, cuts[..m]);
      var k: nat :| k < m - 1 && StillRound(r, cuts[..m], k);
      assert StillRound(r, cuts, k);
    }
  }

  /** A still round is settled exactly if there was room; within the cap there always is. */
  lemma StillMeansSettled(p: Rules, r: NetRun, g: Graph, cuts: seq<nat>, k: nat)
    requires IsQuietRun(p, r) && |r.nets| == |r.steps| + 1 && AreRounds(r, g, cuts) && StronglyConnected(g, |r.nets[0].nodes|)
    requires k < |cuts| - 1 && StillRound(r, cuts, k)
    ensures SettledRound(r, cuts, k) <==> RoomInRound(r, g, cuts, k)
    ensures |SubmittedIds(r.nets[0].submitted)| <= MAX_PENDING ==> RoomInRound(r, g, cuts, k)
  {
    hide IsQuietRun, IsRound, Idle, Converged, AllFit, StronglyConnected, SubmittedIds, NetInv, NoCollision, BlocksIn;
    assert RoundAt(r, g, cuts, k);
    IdleRoundConverged(p, r, g, cuts[k], cuts[k + 1]);
    QuietRunFacts(p, r, cuts[k]);
    if |SubmittedIds(r.nets[0].submitted)| <= MAX_PENDING {
      FixpointWithinCap(p, r.nets[cuts[k]], g);
    }
  }

  /** Convergence. However packets are delayed, duplicated, reordered or lost, and however
      much was submitted, in any sequence of rounds all but a bounded number are still:
      nobody changes any more. A still round is settled, all nodes having one chain and
      the same pending IDs, exactly if there was room for what the pulls could bring; up
      to 1000 submitted IDs there always is. The bound is what is left to adopt and to
      learn at the start, at most nodes x (mined chains + submitted IDs). */
  lemma ConvergenceBound(p: Rules, r: NetRun, g: Graph, cuts: seq<nat>)
    requires IsQuietRun(p, r) && |r.nets| == |r.steps| + 1 && AreRounds(r, g, cuts) && StronglyConnected(g, |r.nets[0].nodes|)
    ensures |Restless(r, cuts)| <= Measure(r.nets[0]) <= Capacity(r.nets[0])
    ensures |cuts| - 1 > Measure(r.nets[0]) ==> exists k: nat :: k < |cuts| - 1 && StillRound(r, cuts, k)
    ensures forall k: nat | k < |cuts| - 1 && StillRound(r, cuts, k) ::
      && (SettledRound(r, cuts, k) <==> RoomInRound(r, g, cuts, k))
      && (|SubmittedIds(r.nets[0].submitted)| <= MAX_PENDING ==> RoomInRound(r, g, cuts, k))
  {
    hide StillRound, SettledRound, RoomInRound, StronglyConnected, RoundAt, Measure, Capacity, IsQuietRun, Restless, Idle,
      SubmittedIds;
    MeasureBound(r.nets[0]);
    MeasureFalls(p, r, 0, cuts[0]);
    FewRestless(p, r, g, cuts);
    if |cuts| - 1 > Measure(r.nets[0]) {
      SomeStill(r, cuts);
    }
    forall k: nat | k < |cuts| - 1 && StillRound(r, cuts, k)
      ensures SettledRound(r, cuts, k) <==> RoomInRound(r, g, cuts, k)
      ensures |SubmittedIds(r.nets[0].submitted)| <= MAX_PENDING ==> RoomInRound(r, g, cuts, k)
    {
      StillMeansSettled(p, r, g, cuts, k);
    }
  }

  // ---------------------------------------------------------------- agreement lasts

  /** Whatever the network does, no node's chain gets worse, across crashes too. */
  lemma NetStepAscends(p: Rules, net: Net, s: NetStep, i: nat)
    requires NetInv(p, net) && Enabled(p, net, s) && i < |net.nodes|
    ensures i < |NetNext(p, net, s).nodes| && NoWorse(NetNext(p, net, s).nodes[i].chain, net.nodes[i].chain)
  {
    hide NetInv, Inv, NoWorse, Next, Relays, Solution;
    NoWorseReflexive(net.nodes[i].chain);
    NodeOf(p, net, i);
    match s
    case ClientSubmits(j, tx) => OneStepAscends(p, net.nodes[i], TakeMessage(tx), net.clock, net.clock);
    case MinerOffers(w, own) => OneStepAscends(p, net.nodes[i], own, net.clock, net.clock);
    case Receives(j, r) => OneStepAscends(p, net.nodes[i], r, net.clock, net.clock);
    case _ =>
  }

  lemma {:induction false} NetRunAscends(p: Rules, r: NetRun, a: nat, k: nat, i: nat)
    requires IsNetRun(p, r) && NetInv(p, r.nets[0]) && a <= k < |r.nets| && NoCollision(p, BlocksIn(r.nets[k].mined))
    requires i < |r.nets[a].nodes|
    ensures i < |r.nets[k].nodes| && NoWorse(r.nets[k].nodes[i].chain, r.nets[a].nodes[i].chain)
    decreases k
  {
    hide NetInv, NoCollision, BlocksIn, NoWorse, NetNext, Enabled;
    if a < k {
      FewerMined(p, r, k - 1, k);
      NetRunAscends(p, r, a, k - 1, i);
      RunProvenance(p, r, k - 1);
      assert NetStepAt(p, r, k - 1);
      NetStepAscends(p, r.nets[k - 1], r.steps[k - 1], i);
      NoWorseTransitive(r.nets[k].nodes[i].chain, r.nets[k - 1].nodes[i].chain, r.nets[a].nodes[i].chain);
    } else {
      NoWorseReflexive(r.nets[a].nodes[i].chain);
    }
  }

  lemma FewerMined(p: Rules, r: NetRun, a: nat, k: nat)
    requires IsNetRun(p, r) && a <= k < |r.nets| && NoCollision(p, BlocksIn(r.nets[k].mined))
    ensures NoCollision(p, BlocksIn(r.nets[a].mined))
  {
    MinedGrows(p, r, a, k);
    BlocksInMono(r.nets[a].mined, r.nets[k].mined);
    FewerCollisions(p, BlocksIn(r.nets[a].mined), BlocksIn(r.nets[k].mined));
  }

  /** Agreement on the chain, once reached, is kept until somebody commits another block:
      no packet, crash, failed save or submission can undo it. */
  lemma AgreementKept(p: Rules, r: NetRun, a: nat, k: nat, i: nat)
    requires IsNetRun(p, r) && NetInv(p, r.nets[0]) && a <= k < |r.nets| && NoCollision(p, BlocksIn(r.nets[k].mined))
    requires ChainsAgree(r.nets[a]) && r.nets[k].mined == r.nets[a].mined && i < |r.nets[a].nodes|
    ensures i < |r.nets[k].nodes| && r.nets[k].nodes[i].chain == r.nets[a].nodes[i].chain
  {
    hide IsNetRun, NetInv, NoCollision, BlocksIn, NoWorse, ChainsAgree;
    NetRunAscends(p, r, a, k, i);
    RunProvenance(p, r, k);
    NodeOf(p, r.nets[k], i);
    FewerMined(p, r, a, k);
    RunProvenance(p, r, a);
    AgreedChainIsBest(p, r.nets[a], i, r.nets[k].nodes[i].chain);
    NoWorseAntisymmetric(r.nets[k].nodes[i].chain, r.nets[a].nodes[i].chain);
  }

  /** As long as no miner offers a block, none is committed. */
  lemma {:induction false} OnlyMinersMine(p: Rules, r: NetRun, a: nat, k: nat)
    requires IsNetRun(p, r) && a <= k < |r.nets|
    requires forall m | a <= m < k :: !r.steps[m].MinerOffers?
    ensures r.nets[k].mined == r.nets[a].mined
    decreases k
  {
    if a < k {
      OnlyMinersMine(p, r, a, k - 1);
      assert NetStepAt(p, r, k - 1);
      hide Next, Relays, Solution;
    }
  }

  // ---------------------------------------------------------------- from the first block on

  function Suffix(r: NetRun, start: nat): NetRun
    requires |r.nets| == |r.steps| + 1 && start <= |r.steps|
  {
    NetRun(r.nets[start..], r.steps[start..])
  }

  lemma SuffixIsRun(p: Rules, r: NetRun, start: nat)
    requires IsNetRun(p, r) && start <= |r.steps|
    ensures IsNetRun(p, Suffix(r, start))
  {
    hide Enabled, NetNext;
    var q := Suffix(r, start);
    forall k: nat | k < |q.steps| ensures NetStepAt(p, q, k) {
      assert NetStepAt(p, r, start + k);
    }
  }

  lemma QuietSuffix(p: Rules, r: NetRun, start: nat)
    requires IsNetRun(p, r) && NetInv(p, r.nets[0]) && start <= |r.steps|
    requires NoCollision(p, BlocksIn(r.nets[start].mined))
    requires forall k | start <= k < |r.steps| :: Quiet(r.steps[k])
    ensures IsQuietRun(p, Suffix(r, start)) && Suffix(r, start).nets[0] == r.nets[start]
    ensures |r.nets[start].nodes| == |r.nets[0].nodes|
  {
    RunProvenance(p, r, start);
    MinedGrows(p, r, 0, start);
    SuffixIsRun(p, r, start);
    hide NetInv, IsNetRun, NoCollision, BlocksIn, SubmittedIds, Quiet;
    var q := Suffix(r, start);
    assert q.nets[0] == r.nets[start];
    assert forall k | 0 <= k < |q.steps| :: Quiet(q.steps[k]);
  }

  /** From nothing to agreement. New nodes mine, gossip, fork, crash and restart in any way;
      from some moment on nothing new is mined or submitted. If no two mined headers
      collided, then of any rounds of pulls that follow, more than there are chains and IDs
      to spread to all nodes, one is still, and it is settled exactly if there was room for
      what its pulls could bring; if at most 1000 IDs were submitted, it is settled. */
  lemma HonestNetworkAgrees(p: Rules, r: NetRun, n: nat, clock: int, start: nat, g: Graph, cuts: seq<nat>)
    requires CheckDifficulty(p.difficulty) && n > 0
    requires IsNetRun(p, r) && r.nets[0] == FirstNet(p, n, clock) && start <= |r.steps|
    requires NoCollision(p, BlocksIn(r.nets[start].mined))
    requires forall k | start <= k < |r.steps| :: Quiet(r.steps[k])
    requires StronglyConnected(g, n) && AreRounds(Suffix(r, start), g, cuts)
    requires |cuts| - 1 > Capacity(r.nets[start])
    ensures exists k: nat ::
      && k < |cuts| - 1 && StillRound(Suffix(r, start), cuts, k)
      && (SettledRound(Suffix(r, start), cuts, k) <==> RoomInRound(Suffix(r, start), g, cuts, k))
      && (|SubmittedIds(r.nets[start].submitted)| <= MAX_PENDING ==> SettledRound(Suffix(r, start), cuts, k))
  {
    assert |r.nets[0].nodes| == n;
    hide NetInv, IsNetRun, NoCollision, BlocksIn, SubmittedIds, Measure, Capacity, Quiet, AreRounds, StronglyConnected,
      StillRound, SettledRound, RoomInRound, FirstNet, IsQuietRun;
    FirstNetInv(p, n, clock);
    QuietSuffix(p, r, start);
    ConvergenceBound(p, Suffix(r, start), g, cuts);
  }
}
