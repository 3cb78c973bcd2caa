/** The engine that serializes every decision of a node: it owns the store and the queue,
    forwards what it accepts, and reconciles with peers. Each method is one critical
    section and does to the state exactly what the step of the same name does in `Nodes`. */
module Engine {
  import opened GoText
  import opened Entities
  import opened Models
  import opened Mempools
  import opened Nodes
  import opened NodeRuns
  import opened Storage

  const FANOUT := 2
  const JOB_CAPACITY := 128

  datatype Message = TransactionMessage(tx: Transaction) | BlockMessage(b: Block)

  /** A message on its way to the peer with this number. */
  datatype Outgoing = Outgoing(peer: nat, message: Message)

  /** A channel that is closed to wake those who wait on it. */
  class Signal {
    var closed: bool

    constructor ()
      ensures !closed
    {
      closed := false;
    }
  }

  // ---------------------------------------------------------------- forwarding

  /** `order` names each of `n` peers once: what `rand.Perm` returns. */
  predicate Arrangement(order: seq<nat>, n: nat) {
    && |order| == n
    && (forall i | 0 <= i < n :: order[i] < n)
    && (forall i, j | 0 <= i < j < n :: order[i] != order[j])
  }

  ghost predicate Shuffles(shuffle: nat -> seq<nat>, n: nat) {
    forall k: nat :: Arrangement(shuffle(k), n)
  }

  function Chosen(order: seq<nat>): seq<nat> {
    if |order| > FANOUT then order[..FANOUT] else order
  }

  /** Offers the message to each peer in turn; a full queue drops it. */
  function Enqueue(jobs: seq<Outgoing>, peers: seq<nat>, m: Message): seq<Outgoing> {
    if peers == [] then jobs
    else
      var before := Enqueue(jobs, peers[..|peers| - 1], m);
      if |before| < JOB_CAPACITY then before + [Outgoing(peers[|peers| - 1], m)] else before
  }

  /** One broadcast adds at most two sends, all of this message, to different peers. */
  lemma {:induction false} EnqueueFacts(jobs: seq<Outgoing>, peers: seq<nat>, m: Message)
    ensures jobs <= Enqueue(jobs, peers, m)
    ensures |Enqueue(jobs, peers, m)| <= |jobs| + |peers|
    ensures |jobs| + |peers| <= JOB_CAPACITY ==>
      Enqueue(jobs, peers, m) == jobs + seq(|peers|, i requires 0 <= i < |peers| => Outgoing(peers[i], m))
  {
    if peers != [] {
      EnqueueFacts(jobs, peers[..|peers| - 1], m);
    } else {
      assert jobs + [] == jobs;
    }
  }

  /** What is queued is a first part of the peers: all of them while there is room. */
  lemma {:induction false} Queued(jobs: seq<Outgoing>, peers: seq<nat>, m: Message) returns (targets: seq<nat>)
    requires |jobs| <= JOB_CAPACITY
    ensures targets <= peers && (|jobs| + |targets| < JOB_CAPACITY ==> targets == peers)
    ensures |jobs| + |targets| <= JOB_CAPACITY
    ensures Enqueue(jobs, peers, m) == jobs + seq(|targets|, i requires 0 <= i < |targets| => Outgoing(targets[i], m))
  {
    if peers == [] {
      targets := [];
    } else {
      var n := |peers| - 1;
      var before := Queued(jobs, peers[..n], m);
      targets := if |jobs| + |before| < JOB_CAPACITY then before + [peers[n]] else before;
    }
  }

  // ---------------------------------------------------------------- rotation

  /** The peers in the order of one pass: from `start`, around. */
  function Rotation(n: nat, start: nat): seq<nat>
    requires start < n
  {
    seq(n, i requires 0 <= i < n => (start + i) % n)
  }

  lemma WrapsOnce(n: nat, start: nat, i: nat)
    requires start < n && i < n
    ensures (start + i) % n == if start + i < n then start + i else start + i - n
  {
  }

  /** A pass visits every peer, and none twice. */
  lemma RotationVisitsAll(n: nat, start: nat)
    requires start < n
    ensures Arrangement(Rotation(n, start), n)
    ensures forall peer: nat | peer < n :: peer in Rotation(n, start)
    ensures forall i | 0 <= i < n :: Rotation(n, start)[i] == if start + i < n then start + i else start + i - n
  {
    var order := Rotation(n, start);
    forall i | 0 <= i < n ensures order[i] == if start + i < n then start + i else start + i - n {
      WrapsOnce(n, start, i);
    }
    forall peer: nat | peer < n ensures peer in order {
      var i := if peer >= start then peer - start else peer + n - start;
      assert order[i] == peer;
    }
  }

  /** Where the pass after one that started at `start` begins. */
  function NextStart(n: nat, start: nat): (next: nat)
    requires start < n
    ensures next == if start + 1 < n then start + 1 else 0
  {
    WrapsOnce(n, start, if n == 1 then 0 else 1);
    (start + 1) % n
  }

  /** The peer that comes first in pass `k` after the one that started at `start`. */
  function FirstOfPass(n: nat, start: nat, k: nat): (first: nat)
    requires start < n
    ensures first < n
  {
    if k == 0 then start else NextStart(n, FirstOfPass(n, start, k - 1))
  }

  lemma {:induction false} FirstAfter(n: nat, start: nat, k: nat, d: nat)
    requires start < n && d < n
    ensures var first := FirstOfPass(n, start, k);
      FirstOfPass(n, start, k + d) == if first + d < n then first + d else first + d - n
  {
    if d > 0 {
      FirstAfter(n, start, k, d - 1);
    }
  }

  /** In any `n` passes in a row each of the `n` peers comes first exactly once, so no
      slow peer can keep the others from being reached. */
  lemma FirstExactlyOnce(n: nat, start: nat, k: nat, peer: nat)
    requires start < n && peer < n
    ensures exists i: nat :: k <= i < k + n && FirstOfPass(n, start, i) == peer
    ensures forall i: nat, j: nat | k <= i < j < k + n :: FirstOfPass(n, start, i) != FirstOfPass(n, start, j)
  {
    forall i: nat, j: nat | k <= i < j < k + n ensures FirstOfPass(n, start, i) != FirstOfPass(n, start, j) {
      FirstAfter(n, start, k, i - k);
      FirstAfter(n, start, k, j - k);
    }
    var first := FirstOfPass(n, start, k);
    var d := if peer >= first then peer - first else peer + n - first;
    FirstAfter(n, start, k, d);
    assert FirstOfPass(n, start, k + d) == peer;
  }

  // ---------------------------------------------------------------- synchronization

  /** What one peer answers to a synchronization pass, if it answers. */
  datatype Reply = Reply(chain: Option<seq<Block>>, pending: Option<seq<Transaction>>)

  lemma InvalidNotAdopted(p: Rules, n: Node, candidate: seq<Block>, now: int, saves: bool)
    requires !ValidChain(p, candidate, now)
    ensures Adopt(p, n, candidate, now, saves).0 == n
  {
    hide ValidChain, BetterChain, ReorgPool;
  }

  // ---------------------------------------------------------------- gossip of a pass

  /** The sends queued so far and how often the random generator was asked. */
  datatype Gossip = Gossip(jobs: seq<Outgoing>, draws: nat)

  function Gossiped(g: Gossip, shuffle: nat -> seq<nat>, m: Message): Gossip {
    Gossip(Enqueue(g.jobs, Chosen(shuffle(g.draws)), m), g.draws + 1)
  }

  /** After one message was submitted: gossiped exactly if it was accepted. */
  function GossipOf(n: Node, tx: Transaction, g: Gossip, shuffle: nat -> seq<nat>): Gossip {
    if Submit(n, tx).1 == Accepted then Gossiped(g, shuffle, TransactionMessage(tx)) else g
  }

  /** After messages were submitted one by one. */
  function GossipEach(n: Node, txs: seq<Transaction>, g: Gossip, shuffle: nat -> seq<nat>): Gossip {
    if txs == [] then g
    else
      var k := |txs| - 1;
      GossipOf(SubmitAll(n, txs[..k]), txs[k], GossipEach(n, txs[..k], g, shuffle), shuffle)
  }

  /** The message goes to the first two peers of the arrangement drawn, or to all of fewer,
      as far as there is room. */
  lemma GossipedExactly(g: Gossip, shuffle: nat -> seq<nat>, m: Message, n: nat)
    requires Arrangement(shuffle(g.draws), n) && |g.jobs| <= JOB_CAPACITY
    ensures var r, k := Gossiped(g, shuffle, m), if n < 2 then n else 2;
      && r.draws == g.draws + 1 && g.jobs <= r.jobs
      && |r.jobs| == (if |g.jobs| + k <= 128 then |g.jobs| + k else 128)
      && forall i | |g.jobs| <= i < |r.jobs| :: r.jobs[i] == Outgoing(shuffle(g.draws)[i - |g.jobs|], m)
  {
    var targets := Queued(g.jobs, Chosen(shuffle(g.draws)), m);
    hide Enqueue;
    assert forall i | 0 <= i < |targets| :: targets[i] == shuffle(g.draws)[i];
  }

  // ---------------------------------------------------------------- messages one by one

  /** Submitting one list after another is submitting both in order; with
      `SubmitAllOne` this fixes what submitting a list does. */
  lemma {:induction false} SubmitAllConcat(n: Node, a: seq<Transaction>, b: seq<Transaction>)
    ensures SubmitAll(n, a + b) == SubmitAll(SubmitAll(n, a), b)
  {
    hide Submit;
    if b == [] {
      assert a + b == a;
    } else {
      var k := |b| - 1;
      SubmitAllConcat(n, a, b[..k]);
      assert (a + b)[..|a + b| - 1] == a + b[..k];
    }
  }

  lemma SubmitAllOne(n: Node, tx: Transaction)
    ensures SubmitAll(n, []) == n && SubmitAll(n, [tx]) == Submit(n, tx).0
  {
    hide Submit;
  }

  /** Submitting a list changes the queue alone and keeps what was known. */
  lemma {:induction false} SubmitAllFacts(p: Rules, n: Node, txs: seq<Transaction>, now: int)
    requires Inv(p, n, now)
    ensures var m := SubmitAll(n, txs);
      Inv(p, m, now) && m.chain == n.chain && m.epoch == n.epoch && Known(n) <= Known(m) && |n.pool| <= |m.pool|
  {
    hide Inv, Submit, Known;
    if txs != [] {
      var k := |txs| - 1;
      SubmitAllFacts(p, n, txs[..k], now);
      SubmitFacts(p, SubmitAll(n, txs[..k]), txs[k], now);
      SubmitSize(SubmitAll(n, txs[..k]), txs[k]);
    }
  }

  lemma SubmitSize(n: Node, tx: Transaction)
    ensures |Submit(n, tx).0.pool| == |n.pool| + if Submit(n, tx).1 == Accepted then 1 else 0
    ensures Submit(n, tx).0.epoch == n.epoch
  {
    hide ValidTransaction, ChainIds;
  }

  lemma SubmitKnows(p: Rules, n: Node, tx: Transaction, now: int)
    requires Inv(p, n, now) && ValidTransaction(tx)
    ensures tx.id in Known(Submit(n, tx).0) || |n.pool| >= 1000
  {
    SubmitFacts(p, n, tx, now);
    hide Inv, ValidTransaction, ChainIds;
  }

  /** Every valid message of the list is known afterwards, unless the queue was full when
      its turn came. */
  lemma {:induction false} SubmitAllKnows(p: Rules, n: Node, txs: seq<Transaction>, j: nat, now: int)
    requires Inv(p, n, now) && j < |txs| && ValidTransaction(txs[j])
    ensures txs[j].id in Known(SubmitAll(n, txs)) || |SubmitAll(n, txs[..j]).pool| >= 1000
  {
    var before, rest := SubmitAll(n, txs[..j]), txs[j + 1..];
    assert txs == (txs[..j] + [txs[j]]) + rest;
    hide Inv, Submit, Known, SubmitAll, ValidTransaction;
    SubmitAllFacts(p, n, txs[..j], now);
    SubmitAllConcat(n, txs[..j], [txs[j]]);
    SubmitAllOne(before, txs[j]);
    SubmitAllConcat(n, txs[..j] + [txs[j]], rest);
    SubmitKnows(p, before, txs[j], now);
    SubmitKeepsInv(p, before, txs[j], now);
    SubmitAllFacts(p, Submit(before, txs[j]).0, rest, now);
  }

  lemma GossipOfFacts(n: Node, tx: Transaction, g: Gossip, shuffle: nat -> seq<nat>, peers: nat)
    requires Arrangement(shuffle(g.draws), peers) && |g.jobs| <= JOB_CAPACITY
    ensures var r, gained := GossipOf(n, tx, g, shuffle), |Submit(n, tx).0.pool| - |n.pool|;
      && (gained == 0 ==> r == g) && 0 <= gained <= 1
      && (gained == 1 ==> r.draws == g.draws + 1)
      && g.jobs <= r.jobs && |r.jobs| <= JOB_CAPACITY
      && (forall i | |g.jobs| <= i < |r.jobs| :: r.jobs[i].message == TransactionMessage(tx))
      && (gained == 1 && |g.jobs| + 2 <= 128 ==> |r.jobs| == |g.jobs| + if peers < 2 then peers else 2)
  {
    SubmitSize(n, tx);
    hide Submit, Gossiped;
    GossipedExactly(g, shuffle, TransactionMessage(tx), peers);
  }

  /** A list is gossiped message by message as its messages are accepted: one draw for each,
      and while there is room two sends, or as many as there are peers. */
  lemma {:induction false} GossipEachFacts(n: Node, txs: seq<Transaction>, g: Gossip, shuffle: nat -> seq<nat>, peers: nat)
    requires Shuffles(shuffle, peers) && |g.jobs| <= JOB_CAPACITY
    ensures var m, r := SubmitAll(n, txs), GossipEach(n, txs, g, shuffle);
      && g.jobs <= r.jobs && |r.jobs| <= JOB_CAPACITY && |n.pool| <= |m.pool| <= |n.pool| + |txs|
      && r.draws == g.draws + (|m.pool| - |n.pool|)
      && OnlyOf(g.jobs, r.jobs, txs)
      && (|g.jobs| + 2 * |txs| <= 128 ==> |r.jobs| == |g.jobs| + (if peers < 2 then peers else 2) * (|m.pool| - |n.pool|))
  {
    hide Submit, GossipOf, Arrangement, OnlyOf;
    if txs == [] {
      assert OnlyOf(g.jobs, g.jobs, txs) by {
        NothingNew(g.jobs, txs);
      }
    } else {
      var k := |txs| - 1;
      var before, sent := SubmitAll(n, txs[..k]), GossipEach(n, txs[..k], g, shuffle);
      GossipEachFacts(n, txs[..k], g, shuffle, peers);
      assert Arrangement(shuffle(sent.draws), peers);
      GossipOfFacts(before, txs[k], sent, shuffle, peers);
      OnlyMore(g.jobs, sent.jobs, GossipEach(n, txs, g, shuffle).jobs, txs);
      hide Shuffles;
      OneMoreTime(if peers < 2 then peers else 2, |before.pool| - |n.pool|);
    }
  }

  lemma OneMoreTime(k: nat, x: int)
    ensures k * (x + 1) == k * x + k
  {
  }

  /** All sends queued since carry messages of the list. */
  predicate OnlyOf(before: seq<Outgoing>, after: seq<Outgoing>, txs: seq<Transaction>) {
    forall i | |before| <= i < |after| :: after[i].message.TransactionMessage? && after[i].message.tx in txs
  }

  lemma NothingNew(jobs: seq<Outgoing>, txs: seq<Transaction>)
    ensures OnlyOf(jobs, jobs, txs)
  {
  }

  lemma OnlyMore(first: seq<Outgoing>, before: seq<Outgoing>, after: seq<Outgoing>, txs: seq<Transaction>)
    requires txs != [] && OnlyOf(first, before, txs[..|txs| - 1]) && before <= after
    requires forall i | |before| <= i < |after| :: after[i].message == TransactionMessage(txs[|txs| - 1])
    ensures OnlyOf(first, after, txs)
  {
    assert forall t | t in txs[..|txs| - 1] :: t in txs;
    assert txs[|txs| - 1] in txs;
  }

  // ---------------------------------------------------------------- whole passes

  /** One turn of a pass: what the peer replied, the node before, in the middle and after,
      and the sends queued before and after. */
  datatype Hearing = Hearing(reply: Reply, before: Node, mid: Node, after: Node, sentBefore: Gossip, sentAfter: Gossip)

  /** The chain is considered first (`mid` is the node then), and after it, unless there are
      more than 1000, the messages in their order. An adopted chain is not forwarded,
      accepted messages are. */
  ghost predicate IsTurn(p: Rules, t: Hearing, now: int, saves: bool, shuffle: nat -> seq<nat>) {
    var chain, pending := t.reply.chain, t.reply.pending;
    && t.mid == (if chain.Some? then Adopt(p, t.before, chain.value, now, saves).0 else t.before)
    && if pending.Some? && |pending.value| <= MAX_PENDING
       then t.after == SubmitAll(t.mid, pending.value) && t.sentAfter == GossipEach(t.mid, pending.value, t.sentBefore, shuffle)
       else t.after == t.mid && t.sentAfter == t.sentBefore
  }

  predicate FollowsOn(pass: seq<Hearing>, k: int)
    requires 0 < k < |pass|
  {
    pass[k].before == pass[k - 1].after && pass[k].sentBefore == pass[k - 1].sentAfter
  }

  /** Turn after turn, from one state of the node and its sends to another. */
  ghost predicate IsPass(p: Rules, pass: seq<Hearing>, n: Node, g: Gossip, m: Node, h: Gossip, now: int, saves: bool,
                         shuffle: nat -> seq<nat>) {
    && (forall t | t in pass :: IsTurn(p, t, now, saves, shuffle))
    && (forall k | 0 < k < |pass| :: FollowsOn(pass, k))
    && if pass == [] then m == n && h == g
       else pass[0].before == n && pass[0].sentBefore == g && pass[|pass| - 1].after == m && pass[|pass| - 1].sentAfter == h
  }

  lemma PassSnoc(p: Rules, pass: seq<Hearing>, n: Node, g: Gossip, t: Hearing, now: int, saves: bool, shuffle: nat -> seq<nat>)
    requires IsPass(p, pass, n, g, t.before, t.sentBefore, now, saves, shuffle) && IsTurn(p, t, now, saves, shuffle)
    ensures IsPass(p, pass + [t], n, g, t.after, t.sentAfter, now, saves, shuffle)
  {
    hide IsTurn;
    var more := pass + [t];
    forall k | 0 < k < |more| ensures FollowsOn(more, k) {
      if k < |pass| {
        assert FollowsOn(pass, k);
      }
    }
  }

  lemma PassPrefix(p: Rules, pass: seq<Hearing>, n: Node, g: Gossip, m: Node, h: Gossip, now: int, saves: bool, shuffle: nat -> seq<nat>)
    requires IsPass(p, pass, n, g, m, h, now, saves, shuffle) && pass != []
    ensures var last := pass[|pass| - 1];
      && IsPass(p, pass[..|pass| - 1], n, g, last.before, last.sentBefore, now, saves, shuffle)
      && IsTurn(p, last, now, saves, shuffle) && last.after == m && last.sentAfter == h
  {
    hide IsTurn;
    var k := |pass| - 1;
    var fewer := pass[..k];
    forall i | 0 < i < k ensures FollowsOn(fewer, i) {
      assert FollowsOn(pass, i);
    }
    if k > 0 {
      assert FollowsOn(pass, k);
    }
    assert pass[k] in pass && forall t | t in fewer :: t in pass;
  }

  /** A valid chain that fits is not better than the chain after its turn; if it was better
      before, it is the chain after its turn. */
  lemma TurnChain(p: Rules, t: Hearing, now: int, saves: bool, shuffle: nat -> seq<nat>)
    requires Inv(p, t.before, now) && IsTurn(p, t, now, saves, shuffle)
    ensures Inv(p, t.mid, now) && Inv(p, t.after, now)
    ensures NoWorse(t.after.chain, t.before.chain) && Known(t.before) <= Known(t.after)
    ensures var chain := t.reply.chain;
      && (chain.Some? && saves && ValidChain(p, chain.value, now) && |ReorgPool(t.before.pool, t.before.chain, chain.value)| <= 1000
          ==> !BetterChain(chain.value, t.after.chain) && (BetterChain(chain.value, t.before.chain) ==> t.after.chain == chain.value))
  {
    NoWorseReflexive(t.before.chain);
    hide Inv, Known, SubmitAll, GossipEach, ReorgPool, ValidChain;
    if t.reply.chain.Some? {
      AdoptFacts(p, t.before, t.reply.chain.value, now, saves);
      AdoptAscends(p, t.before, t.reply.chain.value, now, saves);
      BetterIrreflexive(t.reply.chain.value);
    }
    if t.reply.pending.Some? {
      SubmitAllFacts(p, t.mid, t.reply.pending.value, now);
    }
    hide BetterChain;
  }

  lemma AdoptAscends(p: Rules, n: Node, c: seq<Block>, now: int, saves: bool)
    ensures NoWorse(Adopt(p, n, c, now, saves).0.chain, n.chain)
  {
    hide ValidChain, BetterChain, ReorgPool;
  }

  lemma NotBetterLater(c: seq<Block>, b: seq<Block>, a: seq<Block>)
    requires !BetterChain(c, b) && NoWorse(a, b)
    ensures !BetterChain(c, a)
  {
    if BetterChain(c, a) && a != b {
      BetterTransitive(c, a, b);
    }
  }

  /** No turn undoes what an earlier one did. */
  lemma {:induction false} PassKeeps(p: Rules, pass: seq<Hearing>, n: Node, g: Gossip, m: Node, h: Gossip, now: int, saves: bool,
                                     shuffle: nat -> seq<nat>)
    requires IsPass(p, pass, n, g, m, h, now, saves, shuffle) && Inv(p, n, now)
    ensures Inv(p, m, now) && NoWorse(m.chain, n.chain) && Known(n) <= Known(m)
    ensures forall t | t in pass :: Inv(p, t.before, now) && NoWorse(m.chain, t.after.chain) && Known(t.after) <= Known(m)
  {
    NoWorseReflexive(m.chain);
    hide Inv, IsTurn, NoWorse, Known, BetterChain, ReorgPool, ValidChain;
    if pass != [] {
      var k := |pass| - 1;
      var last := pass[k];
      PassPrefix(p, pass, n, g, m, h, now, saves, shuffle);
      PassKeeps(p, pass[..k], n, g, last.before, last.sentBefore, now, saves, shuffle);
      TurnChain(p, last, now, saves, shuffle);
      NoWorseTransitive(m.chain, last.before.chain, n.chain);
      assert pass == pass[..k] + [last];
      forall t | t in pass[..k] ensures NoWorse(m.chain, t.after.chain) {
        NoWorseTransitive(m.chain, last.before.chain, t.after.chain);
      }
    }
  }

  lemma TurnMessages(p: Rules, t: Hearing, now: int, saves: bool, shuffle: nat -> seq<nat>, j: nat)
    requires Inv(p, t.before, now) && IsTurn(p, t, now, saves, shuffle)
    requires t.reply.pending.Some? && j < |t.reply.pending.value| <= 1000 && ValidTransaction(t.reply.pending.value[j])
    ensures t.reply.pending.value[j].id in Known(t.after) || |SubmitAll(t.mid, t.reply.pending.value[..j]).pool| >= 1000
  {
    TurnChain(p, t, now, saves, shuffle);
    SubmitAllKnows(p, t.mid, t.reply.pending.value, j, now);
    hide Inv, Known, SubmitAll, GossipEach, ReorgPool, ValidChain, BetterChain, NoWorse, ValidTransaction;
  }

  /** What the turns achieve lasts to the end of the pass: no valid chain heard that fitted is
      better than the chain then, and every valid message heard is known, unless the queue
      was full when its turn came. */
  lemma PassHeeds(p: Rules, pass: seq<Hearing>, n: Node, g: Gossip, m: Node, h: Gossip, now: int, saves: bool, shuffle: nat -> seq<nat>)
    requires IsPass(p, pass, n, g, m, h, now, saves, shuffle) && Inv(p, n, now)
    ensures forall t | t in pass && t.reply.chain.Some? && saves && ValidChain(p, t.reply.chain.value, now)
        && |ReorgPool(t.before.pool, t.before.chain, t.reply.chain.value)| <= 1000 ::
      !BetterChain(t.reply.chain.value, m.chain)
    ensures forall t, j: nat | t in pass && t.reply.pending.Some? && j < |t.reply.pending.value| <= 1000
        && ValidTransaction(t.reply.pending.value[j]) ::
      t.reply.pending.value[j].id in Known(m) || |SubmitAll(t.mid, t.reply.pending.value[..j]).pool| >= 1000
  {
    PassKeeps(p, pass, n, g, m, h, now, saves, shuffle);
    hide Inv, IsTurn, Known, NoWorse, BetterChain, ReorgPool, ValidChain, ValidTransaction, SubmitAll;
    forall t | t in pass && t.reply.chain.Some? && saves && ValidChain(p, t.reply.chain.value, now)
        && |ReorgPool(t.before.pool, t.before.chain, t.reply.chain.value)| <= 1000
      ensures !BetterChain(t.reply.chain.value, m.chain)
    {
      TurnChain(p, t, now, saves, shuffle);
      NotBetterLater(t.reply.chain.value, t.after.chain, m.chain);
    }
    forall t, j: nat | t in pass && t.reply.pending.Some? && j < |t.reply.pending.value| <= 1000
        && ValidTransaction(t.reply.pending.value[j])
      ensures t.reply.pending.value[j].id in Known(m) || |SubmitAll(t.mid, t.reply.pending.value[..j]).pool| >= 1000
    {
      TurnMessages(p, t, now, saves, shuffle, j);
    }
  }

  lemma PassTurns(p: Rules, pass: seq<Hearing>, n: Node, g: Gossip, m: Node, h: Gossip, now: int, saves: bool, shuffle: nat -> seq<nat>)
    requires IsPass(p, pass, n, g, m, h, now, saves, shuffle)
    ensures pass == [] ==> m == n && h == g
    ensures pass != [] ==> pass[0].before == n && pass[|pass| - 1].after == m
    ensures pass != [] ==> pass[0].sentBefore == g && pass[|pass| - 1].sentAfter == h
    ensures forall k | 0 < k < |pass| :: FollowsOn(pass, k)
    ensures forall t | t in pass ::
      && (t.reply.chain.None? ==> t.mid == t.before)
      && (t.reply.chain.Some? ==> t.mid == Adopt(p, t.before, t.reply.chain.value, now, saves).0)
      && (t.reply.pending.None? || |t.reply.pending.value| > 1000 ==> t.after == t.mid)
      && (t.reply.pending.Some? && |t.reply.pending.value| <= 1000 ==> t.after == SubmitAll(t.mid, t.reply.pending.value))
  {
    hide Adopt, SubmitAll, GossipEach, FollowsOn;
  }

  /** The messages a turn accepts are gossiped, and nothing else: one draw for each, and while
      there is room two sends, or as many as there are peers. */
  predicate GossipsAccepted(t: Hearing, peers: nat) {
    var accepted := |t.after.pool| - |t.mid.pool|;
    && t.sentBefore.jobs <= t.sentAfter.jobs && t.sentAfter.draws == t.sentBefore.draws + accepted
    && OnlyOf(t.sentBefore.jobs, t.sentAfter.jobs, if t.reply.pending.Some? then t.reply.pending.value else [])
    && (t.reply.pending.Some? && |t.sentBefore.jobs| + 2 * |t.reply.pending.value| <= 128 ==>
          |t.sentAfter.jobs| == |t.sentBefore.jobs| + (if peers < 2 then peers else 2) * accepted)
  }

  lemma GossipMeans(pass: seq<Hearing>, peers: nat)
    requires forall t | t in pass :: GossipsAccepted(t, peers)
    ensures forall t | t in pass :: t.sentBefore.jobs <= t.sentAfter.jobs
    ensures forall t | t in pass :: t.sentAfter.draws == t.sentBefore.draws + (|t.after.pool| - |t.mid.pool|)
    ensures forall t, i | t in pass && |t.sentBefore.jobs| <= i < |t.sentAfter.jobs| ::
      && t.sentAfter.jobs[i].message.TransactionMessage?
      && t.reply.pending.Some? && t.sentAfter.jobs[i].message.tx in t.reply.pending.value
    ensures forall t | t in pass && t.reply.pending.Some? && |t.sentBefore.jobs| + 2 * |t.reply.pending.value| <= 128 ::
      |t.sentAfter.jobs| == |t.sentBefore.jobs| + (if peers < 2 then peers else 2) * (|t.after.pool| - |t.mid.pool|)
  {
    hide OnlyOf;
    forall t, i | t in pass && |t.sentBefore.jobs| <= i < |t.sentAfter.jobs|
      ensures t.sentAfter.jobs[i].message.TransactionMessage?
      ensures t.reply.pending.Some? && t.sentAfter.jobs[i].message.tx in t.reply.pending.value
    {
      assert GossipsAccepted(t, peers);
      OnlyOfMeans(t.sentBefore.jobs, t.sentAfter.jobs, if t.reply.pending.Some? then t.reply.pending.value else [], i);
    }
  }

  lemma OnlyOfMeans(before: seq<Outgoing>, after: seq<Outgoing>, txs: seq<Transaction>, i: nat)
    requires OnlyOf(before, after, txs) && |before| <= i < |after|
    ensures after[i].message.TransactionMessage? && after[i].message.tx in txs
  {
  }

  lemma TurnGossip(p: Rules, t: Hearing, now: int, saves: bool, shuffle: nat -> seq<nat>, peers: nat)
    requires IsTurn(p, t, now, saves, shuffle) && Shuffles(shuffle, peers) && |t.sentBefore.jobs| <= JOB_CAPACITY
    ensures |t.sentAfter.jobs| <= JOB_CAPACITY && GossipsAccepted(t, peers)
  {
    hide Shuffles, GossipEach, SubmitAll, Adopt, OnlyOf;
    NothingNew(t.sentBefore.jobs, if t.reply.pending.Some? then t.reply.pending.value else []);
    if t.reply.pending.Some? {
      GossipEachFacts(t.mid, t.reply.pending.value, t.sentBefore, shuffle, peers);
    }
  }

  lemma {:induction false} PassGossips(p: Rules, pass: seq<Hearing>, n: Node, g: Gossip, m: Node, h: Gossip, now: int, saves: bool,
                                       shuffle: nat -> seq<nat>, peers: nat)
    requires IsPass(p, pass, n, g, m, h, now, saves, shuffle) && Shuffles(shuffle, peers) && |g.jobs| <= JOB_CAPACITY
    ensures |h.jobs| <= JOB_CAPACITY
    ensures forall t | t in pass :: GossipsAccepted(t, peers)
  {
    hide IsTurn, Shuffles, GossipsAccepted;
    if pass != [] {
      var k := |pass| - 1;
      var last := pass[k];
      PassPrefix(p, pass, n, g, m, h, now, saves, shuffle);
      PassGossips(p, pass[..k], n, g, last.before, last.sentBefore, now, saves, shuffle, peers);
      TurnGossip(p, last, now, saves, shuffle, peers);
      assert forall t | t in pass :: t in pass[..k] || t == last;
    }
  }

  // ---------------------------------------------------------------- the engine

  /** A signal this engine has had, and the chain it had with it. */
  datatype Turn = Turn(signal: Signal, chain: seq<Block>)

  ghost function SignalsOf(turns: seq<Turn>): set<Signal> {
    set t | t in turns :: t.signal
  }

  /** Submission as the queue sees it, once the store does not know the ID. */
  lemma SubmitIs(n: Node, tx: Transaction, pool: Pool, err: Status)
    requires err ==
      if !ValidTransaction(tx) then Invalid
      else if tx.id in ChainIds(n.chain) || tx.id in n.pool then Duplicate
      else if |n.pool| >= MAX_PENDING then Full
      else Accepted
    requires pool == if err == Accepted then n.pool[tx.id := tx] else n.pool
    ensures (n.(pool := pool), err) == Submit(n, tx)
  {
  }

  lemma ListedIds(n: Node, pending: seq<Transaction>)
    requires Keyed(n.pool) && n.pool.Keys !! ChainIds(n.chain) && IsListing(pending, n.pool)
    ensures ChainIds(n.chain) + TxIds(pending) == Known(n) && ChainIds(n.chain) !! TxIds(pending)
  {
    hide ChainIds, TxIds;
    ListingIds(pending, n.pool);
  }

  lemma WorkOfListing(n: Node, pending: seq<Transaction>)
    requires Keyed(n.pool) && IsListing(pending, n.pool)
    ensures WorkOf(n) == if |pending| > MAX_BLOCK_TRANSACTIONS then pending[..MAX_BLOCK_TRANSACTIONS] else pending
  {
    ListingUnique(pending, Listing(n.pool), n.pool);
  }

  lemma Refile(txs: seq<Transaction>, m: Pool)
    requires DistinctIds(txs) && SameElements(txs, m) && Keyed(m)
    ensures Overlay(map[], txs, {}) == m
  {
    OverlayRebuilds(txs, m, {});
    assert m - {} == m;
  }

  /** Adoption in the order of the engine: preparation first, then the store's verdict. */
  lemma AdoptIs(p: Rules, n: Node, candidate: seq<Block>, now: int, saves: bool)
    ensures Adopt(p, n, candidate, now, saves) ==
      var next := ReorgPool(n.pool, n.chain, candidate);
      var err :=
        if !BetterChain(candidate, n.chain) then NotBetter
        else if |next| > MAX_PENDING then Full
        else FileChainStorage.ReplaceStatus(p, n.chain, candidate, now, saves);
      (if err == Accepted then Commit(n, candidate, next) else n, err)
  {
    hide ValidChain, BetterChain, ReorgPool;
  }

  lemma ReplacedIsBetter(p: Rules, current: seq<Block>, candidate: seq<Block>, now: int, saves: bool)
    requires FileChainStorage.ReplaceStatus(p, current, candidate, now, saves) == Accepted
    ensures BetterChain(candidate, current)
  {
  }

  class GossipEngine {
    const chainStore: FileChainStorage
    const mempool: Mempool
    const peers: seq<Text>
    /** The successive results of the random generator. */
    const shuffle: nat -> seq<nat>
    var draws: nat
    var changed: Signal
    var syncNeeded: bool
    var jobs: seq<Outgoing>
    var nextPeer: nat
    /** Counts the signals this engine has had before the current one. */
    ghost var epoch: nat
    /** All signals this engine has had, the current one last. */
    ghost var turns: seq<Turn>

    ghost function Sends(): Gossip
      reads this`jobs, this`draws
    {
      Gossip(jobs, draws)
    }

    /** The current signal is open and stands for the current chain; every earlier one is
        closed, and the chain is better than the one it stood for. */
    ghost predicate SignalsTell(current: seq<Block>)
      reads this`turns, this`epoch, this`changed, SignalsOf(turns)
    {
      && |turns| == epoch + 1
      && turns[epoch] == Turn(changed, current)
      && !turns[epoch].signal.closed
      && forall e | 0 <= e < epoch :: turns[e].signal.closed && BetterChain(current, turns[e].chain)
    }

    ghost function State(): Node
      reads this, chainStore, mempool
    {
      Node(chainStore.contents, mempool.transactions, epoch,
        if chainStore.file.Holds? then chainStore.file.chain else [])
    }

    /** The store is as valid as it was while nobody touches it. */
    twostate lemma StoreSame(now: int)
      requires unchanged(chainStore) && forall b | b in chainStore.chain :: unchanged(b.transactions)
      ensures chainStore.Valid(now) == old(chainStore.Valid(now))
    {
      ViewsSame(chainStore.chain);
      hide Consistent, Views;
    }

    /** The signals tell the same while nobody touches them. */
    twostate lemma SignalsSame(current: seq<Block>)
      requires unchanged(`turns) && unchanged(`epoch) && unchanged(`changed)
      requires forall t | t in turns :: unchanged(t.signal)
      ensures SignalsTell(current) == old(SignalsTell(current))
    {
      assert forall e | 0 <= e < |turns| :: turns[e] in turns;
      hide BetterChain;
    }

    ghost predicate Valid(now: int)
      reads this, chainStore, Slices(chainStore.chain), mempool, SignalsOf(turns)
    {
      && chainStore.Valid(now)
      && Inv(chainStore.rules, State(), now)
      && SignalsTell(chainStore.contents)
      && Shuffles(shuffle, |peers|) && |jobs| <= JOB_CAPACITY
      && (peers != [] ==> nextPeer < |peers|)
    }

    constructor (chainStore: FileChainStorage, mempool: Mempool, peers: seq<Text>, shuffle: nat -> seq<nat>, ghost now: int)
      requires chainStore.Valid(now) && mempool.transactions == map[]
      requires Shuffles(shuffle, |peers|)
      ensures Valid(now) && State() == Node(chainStore.contents, map[], 0, chainStore.contents) && jobs == []
      ensures this.chainStore == chainStore && this.mempool == mempool && fresh(changed)
      ensures turns == [Turn(changed, chainStore.contents)]
    {
      this.chainStore := chainStore;
      this.mempool := mempool;
      this.peers := peers;
      this.shuffle := shuffle;
      this.draws := 0;
      this.changed := new Signal();
      this.syncNeeded := false;
      this.jobs := [];
      this.nextPeer := 0;
      this.epoch := 0;
      new;
      turns := [Turn(changed, chainStore.contents)];
      ViewsSame(chainStore.chain);
      hide ValidChain, ValidTransaction, ChainIds;
    }

    lemma Advance(now: int, later: int)
      requires Valid(now) && now <= later
      ensures Valid(later)
    {
      InvMonotone(chainStore.rules, State(), now, later);
      hide ValidLinks;
    }

    /** The signal handed out in any earlier turn is closed exactly if the chain is no
        longer the one it was handed out with. It does not open again, and the chain does
        not come back. */
    lemma SignalTellsChange(now: int, e: nat)
      requires Valid(now) && e < |turns|
      ensures turns[e].signal.closed <==> State().chain != turns[e].chain
      ensures turns[e].signal.closed <==> State().epoch != e
      ensures NoWorse(State().chain, turns[e].chain)
    {
      hide ValidLinks, ValidPool, ChainIds, Views;
      BetterIrreflexive(turns[e].chain);
    }

    /** Sends a message to the first two peers of a random arrangement, or to all of fewer,
        as far as the queue of sends has room. */
    method Broadcast(m: Message)
      requires Arrangement(shuffle(draws), |peers|) && |jobs| <= JOB_CAPACITY
      modifies this`jobs, this`draws
      ensures Sends() == Gossiped(old(Sends()), shuffle, m)
      ensures draws == old(draws) + 1 && old(jobs) <= jobs && |jobs| <= JOB_CAPACITY
      ensures var k := if |peers| < 2 then |peers| else 2;
        |jobs| == if |old(jobs)| + k <= 128 then |old(jobs)| + k else 128
      ensures forall i | |old(jobs)| <= i < |jobs| :: jobs[i] == Outgoing(shuffle(old(draws))[i - |old(jobs)|], m)
    {
      GossipedExactly(Sends(), shuffle, m, |peers|);
      var targets := Chosen(shuffle(draws));
      hide Arrangement, Chosen;
      draws := draws + 1;
      for i := 0 to |targets|
        invariant jobs == Enqueue(old(jobs), targets[..i], m) && draws == old(draws) + 1
      {
        assert targets[..i + 1][..i] == targets[..i];
        if |jobs| < JOB_CAPACITY {
          jobs := jobs + [Outgoing(targets[i], m)];
        }
      }
      assert targets[..|targets|] == targets;
    }

    lemma Arranged(k: nat)
      requires Shuffles(shuffle, |peers|)
      ensures Arrangement(shuffle(k), |peers|)
    {
      hide Arrangement;
    }

    /** The same, for who it reaches while there is room: two different peers, or the only
        one. */
    method Forward(m: Message)
      requires Arrangement(shuffle(draws), |peers|) && |jobs| <= JOB_CAPACITY
      modifies this`jobs, this`draws
      ensures Sends() == Gossiped(old(Sends()), shuffle, m) && |jobs| <= JOB_CAPACITY
      ensures |old(jobs)| + 2 <= 128 ==>
        && old(jobs) <= jobs && |jobs| == |old(jobs)| + (if |peers| < 2 then |peers| else 2)
        && (forall i | |old(jobs)| <= i < |jobs| :: jobs[i].message == m && jobs[i].peer < |peers|)
        && (|peers| >= 2 ==> jobs[|old(jobs)|].peer != jobs[|old(jobs)| + 1].peer)
    {
      hide Gossiped;
      Broadcast(m);
    }

    /** Accepts a message whose ID is neither confirmed nor pending, and only then
        gossips it. */
    method SubmitTransaction(tx: Transaction, ghost now: int) returns (err: Status)
      requires Valid(now)
      modifies this`jobs, this`draws, mempool
      ensures Valid(now)
      ensures (State(), err) == Submit(old(State()), tx)
      ensures Sends() == GossipOf(old(State()), tx, old(Sends()), shuffle)
      ensures err != Accepted ==> jobs == old(jobs) && draws == old(draws)
      ensures err == Accepted && |old(jobs)| + 2 <= 128 ==>
        && old(jobs) <= jobs && |jobs| == |old(jobs)| + (if |peers| < 2 then |peers| else 2)
        && (forall i | |old(jobs)| <= i < |jobs| :: jobs[i].message == TransactionMessage(tx) && jobs[i].peer < |peers|)
        && (|peers| >= 2 ==> jobs[|old(jobs)|].peer != jobs[|old(jobs)| + 1].peer)
    {
      err := Enter(tx, now);
      ghost var n := State();
      label entered:
      hide Inv, Shuffles, Submit, Gossiped, SignalsTell, Arrangement, FileChainStorage.Valid;
      Arranged(draws);
      if err == Accepted {
        Forward(TransactionMessage(tx));
      }
      SignalsSame@entered(chainStore.contents);
      StoreSame@entered(now);
      assert State() == n;
    }

    /** The critical section of a submission: store lookup and queueing. */
    method Enter(tx: Transaction, ghost now: int) returns (err: Status)
      requires Valid(now)
      modifies mempool
      ensures Valid(now)
      ensures (State(), err) == Submit(old(State()), tx)
    {
      ghost var n := State();
      assert n.chain == chainStore.contents && chainStore.txIDs == ChainIds(n.chain);
      hide Inv, Shuffles, ValidTransaction, ChainIds, Submit, SignalsTell, FileChainStorage.Valid;
      if !ValidTransaction(tx) {
        err := Invalid;
      } else {
        var known := chainStore.TransactionExists(tx.id);
        assert State() == n && (known <==> tx.id in ChainIds(n.chain));
        if known {
          err := Duplicate;
        } else {
          err := mempool.TryAdd(tx);
        }
      }
      assert State() == n.(pool := mempool.transactions);
      SubmitIs(n, tx, mempool.transactions, err);
      StoreSame(now);
      SignalsSame(chainStore.contents);
      SubmitKeepsInv(chainStore.rules, n, tx, now);
    }

    /** Wakes the miners waiting on the current signal and puts a new one in its place,
        now that a better chain has taken the place of `before`. */
    method Renew(ghost before: seq<Block>)
      requires SignalsTell(before) && BetterChain(chainStore.contents, before)
      modifies this`changed, this`epoch, this`turns, changed
      ensures old(changed).closed && fresh(changed)
      ensures SignalsTell(chainStore.contents)
      ensures turns == old(turns) + [Turn(changed, chainStore.contents)]
      ensures State() == old(State()).(epoch := old(epoch) + 1)
    {
      forall e | 0 <= e < epoch ensures BetterChain(chainStore.contents, turns[e].chain) {
        BetterTransitive(chainStore.contents, before, turns[e].chain);
      }
      hide BetterChain;
      changed.closed := true;
      changed := new Signal();
      epoch := epoch + 1;
      turns := turns + [Turn(changed, chainStore.contents)];
    }

    /** Appends a block that extends the tip, drops its messages from the queue, wakes the
        miners and forwards the block; a block that does not extend the tip calls for a
        synchronization. No record of blocks seen is kept. */
    method HandleIncomingBlock(b: BlockRef, now: int, saves: bool) returns (err: Status)
      requires Valid(now)
      modifies this, chainStore, mempool, changed
      ensures Valid(now)
      ensures (State(), err) == Append(chainStore.rules, old(State()), View(b), now, saves)
      ensures if err == Accepted then old(changed).closed && fresh(changed) else changed == old(changed)
      ensures turns == if err == Accepted then old(turns) + [Turn(changed, State().chain)] else old(turns)
      ensures Sends() ==
        if err == Accepted then Gossiped(old(Sends()), shuffle, BlockMessage(View(b))) else old(Sends())
      ensures err != Accepted ==> jobs == old(jobs) && draws == old(draws)
      ensures err == Accepted && |old(jobs)| + 2 <= 128 ==>
        && old(jobs) <= jobs && |jobs| == |old(jobs)| + (if |peers| < 2 then |peers| else 2)
        && (forall i | |old(jobs)| <= i < |jobs| :: jobs[i].message == BlockMessage(View(b)) && jobs[i].peer < |peers|)
        && (|peers| >= 2 ==> jobs[|old(jobs)|].peer != jobs[|old(jobs)| + 1].peer)
      ensures err == Accepted <==> ValidChain(chainStore.rules, old(State()).chain + [View(b)], now) && saves
      ensures syncNeeded == (old(syncNeeded) || err == StaleBlock)
      ensures nextPeer == old(nextPeer)
      ensures chainStore.OwnSlices()
    {
      ghost var block := View(b);
      hide Inv, Shuffles, Views, View, Append, Gossiped, SignalsTell, ValidChain, Arrangement, FileChainStorage.Valid;
      err := ExtendTip(b, now, saves);
      Arranged(draws);
      label extended:
      ghost var n := State();
      assert View(b) == block;
      if err == Accepted {
        Forward(BlockMessage(View(b)));
      } else if err == StaleBlock {
        syncNeeded := true;
      }
      ViewSame@extended(b);
      StoreSame@extended(now);
      SignalsSame@extended(chainStore.contents);
      assert State() == n && chainStore.OwnSlices();
    }

    /** A block as it arrives in a request or from the miner: in a slice of its own. */
    method ReceiveBlock(b: Block, now: int, saves: bool) returns (err: Status)
      requires Valid(now)
      modifies this, chainStore, mempool, changed
      ensures Valid(now)
      ensures (State(), err) == Append(chainStore.rules, old(State()), b, now, saves)
      ensures turns == if err == Accepted then old(turns) + [Turn(changed, State().chain)] else old(turns)
      ensures changed == old(changed) || fresh(changed)
      ensures nextPeer == old(nextPeer)
      ensures chainStore.OwnSlices()
    {
      ghost var n := State();
      hide Inv, Shuffles, Views, View, Append, Gossiped, SignalsTell, FileChainStorage.Valid;
      var r := DecodeBlock(b);
      StoreSame(now);
      SignalsSame(chainStore.contents);
      assert State() == n;
      label decoded:
      err := HandleIncomingBlock(r, now, saves);
      ViewSame@decoded(r);
    }

    /** The critical section of a block: store, queue and signal change together. */
    method ExtendTip(b: BlockRef, now: int, saves: bool) returns (err: Status)
      requires Valid(now)
      modifies this`changed, this`epoch, this`turns, chainStore, mempool, changed
      ensures Valid(now)
      ensures (State(), err) == Append(chainStore.rules, old(State()), View(b), now, saves)
      ensures if err == Accepted then old(changed).closed && fresh(changed) else changed == old(changed)
      ensures turns == if err == Accepted then old(turns) + [Turn(changed, State().chain)] else old(turns)
      ensures err == Accepted <==> ValidChain(chainStore.rules, old(State()).chain + [View(b)], now) && saves
      ensures chainStore.OwnSlices() && View(b) == old(View(b))
    {
      ghost var n := State();
      ghost var block := View(b);
      hide Inv, Shuffles, Views, View, ValidBlock, ValidChain, Extends, TxIds, ChainIds, AppendStatus, SignalsTell;
      assert n.chain == chainStore.contents;
      err := chainStore.AddBlock(b, now, saves);
      assert View(b) == block;
      SignalsSame(n.chain);
      if err == Accepted {
        assert State() == Node(n.chain + [block], n.pool, n.epoch, n.chain + [block]);
        Publish(TransactionsOf(b), n.chain);
        assert State() == Commit(n, n.chain + [block], n.pool - TxIds(block.transactions));
      } else {
        assert State() == n;
      }
      assert View(b) == block && chainStore.Valid(now);
      AppendKeepsInv(chainStore.rules, n, block, now, saves);
      AppendExact(chainStore.rules, n, block, now, saves);
    }

    /** Drops confirmed messages from the queue and wakes the miners. */
    method Publish(txs: seq<Transaction>, ghost before: seq<Block>)
      requires SignalsTell(before) && BetterChain(chainStore.contents, before)
      modifies this`changed, this`epoch, this`turns, mempool, changed
      ensures old(changed).closed && fresh(changed)
      ensures SignalsTell(chainStore.contents)
      ensures turns == old(turns) + [Turn(changed, chainStore.contents)]
      ensures State() == old(State()).(epoch := old(epoch) + 1, pool := old(mempool.transactions) - TxIds(txs))
    {
      hide SignalsTell, BetterChain, TxIds;
      var ids := IdsOf(txs);
      mempool.Remove(ids);
      SignalsSame(before);
      Renew(before);
    }

    static method IdsOf(txs: seq<Transaction>) returns (ids: seq<Text>)
      ensures (set id | id in ids) == TxIds(txs)
    {
      ids := [];
      NoIds(txs);
      for k := 0 to |txs|
        invariant (set id | id in ids) == TxIds(txs[..k])
      {
        TxIdsSnoc(txs, k);
        ids := ids + [txs[k].id];
      }
      assert txs[..|txs|] == txs;
    }

    /** The tip, up to 100 pending messages in order of ID, and the signal that will be
        closed as soon as they are out of date. */
    method MiningWork(ghost now: int) returns (tip: BlockRef, pending: seq<Transaction>, signal: Signal)
      requires Valid(now)
      ensures View(tip) == Last(State().chain) && fresh(tip.transactions)
      ensures pending == WorkOf(State())
      ensures signal == changed == turns[epoch].signal && State().chain == turns[epoch].chain && !signal.closed
      ensures Valid(now) && State() == old(State())
    {
      ghost var n := State();
      hide Inv, Consistent, Shuffles, Views, View, IsListing, WorkOf, Keyed;
      MiningFacts(now);
      tip := chainStore.GetLatestBlock();
      ViewsSame(chainStore.chain);
      pending := mempool.GetPending();
      WorkOfListing(n, pending);
      if |pending| > MAX_BLOCK_TRANSACTIONS {
        pending := pending[..MAX_BLOCK_TRANSACTIONS];
      }
      signal := changed;
      assert State() == n;
    }

    lemma MiningFacts(now: int)
      requires Valid(now)
      ensures State().chain == chainStore.contents && State().chain != [] && Keyed(mempool.transactions)
    {
    }

    /** Adopts a better chain, returning orphaned messages to the queue, or changes
        nothing. */
    method AdoptChain(candidate: seq<BlockRef>, now: int, saves: bool) returns (err: Status)
      requires Valid(now)
      modifies this`changed, this`epoch, this`turns, chainStore, mempool, changed
      ensures Valid(now)
      ensures (State(), err) == Adopt(chainStore.rules, old(State()), Views(candidate), now, saves)
      ensures if err == Accepted then old(changed).closed && fresh(changed) else changed == old(changed)
      ensures turns == if err == Accepted then old(turns) + [Turn(changed, State().chain)] else old(turns)
      ensures chainStore.OwnSlices()
    {
      ghost var n := State();
      ghost var offered := Views(candidate);
      hide Inv, Shuffles, Consistent, Views, View, BetterChain, ReorgPool, Overlay, Adopt, SignalsTell;
      hide FileChainStorage.ReplaceStatus;
      var pending;
      pending, err := Prepare(candidate, now);
      assert State() == n && Views(candidate) == offered;
      if err == Accepted {
        err := Switch(candidate, pending, now, saves);
      }
      AdoptIs(chainStore.rules, n, offered, now, saves);
      AdoptKeepsInv(chainStore.rules, n, offered, now, saves);
    }

    /** Replaces store and queue together, or neither. */
    method Switch(candidate: seq<BlockRef>, pending: seq<Transaction>, now: int, saves: bool) returns (err: Status)
      requires chainStore.Valid(now) && SignalsTell(chainStore.contents)
      modifies this`changed, this`epoch, this`turns, chainStore, mempool, changed
      ensures chainStore.Valid(now) && SignalsTell(chainStore.contents) && Views(candidate) == old(Views(candidate))
      ensures err == FileChainStorage.ReplaceStatus(chainStore.rules, old(State()).chain, Views(candidate), now, saves)
      ensures State() ==
        if err == Accepted then Commit(old(State()), Views(candidate), Overlay(map[], pending, {})) else old(State())
      ensures if err == Accepted then old(changed).closed && fresh(changed) else changed == old(changed)
      ensures turns == if err == Accepted then old(turns) + [Turn(changed, State().chain)] else old(turns)
      ensures chainStore.OwnSlices()
    {
      ghost var n := State();
      ghost var offered := Views(candidate);
      hide Views, View, BetterChain, ChainIds, Overlay, SignalsTell;
      hide FileChainStorage.ReplaceStatus;
      err := chainStore.ReplaceChain(candidate, now, saves);
      label replaced:
      if err == Accepted {
        ReplacedIsBetter(chainStore.rules, n.chain, offered, now, saves);
        mempool.Replace(pending);
        SignalsSame(n.chain);
        assert State() == Node(offered, Overlay(map[], pending, {}), n.epoch, offered);
        Renew(n.chain);
      } else {
        SignalsSame(n.chain);
      }
      ViewsSame(candidate);
      ViewsSame@replaced(chainStore.chain);
    }

    /** Whether the candidate is better and its reorganization fits, and the queue it
        would leave. Nothing has changed yet. */
    method Prepare(candidate: seq<BlockRef>, ghost now: int) returns (pending: seq<Transaction>, err: Status)
      requires Valid(now)
      ensures Valid(now) && State() == old(State()) && Views(candidate) == old(Views(candidate))
      ensures var next := ReorgPool(State().pool, State().chain, Views(candidate));
        if !BetterChain(Views(candidate), State().chain) then err == NotBetter
        else if |next| > MAX_PENDING then err == Full
        else err == Accepted && Overlay(map[], pending, {}) == next
    {
      ghost var n := State();
      ghost var offered := Views(candidate);
      assert n.chain == chainStore.contents && Keyed(n.pool);
      assert Views(chainStore.chain) == n.chain;
      hide Inv, Shuffles, Views, View, BetterChain, ReorgPool, ChainIds, Overlay, SignalsTell, FileChainStorage.Valid;
      pending, err := [], NotBetter;
      var current := chainStore.GetChain();
      assert Views(candidate) == offered && Views(current) == n.chain;
      if BetterChain(Views(candidate), Views(current)) {
        pending, err := mempool.PrepareReorg(Views(current), Views(candidate));
        if err == Accepted {
          ReorgKeyed(chainStore.rules, n, offered, now);
          Refile(pending, ReorgPool(n.pool, n.chain, offered));
        }
      }
      ViewsSame(candidate);
      StoreSame(now);
      SignalsSame(chainStore.contents);
    }

    /** A confirmed or pending message is never missed: the two snapshots are taken
        together, and each known ID is in exactly one of them. */
    method ReadState(ghost now: int) returns (chain: seq<BlockRef>, pending: seq<Transaction>)
      requires Valid(now)
      ensures Views(chain) == State().chain && fresh(Slices(chain))
      ensures IsListing(pending, State().pool)
      ensures ChainIds(Views(chain)) + TxIds(pending) == Known(State())
      ensures ChainIds(Views(chain)) !! TxIds(pending)
    {
      ghost var n := State();
      StateFacts(now);
      hide Inv, Shuffles, Consistent, Views, View, ChainIds, TxIds, IsListing, Keyed, Known, SignalsTell;
      chain := chainStore.GetChain();
      assert Views(chain) == n.chain && Keyed(mempool.transactions);
      pending := mempool.GetPending();
      assert Views(chain) == n.chain && State() == n;
      ListedIds(n, pending);
    }

    lemma StateFacts(now: int)
      requires Valid(now)
      ensures State().chain == chainStore.contents && Keyed(mempool.transactions)
      ensures mempool.transactions.Keys !! ChainIds(chainStore.contents)
    {
      hide ChainIds, Views, ValidLinks;
    }

    /** One synchronization pass. It starts one peer further than the pass before and goes
        around; `reach` is how many peers are tried before the deadline. `pass` tells how it
        went, turn by turn: turn k belongs to the k-th peer from the one that is due. */
    method ResolveConflicts(replies: seq<Reply>, reach: nat, now: int, saves: bool) returns (ghost pass: seq<Hearing>)
      requires Valid(now) && |replies| == |peers| && reach <= |peers|
      modifies this, chainStore, mempool, changed
      ensures Valid(now)
      ensures peers != [] ==> nextPeer == if old(nextPeer) + 1 < |peers| then old(nextPeer) + 1 else 0
      // who is heard
      ensures |pass| == reach
      ensures forall k | 0 <= k < reach ::
        pass[k].reply == replies[if old(nextPeer) + k < |peers| then old(nextPeer) + k else old(nextPeer) + k - |peers|]
      // from the first turn to the last
      ensures reach == 0 ==> State() == old(State()) && Sends() == old(Sends())
      ensures reach > 0 ==> pass[0].before == old(State()) && pass[reach - 1].after == State()
      ensures reach > 0 ==> pass[0].sentBefore == old(Sends()) && pass[reach - 1].sentAfter == Sends()
      ensures forall k | 0 < k < reach :: FollowsOn(pass, k)
      // in each turn, the chain first and then the messages
      ensures forall t | t in pass ::
        && (t.reply.chain.None? ==> t.mid == t.before)
        && (t.reply.chain.Some? ==> t.mid == Adopt(chainStore.rules, t.before, t.reply.chain.value, now, saves).0)
        && (t.reply.pending.None? || |t.reply.pending.value| > 1000 ==> t.after == t.mid)
        && (t.reply.pending.Some? && |t.reply.pending.value| <= 1000 ==> t.after == SubmitAll(t.mid, t.reply.pending.value))
      // what has come of it in the end
      ensures forall t | t in pass && t.reply.chain.Some? && saves && ValidChain(chainStore.rules, t.reply.chain.value, now)
          && |ReorgPool(t.before.pool, t.before.chain, t.reply.chain.value)| <= 1000 ::
        !BetterChain(t.reply.chain.value, State().chain)
      ensures forall t, j: nat | t in pass && t.reply.pending.Some? && j < |t.reply.pending.value| <= 1000
          && ValidTransaction(t.reply.pending.value[j]) ::
        t.reply.pending.value[j].id in Known(State()) || |SubmitAll(t.mid, t.reply.pending.value[..j]).pool| >= 1000
      // what is gossiped: messages of the reply, one draw for each accepted, two sends if there is room
      ensures forall t | t in pass :: t.sentBefore.jobs <= t.sentAfter.jobs
      ensures forall t | t in pass :: t.sentAfter.draws == t.sentBefore.draws + (|t.after.pool| - |t.mid.pool|)
      ensures forall t, i | t in pass && |t.sentBefore.jobs| <= i < |t.sentAfter.jobs| ::
        && t.sentAfter.jobs[i].message.TransactionMessage?
        && t.reply.pending.Some? && t.sentAfter.jobs[i].message.tx in t.reply.pending.value
      ensures forall t | t in pass && t.reply.pending.Some? && |t.sentBefore.jobs| + 2 * |t.reply.pending.value| <= 128 ::
        |t.sentAfter.jobs| == |t.sentBefore.jobs| + (if |peers| < 2 then |peers| else 2) * (|t.after.pool| - |t.mid.pool|)
      ensures old(turns) <= turns && (changed == old(changed) || fresh(changed)) && syncNeeded == old(syncNeeded)
      ensures chainStore.OwnSlices()
    {
      ghost var n, s := State(), Sends();
      hide Inv, Shuffles, IsPass, Valid, Adopt, SubmitAll, GossipEach, BetterChain, ReorgPool, ValidChain, ValidTransaction,
        Known, GossipsAccepted, FollowsOn;
      PassReady(now);
      pass := RunPass(replies, reach, now, saves);
      PassTurns(chainStore.rules, pass, n, s, State(), Sends(), now, saves, shuffle);
      PassHeeds(chainStore.rules, pass, n, s, State(), Sends(), now, saves, shuffle);
      PassGossips(chainStore.rules, pass, n, s, State(), Sends(), now, saves, shuffle, |peers|);
      GossipMeans(pass, |peers|);
    }

    /** The pass itself. */
    method RunPass(replies: seq<Reply>, reach: nat, now: int, saves: bool) returns (ghost pass: seq<Hearing>)
      requires Valid(now) && |replies| == |peers| && reach <= |peers|
      modifies this, chainStore, mempool, changed
      ensures Valid(now)
      ensures peers != [] ==> nextPeer == if old(nextPeer) + 1 < |peers| then old(nextPeer) + 1 else 0
      ensures |pass| == reach && forall k | 0 <= k < reach ::
        pass[k].reply == replies[if old(nextPeer) + k < |peers| then old(nextPeer) + k else old(nextPeer) + k - |peers|]
      ensures IsPass(chainStore.rules, pass, old(State()), old(Sends()), State(), Sends(), now, saves, shuffle)
      ensures old(turns) <= turns && (changed == old(changed) || fresh(changed)) && syncNeeded == old(syncNeeded)
      ensures chainStore.OwnSlices()
    {
      hide Inv, Shuffles, IsPass, SignalsTell, FileChainStorage.Valid;
      var order := [];
      if peers != [] {
        order := NextPass(now);
      }
      pass := Visit(replies, order[..reach], now, saves);
    }

    lemma PassReady(now: int)
      requires Valid(now)
      ensures Inv(chainStore.rules, State(), now) && Shuffles(shuffle, |peers|) && |jobs| <= JOB_CAPACITY
      ensures peers != [] ==> nextPeer < |peers|
    {
      hide Inv, Shuffles, SignalsTell, FileChainStorage.Valid;
    }

    /** The same, for those who only need to know that nothing is lost. */
    method Pull(replies: seq<Reply>, reach: nat, now: int, saves: bool)
      requires Valid(now) && |replies| == |peers| && reach <= |peers|
      modifies this, chainStore, mempool, changed
      ensures Valid(now) && old(turns) <= turns && (changed == old(changed) || fresh(changed))
      ensures chainStore.OwnSlices()
      ensures NoWorse(State().chain, old(State()).chain) && Known(old(State())) <= Known(State())
    {
      ghost var n, s := State(), Sends();
      hide Inv, Shuffles, IsPass, Valid, NoWorse, Known;
      PassReady(now);
      ghost var pass := RunPass(replies, reach, now, saves);
      PassKeeps(chainStore.rules, pass, n, s, State(), Sends(), now, saves, shuffle);
    }

    /** The order of the pass that is due, and one step further for the next. */
    method NextPass(ghost now: int) returns (order: seq<nat>)
      requires Valid(now) && peers != []
      modifies this`nextPeer
      ensures Valid(now) && State() == old(State()) && Sends() == old(Sends())
      ensures |order| == |peers| && forall i | 0 <= i < |order| ::
        order[i] == if old(nextPeer) + i < |peers| then old(nextPeer) + i else old(nextPeer) + i - |peers|
      ensures nextPeer == if old(nextPeer) + 1 < |peers| then old(nextPeer) + 1 else 0
    {
      hide Inv, Shuffles, SignalsTell, FileChainStorage.Valid;
      order := Rotation(|peers|, nextPeer);
      RotationVisitsAll(|peers|, nextPeer);
      nextPeer := NextStart(|peers|, nextPeer);
      StoreSame(now);
      SignalsSame(chainStore.contents);
    }

    method Visit(replies: seq<Reply>, order: seq<nat>, now: int, saves: bool) returns (ghost pass: seq<Hearing>)
      requires Valid(now) && forall i | 0 <= i < |order| :: order[i] < |replies|
      modifies this`changed, this`epoch, this`turns, this`jobs, this`draws, chainStore, mempool, changed
      ensures Valid(now)
      ensures IsPass(chainStore.rules, pass, old(State()), old(Sends()), State(), Sends(), now, saves, shuffle)
      ensures |pass| == |order| && forall k | 0 <= k < |order| :: pass[k].reply == replies[order[k]]
      ensures old(turns) <= turns && (changed == old(changed) || fresh(changed))
      ensures chainStore.OwnSlices()
    {
      ghost var n, s := State(), Sends();
      hide Inv, Shuffles, IsTurn, SignalsTell, FileChainStorage.Valid;
      pass := [];
      for i := 0 to |order|
        invariant Valid(now)
        invariant old(turns) <= turns && (changed == old(changed) || fresh(changed))
        invariant chainStore.OwnSlices()
        invariant IsPass(chainStore.rules, pass, n, s, State(), Sends(), now, saves, shuffle)
        invariant |pass| == i && forall k | 0 <= k < i :: pass[k].reply == replies[order[k]]
      {
        ghost var before, sent := State(), Sends();
        ghost var mid := SyncWith(replies[order[i]], now, saves);
        ghost var turn := Hearing(replies[order[i]], before, mid, State(), sent, Sends());
        PassSnoc(chainStore.rules, pass, n, s, turn, now, saves, shuffle);
        pass := pass + [turn];
      }
    }

    method SyncWith(reply: Reply, now: int, saves: bool) returns (ghost mid: Node)
      requires Valid(now)
      modifies this`changed, this`epoch, this`turns, this`jobs, this`draws, chainStore, mempool, changed
      ensures Valid(now)
      ensures IsTurn(chainStore.rules, Hearing(reply, old(State()), mid, State(), old(Sends()), Sends()), now, saves, shuffle)
      ensures old(turns) <= turns && (changed == old(changed) || fresh(changed))
      ensures chainStore.OwnSlices()
    {
      hide Inv, Shuffles, Adopt, Submit, ValidChain, GossipEach, SubmitAll, SignalsTell, FileChainStorage.Valid;
      if reply.chain.Some? {
        ConsiderChain(reply.chain.value, now, saves);
      }
      mid := State();
      if reply.pending.Some? && |reply.pending.value| <= MAX_PENDING {
        SubmitEach(reply.pending.value, now);
      }
    }

    method ConsiderChain(chain: seq<Block>, now: int, saves: bool)
      requires Valid(now)
      modifies this`changed, this`epoch, this`turns, chainStore, mempool, changed
      ensures Valid(now)
      ensures State() == Adopt(chainStore.rules, old(State()), chain, now, saves).0
      ensures old(turns) <= turns && (changed == old(changed) || fresh(changed))
      ensures chainStore.OwnSlices()
    {
      ghost var n := State();
      hide Inv, Shuffles, Consistent, Views, Adopt, ValidChain, SignalsTell;
      var refs := Decode(chain);
      label decoded:
      ViewsSame(chainStore.chain);
      var check := ValidateChain(chainStore.rules, Views(refs), now);
      ViewsSame(chainStore.chain);
      ViewsSame@decoded(refs);
      SignalsSame(chainStore.contents);
      assert State() == n && Valid(now);
      if check == Accepted {
        var err := AdoptChain(refs, now, saves);
      } else {
        InvalidNotAdopted(chainStore.rules, n, chain, now, saves);
      }
    }

    method SubmitEach(txs: seq<Transaction>, ghost now: int)
      requires Valid(now)
      modifies this`jobs, this`draws, mempool
      ensures Valid(now)
      ensures State() == SubmitAll(old(State()), txs)
      ensures Sends() == GossipEach(old(State()), txs, old(Sends()), shuffle)
    {
      ghost var n, s := State(), Sends();
      hide Inv, Shuffles, Submit, GossipOf, SignalsTell, FileChainStorage.Valid;
      for k := 0 to |txs|
        invariant Valid(now)
        invariant State() == SubmitAll(n, txs[..k]) && Sends() == GossipEach(n, txs[..k], s, shuffle)
      {
        assert txs[..k + 1][..k] == txs[..k];
        var err := SubmitTransaction(txs[k], now);
      }
      assert txs[..|txs|] == txs;
    }
  }

  // ---------------------------------------------------------------- everybody else

  /** What others make the engine do: clients, peers that push, and the synchronization. */
  datatype Act =
    | Submits(tx: Transaction)
    | Pushes(b: Block, saves: bool)
    | Pulls(replies: seq<Reply>, reach: nat, saves: bool)

  /** One act, as the node sees it. */
  ghost predicate ActAt(p: Rules, n: Node, act: Act, m: Node, now: int) {
    match act
    case Submits(tx) => m == Submit(n, tx).0
    case Pushes(b, saves) => n.chain != [] && m == Append(p, n, b, now, saves).0
    case Pulls(_, _, _) => NoWorse(m.chain, n.chain) && Known(n) <= Known(m)
  }

  /** Any number of acts, in order, with the node before and after each. Whatever they are,
      signals tell of every change they make. */
  method Perform(g: GossipEngine, acts: seq<Act>, now: int) returns (ghost states: seq<Node>)
    requires g.Valid(now)
    modifies g, g.chainStore, g.mempool, g.changed
    ensures g.Valid(now) && old(g.turns) <= g.turns && (g.changed == old(g.changed) || fresh(g.changed))
    ensures g.chainStore.OwnSlices()
    ensures |states| == |acts| + 1 && states[0] == old(g.State()) && states[|acts|] == g.State()
    ensures forall k: nat | k < |acts| :: ActAt(g.chainStore.rules, states[k], acts[k], states[k + 1], now)
  {
    hide Inv, Shuffles, GossipEngine.SignalsTell, FileChainStorage.Valid, Views, View, Append, Submit, Gossiped, NoWorse, Known;
    states := [g.State()];
    for i := 0 to |acts|
      invariant g.Valid(now) && old(g.turns) <= g.turns && (g.changed == old(g.changed) || fresh(g.changed))
      invariant g.chainStore.OwnSlices()
      invariant |states| == i + 1 && states[0] == old(g.State()) && states[i] == g.State()
      invariant forall k: nat | k < i :: ActAt(g.chainStore.rules, states[k], acts[k], states[k + 1], now)
    {
      ghost var n := g.State();
      PerformOne(g, acts[i], now);
      states := states + [g.State()];
    }
  }

  method PerformOne(g: GossipEngine, act: Act, now: int)
    requires g.Valid(now)
    modifies g, g.chainStore, g.mempool, g.changed
    ensures g.Valid(now) && old(g.turns) <= g.turns && (g.changed == old(g.changed) || fresh(g.changed))
    ensures g.chainStore.OwnSlices()
    ensures ActAt(g.chainStore.rules, old(g.State()), act, g.State(), now)
  {
    ghost var n := g.State();
    NoWorseReflexive(n.chain);
    NonemptyChain(g.chainStore.rules, n, now);
    hide Inv, Shuffles, GossipEngine.SignalsTell, FileChainStorage.Valid, Views, View, Append, Submit, Gossiped, NoWorse, Known;
    match act {
      case Submits(tx) =>
        var err := g.SubmitTransaction(tx, now);
      case Pushes(b, saves) =>
        var err := g.ReceiveBlock(b, now, saves);
      case Pulls(replies, reach, saves) =>
        if |replies| == |g.peers| && reach <= |g.peers| {
          g.Pull(replies, reach, now, saves);
        }
    }
  }
}
