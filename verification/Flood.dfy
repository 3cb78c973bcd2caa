/** Gossip of one message ID through a network of running nodes: who accepts it, how many
    sends that causes, and why the flood dies out. */
module Flood {
  import opened GoText
  import opened Entities
  import opened Nodes
  import opened Engine

  const MAX_ATTEMPTS := 3

  /** A queued send to node `dest`; `left` is how many attempts its worker may still make. */
  datatype Send = Send(dest: nat, tx: Transaction, left: nat)

  /** `log` holds every send of the ID ever queued, spent ones included. */
  datatype Flooding = Flooding(nodes: seq<Node>, log: seq<Send>, clock: int)

  /** `Acts`: a node takes any step that is not a crash, on its own account or on behalf of
      a client, a peer or a miner. `Attempt`: a worker tries send `k`; the request may or
      may not arrive, and whatever became of it the worker may or may not try again. */
  datatype Event =
    | Tick(later: int)
    | Acts(i: nat, s: Step, targets: seq<nat>)
    | Attempt(k: nat, arrives: bool, again: bool, targets: seq<nat>)

  /** The sends that a step queues: of an accepted message only, one for each target. */
  function NewSends(n: Node, s: Step, id: Text, targets: seq<nat>): seq<Send> {
    if s.TakeMessage? && s.tx.id == id && Submit(n, s.tx).1 == Accepted
    then seq(|targets|, i requires 0 <= i < |targets| => Send(targets[i], s.tx, MAX_ATTEMPTS))
    else []
  }

  /** A broadcast picks the first two peers of a random arrangement, or all of fewer, and
      queues sends to all it picked or, when the queue is full, to the first of them. */
  lemma BroadcastTargets(g: Gossip, shuffle: nat -> seq<nat>, n: nat, m: Message) returns (targets: seq<nat>)
    requires |g.jobs| <= JOB_CAPACITY && Arrangement(shuffle(g.draws), n)
    ensures targets <= shuffle(g.draws) && Targets(targets, n)
    ensures |g.jobs| + 2 <= 128 ==> |targets| == if n < 2 then n else 2
    ensures Gossiped(g, shuffle, m).jobs == g.jobs + seq(|targets|, i requires 0 <= i < |targets| => Outgoing(targets[i], m))
  {
    targets := Queued(g.jobs, Chosen(shuffle(g.draws)), m);
    assert forall t | t in targets :: t in shuffle(g.draws);
  }

  /** Acceptance queues exactly one send to each target, with three attempts, and nothing
      else queues any. */
  lemma NewSendsExact(n: Node, s: Step, id: Text, targets: seq<nat>)
    ensures var more := NewSends(n, s, id, targets);
      if s.TakeMessage? && s.tx.id == id && Submit(n, s.tx).0 != n then
        |more| == |targets| && forall i | 0 <= i < |more| :: more[i] == Send(targets[i], s.tx, 3)
      else more == []
  {
    if s.TakeMessage? {
      RefusedSubmit(n, s.tx);
    }
    hide Submit;
  }

  predicate Targets(targets: seq<nat>, n: nat) {
    |targets| <= FANOUT && forall t | t in targets :: t < n
  }

  predicate Happens(f: Flooding, e: Event) {
    match e
    case Tick(later) => f.clock <= later
    case Acts(i, s, targets) => i < |f.nodes| && f.nodes[i].chain != [] && !IsCrash(s) && Targets(targets, |f.nodes|)
    case Attempt(k, _, _, targets) =>
      k < |f.log| && f.log[k].left > 0 && f.log[k].dest < |f.nodes| && f.nodes[f.log[k].dest].chain != []
      && Targets(targets, |f.nodes|)
  }

  function Act(p: Rules, f: Flooding, i: nat, s: Step, id: Text, targets: seq<nat>): Flooding
    requires i < |f.nodes| && f.nodes[i].chain != []
  {
    Flooding(f.nodes[i := Next(p, f.nodes[i], s, f.clock)], f.log + NewSends(f.nodes[i], s, id, targets), f.clock)
  }

  function Spend(f: Flooding, k: nat, again: bool): Flooding
    requires k < |f.log| && f.log[k].left > 0
  {
    f.(log := f.log[k := f.log[k].(left := if again then f.log[k].left - 1 else 0)])
  }

  function After(p: Rules, f: Flooding, e: Event, id: Text): Flooding
    requires Happens(f, e)
  {
    match e
    case Tick(later) => f.(clock := later)
    case Acts(i, s, targets) => Act(p, f, i, s, id, targets)
    case Attempt(k, arrives, again, targets) =>
      var g := Spend(f, k, again);
      if arrives then Act(p, g, f.log[k].dest, TakeMessage(f.log[k].tx), id, targets) else g
  }

  // ---------------------------------------------------------------- one event

  predicate SendOk(d: Send, id: Text, n: nat) {
    d.dest < n && d.tx.id == id && d.left <= MAX_ATTEMPTS
  }

  ghost predicate FloodInv(p: Rules, f: Flooding, id: Text) {
    && (forall i | 0 <= i < |f.nodes| :: Inv(p, f.nodes[i], f.clock))
    && forall k | 0 <= k < |f.log| :: SendOk(f.log[k], id, |f.nodes|)
  }

  /** The nodes that do not know the ID. */
  function Unaware(f: Flooding, id: Text): set<nat> {
    set i | 0 <= i < |f.nodes| && id !in Known(f.nodes[i])
  }

  /** Attempts that may still be made for the sends queued so far. */
  function Left(log: seq<Send>): nat {
    if log == [] then 0 else Left(log[..|log| - 1]) + log[|log| - 1].left
  }

  lemma {:induction false} LeftUpdate(log: seq<Send>, k: nat, d: Send)
    requires k < |log|
    ensures Left(log[k := d]) == Left(log) - log[k].left + d.left
  {
    var n := |log| - 1;
    if k < n {
      LeftUpdate(log[..n], k, d);
      assert log[k := d][..n] == log[..n][k := d];
    } else {
      assert log[k := d][..n] == log[..n];
    }
  }

  lemma {:induction false} LeftConcat(a: seq<Send>, b: seq<Send>)
    requires forall k | 0 <= k < |b| :: b[k].left <= MAX_ATTEMPTS
    ensures Left(a + b) <= Left(a) + MAX_ATTEMPTS * |b|
  {
    if b == [] {
      assert a + b == a;
    } else {
      var n := |b| - 1;
      LeftConcat(a, b[..n]);
      assert (a + b)[..|a + b| - 1] == a + b[..n];
    }
  }

  /** A node that accepts the ID did not know it and knows it now; no other step queues
      sends of it, and no step makes a node forget it. */
  lemma NodeAct(p: Rules, n: Node, s: Step, now: int, id: Text, targets: seq<nat>)
    requires Inv(p, n, now) && !IsCrash(s)
    ensures n.chain != [] && Inv(p, Next(p, n, s, now), now) && Known(n) <= Known(Next(p, n, s, now))
    ensures NewSends(n, s, id, targets) != [] ==> id !in Known(n) && id in Known(Next(p, n, s, now))
  {
    StepKeepsInv(p, n, s, now, now);
    StepConservesIds(p, n, s, now, now);
    assert n.chain != [];
    hide Inv, Known, Submit, Next;
    if NewSends(n, s, id, targets) != [] {
      SubmitFacts(p, n, s.tx, now);
      assert id in Gains(p, n, s, now);
    }
  }

  lemma NewSendsOk(n: Node, s: Step, id: Text, targets: seq<nat>, count: nat)
    requires Targets(targets, count)
    ensures var more := NewSends(n, s, id, targets);
      |more| <= FANOUT && forall k | 0 <= k < |more| :: SendOk(more[k], id, count)
  {
    hide Submit;
    assert forall k | 0 <= k < |targets| :: targets[k] in targets;
  }

  lemma UnawareAfter(f: Flooding, i: nat, m: Node, log: seq<Send>, id: Text)
    requires i < |f.nodes| && Known(f.nodes[i]) <= Known(m)
    ensures var g := Flooding(f.nodes[i := m], log, f.clock);
      && Unaware(g, id) <= Unaware(f, id) && |Unaware(g, id)| <= |Unaware(f, id)|
      && (id !in Known(f.nodes[i]) && id in Known(m) ==> |Unaware(g, id)| < |Unaware(f, id)|)
  {
    hide Known;
    var g := Flooding(f.nodes[i := m], log, f.clock);
    assert Unaware(g, id) <= Unaware(f, id);
    SubsetSize(Unaware(g, id), Unaware(f, id));
    if id !in Known(f.nodes[i]) && id in Known(m) {
      assert i in Unaware(f, id);
      assert Unaware(g, id) <= Unaware(f, id) - {i};
      SubsetSize(Unaware(g, id), Unaware(f, id) - {i});
    }
  }

  lemma ActFacts(p: Rules, f: Flooding, i: nat, s: Step, id: Text, targets: seq<nat>)
    requires FloodInv(p, f, id) && i < |f.nodes| && !IsCrash(s) && Targets(targets, |f.nodes|)
    ensures f.nodes[i].chain != []
    ensures var g := Act(p, f, i, s, id, targets);
      && FloodInv(p, g, id) && |g.nodes| == |f.nodes|
      && Unaware(g, id) <= Unaware(f, id)
      && |g.log| + FANOUT * |Unaware(g, id)| <= |f.log| + FANOUT * |Unaware(f, id)|
      && Left(g.log) <= Left(f.log) + MAX_ATTEMPTS * (|g.log| - |f.log|)
  {
    hide Inv, Next, NewSends, Unaware, Known, Left, Targets;
    var n := f.nodes[i];
    var more := NewSends(n, s, id, targets);
    NodeAct(p, n, s, f.clock, id, targets);
    NewSendsOk(n, s, id, targets, |f.nodes|);
    LeftConcat(f.log, more);
    UnawareAfter(f, i, Next(p, n, s, f.clock), f.log + more, id);
  }

  lemma EventFacts(p: Rules, f: Flooding, e: Event, id: Text)
    requires FloodInv(p, f, id) && Happens(f, e)
    ensures var g := After(p, f, e, id);
      && FloodInv(p, g, id) && |g.nodes| == |f.nodes|
      && Unaware(g, id) <= Unaware(f, id)
      && |g.log| + FANOUT * |Unaware(g, id)| <= |f.log| + FANOUT * |Unaware(f, id)|
      && Left(g.log) + (if e.Attempt? then 1 else 0) <= Left(f.log) + MAX_ATTEMPTS * (|g.log| - |f.log|)
  {
    hide Inv, Known, Submit, Next, NewSends;
    match e
    case Tick(later) =>
      forall i | 0 <= i < |f.nodes| ensures Inv(p, f.nodes[i], later) {
        InvMonotone(p, f.nodes[i], f.clock, later);
      }
      assert Unaware(After(p, f, e, id), id) == Unaware(f, id);
    case Acts(i, s, targets) => ActFacts(p, f, i, s, id, targets);
    case Attempt(k, arrives, again, targets) =>
      var g := Spend(f, k, again);
      LeftUpdate(f.log, k, g.log[k]);
      assert Unaware(g, id) == Unaware(f, id);
      assert FloodInv(p, g, id);
      if arrives {
        ActFacts(p, g, f.log[k].dest, TakeMessage(f.log[k].tx), id, targets);
      }
  }

  // ---------------------------------------------------------------- runs

  datatype FloodRun = FloodRun(states: seq<Flooding>, events: seq<Event>)

  ghost predicate EventAt(p: Rules, r: FloodRun, id: Text, k: nat)
    requires k < |r.events| && |r.states| == |r.events| + 1
  {
    Happens(r.states[k], r.events[k]) && r.states[k + 1] == After(p, r.states[k], r.events[k], id)
  }

  ghost predicate IsFloodRun(p: Rules, r: FloodRun, id: Text) {
    && |r.states| == |r.events| + 1
    && FloodInv(p, r.states[0], id)
    && forall k: nat | k < |r.events| :: EventAt(p, r, id, k)
  }

  /** The requests made for the ID among the first n events. */
  function Requests(r: FloodRun, n: nat): set<nat>
    requires n <= |r.events|
  {
    set k: nat | k < n && r.events[k].Attempt?
  }

  lemma {:induction false} FloodKeepsInv(p: Rules, r: FloodRun, id: Text, n: nat)
    requires IsFloodRun(p, r, id) && n < |r.states|
    ensures FloodInv(p, r.states[n], id) && |r.states[n].nodes| == |r.states[0].nodes|
  {
    hide FloodInv, Happens, After, Unaware, Left;
    if n > 0 {
      FloodKeepsInv(p, r, id, n - 1);
      assert EventAt(p, r, id, n - 1);
      EventFacts(p, r.states[n - 1], r.events[n - 1], id);
    }
  }

  lemma {:induction false} AwareForever(p: Rules, r: FloodRun, id: Text, k: nat, n: nat)
    requires IsFloodRun(p, r, id) && k <= n < |r.states|
    ensures Unaware(r.states[n], id) <= Unaware(r.states[k], id)
  {
    hide FloodInv, Happens, After, Unaware, Left;
    if k < n {
      AwareForever(p, r, id, k, n - 1);
      FloodKeepsInv(p, r, id, n - 1);
      assert EventAt(p, r, id, n - 1);
      EventFacts(p, r.states[n - 1], r.events[n - 1], id);
    }
  }

  lemma RequestsSnoc(r: FloodRun, n: nat)
    requires 0 < n <= |r.events|
    ensures |Requests(r, n)| == |Requests(r, n - 1)| + if r.events[n - 1].Attempt? then 1 else 0
  {
    assert Requests(r, n) == Requests(r, n - 1) + if r.events[n - 1].Attempt? then {n - 1} else {};
  }

  lemma {:induction false} RunFacts(p: Rules, r: FloodRun, id: Text, n: nat)
    requires IsFloodRun(p, r, id) && n < |r.states|
    ensures var f, g := r.states[0], r.states[n];
      && |g.log| + FANOUT * |Unaware(g, id)| <= |f.log| + FANOUT * |Unaware(f, id)|
      && Left(g.log) + |Requests(r, n)| <= Left(f.log) + MAX_ATTEMPTS * (|g.log| - |f.log|)
  {
    hide FloodInv, Happens, After, Unaware, Left;
    if n == 0 {
      assert Requests(r, 0) == {};
    } else {
      hide Requests;
      RunFacts(p, r, id, n - 1);
      FloodKeepsInv(p, r, id, n - 1);
      assert EventAt(p, r, id, n - 1);
      EventFacts(p, r.states[n - 1], r.events[n - 1], id);
      RequestsSnoc(r, n);
    }
  }

  lemma {:induction false} RangeSize(s: set<nat>, n: nat)
    requires forall i | i in s :: i < n
    ensures |s| <= n
  {
    if n == 0 {
      assert s == {};
    } else {
      RangeSize(s - {n - 1}, n - 1);
      assert s <= (s - {n - 1}) + {n - 1};
      SubsetSize(s, (s - {n - 1}) + {n - 1});
    }
  }

  /** However often clients, peers and mempool pulls offer an ID to N running nodes, with
      whatever data, and whatever else happens meanwhile, at most 2N sends of it are ever
      queued, two for each node that came to know it, and at most three times as many
      requests are ever made: the flood ends. */
  lemma FloodBound(p: Rules, r: FloodRun, id: Text)
    requires IsFloodRun(p, r, id) && r.states[0].log == []
    ensures var last := r.states[|r.states| - 1];
      && |last.log| <= FANOUT * (|Unaware(r.states[0], id)| - |Unaware(last, id)|)
      && |last.log| <= 2 * |r.states[0].nodes|
      && |Requests(r, |r.events|)| <= 6 * |r.states[0].nodes|
  {
    RunFacts(p, r, id, |r.events|);
    RangeSize(Unaware(r.states[0], id), |r.states[0].nodes|);
  }

  /** Event k makes node i accept the ID, and so gossip it. */
  predicate AcceptsAt(r: FloodRun, k: nat, i: nat, id: Text)
    requires k < |r.events| && |r.states| == |r.events| + 1
  {
    var f := r.states[k];
    && i < |f.nodes|
    && match r.events[k]
       case Acts(j, s, _) => j == i && s.TakeMessage? && s.tx.id == id && Submit(f.nodes[i], s.tx).1 == Accepted
       case Attempt(d, arrives, _, _) =>
         d < |f.log| && f.log[d].dest == i && arrives && Submit(f.nodes[i], f.log[d].tx).1 == Accepted
       case _ => false
  }

  lemma AcceptingAct(p: Rules, f: Flooding, i: nat, tx: Transaction, id: Text, targets: seq<nat>)
    requires FloodInv(p, f, id) && i < |f.nodes| && f.nodes[i].chain != [] && tx.id == id && Submit(f.nodes[i], tx).1 == Accepted
    ensures i in Unaware(f, id) && i !in Unaware(Act(p, f, i, TakeMessage(tx), id, targets), id)
  {
    SubmitFacts(p, f.nodes[i], tx, f.clock);
    hide Inv, Known, Submit;
  }

  lemma AcceptMeansAware(p: Rules, r: FloodRun, k: nat, i: nat, id: Text)
    requires IsFloodRun(p, r, id) && k < |r.events| && AcceptsAt(r, k, i, id)
    ensures i in Unaware(r.states[k], id) && i !in Unaware(r.states[k + 1], id)
  {
    hide Inv, Known, Submit, Next, NewSends;
    FloodKeepsInv(p, r, id, k);
    assert EventAt(p, r, id, k);
    var f := r.states[k];
    match r.events[k]
    case Acts(j, s, targets) => AcceptingAct(p, f, i, s.tx, id, targets);
    case Attempt(d, arrives, again, targets) =>
      var g := Spend(f, d, again);
      assert SendOk(f.log[d], id, |f.nodes|);
      assert FloodInv(p, g, id) && Unaware(g, id) == Unaware(f, id);
      AcceptingAct(p, g, i, f.log[d].tx, id, targets);
  }

  /** No node accepts an ID twice, from whomever it comes. */
  lemma AcceptedOncePerNode(p: Rules, r: FloodRun, k: nat, l: nat, i: nat, id: Text)
    requires IsFloodRun(p, r, id) && k < l < |r.events|
    requires AcceptsAt(r, k, i, id)
    ensures !AcceptsAt(r, l, i, id)
  {
    assert |r.states| == |r.events| + 1;
    hide IsFloodRun, AcceptsAt, Unaware;
    AcceptMeansAware(p, r, k, i, id);
    AwareForever(p, r, id, k + 1, l);
    if AcceptsAt(r, l, i, id) {
      AcceptMeansAware(p, r, l, i, id);
    }
  }
}
