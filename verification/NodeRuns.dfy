/** Whole runs of one node: any number of steps on arbitrary input, with crashes at any
    point, failed saves and a clock that does not go back. */
module NodeRuns {
  import opened GoText
  import opened Entities
  import opened Models
  import opened Mempools
  import opened Nodes

  /** Step k leads from states[k] to states[k + 1] and happens at clock[k + 1]. */
  datatype Run = Run(states: seq<Node>, steps: seq<Step>, clock: seq<int>)

  ghost predicate StepAt(p: Rules, r: Run, k: nat)
    requires k < |r.steps| && |r.states| == |r.clock| == |r.steps| + 1
  {
    && r.clock[k] <= r.clock[k + 1]
    && r.states[k].chain != []
    && r.states[k + 1] == Next(p, r.states[k], r.steps[k], r.clock[k + 1])
  }

  ghost predicate IsRun(p: Rules, r: Run) {
    && |r.states| == |r.clock| == |r.steps| + 1
    && Inv(p, r.states[0], r.clock[0])
    && forall k: nat | k < |r.steps| :: StepAt(p, r, k)
  }

  /** No process ends between state i and state j. */
  ghost predicate OneProcess(r: Run, i: nat, j: nat) {
    j <= |r.steps| && forall k | i <= k < j :: !IsCrash(r.steps[k])
  }

  lemma {:induction false} RunKeepsInv(p: Rules, r: Run, k: nat)
    requires IsRun(p, r) && k < |r.states|
    ensures Inv(p, r.states[k], r.clock[k])
  {
    hide Inv, Next;
    if k > 0 {
      RunKeepsInv(p, r, k - 1);
      assert StepAt(p, r, k - 1);
      StepKeepsInv(p, r.states[k - 1], r.steps[k - 1], r.clock[k - 1], r.clock[k]);
    }
  }

  /** The chain never gets worse, through forks, reorganizations and restarts. */
  lemma {:induction false} RunAscends(p: Rules, r: Run, i: nat, j: nat)
    requires IsRun(p, r) && i <= j < |r.states|
    ensures NoWorse(r.states[j].chain, r.states[i].chain)
  {
    hide Inv, Next, NoWorse;
    if i < j {
      RunAscends(p, r, i, j - 1);
      assert StepAt(p, r, j - 1);
      RunKeepsInv(p, r, j - 1);
      OneStepAscends(p, r.states[j - 1], r.steps[j - 1], r.clock[j - 1], r.clock[j]);
      NoWorseTransitive(r.states[j].chain, r.states[j - 1].chain, r.states[i].chain);
    } else {
      NoWorseReflexive(r.states[i].chain);
    }
  }

  lemma OneStepAscends(p: Rules, n: Node, s: Step, now: int, later: int)
    requires Inv(p, n, now)
    ensures n.chain != [] && NoWorse(Next(p, n, s, later).chain, n.chain)
  {
    hide Next, ValidLinks;
    StepAscends(p, n, s, later);
  }

  // ---------------------------------------------------------------- relaying blocks

  /** Step k appends `b`, and the node then forwards it: the only way a block is relayed. */
  ghost predicate Appends(p: Rules, r: Run, k: nat, b: Block)
    requires IsRun(p, r) && k < |r.steps|
  {
    && r.steps[k].TakeBlock? && r.steps[k].b == b
    && StepAt(p, r, k)
    && Append(p, r.states[k], b, r.clock[k + 1], r.steps[k].saves).1 == Accepted
  }

  lemma AppendLength(p: Rules, r: Run, k: nat, b: Block)
    requires IsRun(p, r) && k < |r.steps| && Appends(p, r, k, b)
    ensures |r.states[k].chain| == b.index && |r.states[k + 1].chain| == b.index + 1
  {
    RunKeepsInv(p, r, k);
    InvMonotone(p, r.states[k], r.clock[k], r.clock[k + 1]);
    AppendFacts(p, r.states[k], b, r.clock[k + 1], r.steps[k].saves);
    hide Inv, Append;
  }

  /** Later appends have higher indices. So over its whole life, across reorganizations
      and restarts and with no record of what it has seen, a node appends, and relays, at
      most one block of each height, and no block twice. */
  lemma AppendsAscend(p: Rules, r: Run, i: nat, j: nat, b: Block, c: Block)
    requires IsRun(p, r) && i < j < |r.steps|
    requires Appends(p, r, i, b) && Appends(p, r, j, c)
    ensures b.index < c.index && b != c
  {
    hide Inv, Next, NoWorse, Appends;
    AppendLength(p, r, i, b);
    AppendLength(p, r, j, c);
    RunAscends(p, r, i + 1, j);
    NoWorseLonger(r.states[j].chain, r.states[i + 1].chain);
  }

  lemma NoWorseLonger(a: seq<Block>, b: seq<Block>)
    requires NoWorse(a, b)
    ensures |a| >= |b|
  {
  }

  // ---------------------------------------------------------------- known IDs

  function Gained(p: Rules, r: Run, i: nat, j: nat): set<Text>
    requires |r.states| == |r.clock| == |r.steps| + 1 && i <= j <= |r.steps|
  {
    if i == j then {}
    else
      var n := r.states[j - 1];
      Gained(p, r, i, j - 1) + if n.chain == [] then {} else Gains(p, n, r.steps[j - 1], r.clock[j])
  }

  /** Between restarts the known IDs are exactly those known before and those gained by
      accepted messages, blocks and chains. None is lost, however often chains change. */
  lemma {:induction false} RunConservesIds(p: Rules, r: Run, i: nat, j: nat)
    requires IsRun(p, r) && i <= j && OneProcess(r, i, j)
    ensures Known(r.states[j]) == Known(r.states[i]) + Gained(p, r, i, j)
  {
    hide Inv, Next, Known, Gains;
    if i < j {
      assert OneProcess(r, i, j - 1);
      RunConservesIds(p, r, i, j - 1);
      assert StepAt(p, r, j - 1);
      RunKeepsInv(p, r, j - 1);
      StepConservesIds(p, r.states[j - 1], r.steps[j - 1], r.clock[j - 1], r.clock[j]);
    }
  }

  /** Step k accepts a message with this ID. */
  ghost predicate Accepts(p: Rules, r: Run, k: nat, id: Text)
    requires IsRun(p, r) && k < |r.steps|
  {
    && r.steps[k].TakeMessage? && r.steps[k].tx.id == id
    && Submit(r.states[k], r.steps[k].tx).1 == Accepted
  }

  /** A process accepts an ID, and gossips it, at most once: an ID that a fork confirms
      and a reorganization orphans is still known. */
  lemma AcceptedOnce(p: Rules, r: Run, i: nat, j: nat, id: Text)
    requires IsRun(p, r) && i < j < |r.steps| && OneProcess(r, i, j)
    requires Accepts(p, r, i, id)
    ensures id in Known(r.states[j]) && !Accepts(p, r, j, id)
  {
    hide Inv, Next, Known, Gains, Submit;
    assert StepAt(p, r, i);
    RunKeepsInv(p, r, i);
    RunKeepsInv(p, r, j);
    StepConservesIds(p, r.states[i], r.steps[i], r.clock[i], r.clock[i + 1]);
    GainsMessage(p, r.states[i], r.steps[i], r.clock[i + 1]);
    assert OneProcess(r, i + 1, j);
    RunConservesIds(p, r, i + 1, j);
    if Accepts(p, r, j, id) {
      SubmitFacts(p, r.states[j], r.steps[j].tx, r.clock[j]);
    }
  }

  lemma GainsMessage(p: Rules, n: Node, s: Step, now: int)
    requires n.chain != [] && s.TakeMessage? && Submit(n, s.tx).1 == Accepted
    ensures Gains(p, n, s, now) == {s.tx.id}
  {
  }

  // ---------------------------------------------------------------- crashes

  /** An append or adoption that has replaced the file but not the chain in memory. */
  function MidCommit(p: Rules, n: Node, s: Step, now: int): Node
    requires n.chain != []
  {
    match s
    case TakeBlock(b, _) => Renamed(n, Append(p, n, b, now, true))
    case TakeChain(chain, _) => Renamed(n, Adopt(p, n, chain, now, true))
    case _ => n
  }

  /** At every moment, between steps or in the middle of one, the file holds a complete
      valid chain no worse than any the node ever served; a restart at any later clock
      serves that chain. So no restart rolls confirmed state back. */
  lemma CrashSafety(p: Rules, r: Run, i: nat, j: nat, s: Step, now: int, later: int)
    requires IsRun(p, r) && i <= j < |r.states| && r.clock[j] <= now <= later
    ensures r.states[j].chain != []
    ensures var n := MidCommit(p, r.states[j], s, now);
      && ValidChain(p, n.disk, later)
      && NoWorse(n.disk, r.states[i].chain)
      && Restart(n).chain == n.disk
      && Inv(p, Restart(n), later)
  {
    RunKeepsInv(p, r, j);
    RunAscends(p, r, i, j);
    InvMonotone(p, r.states[j], r.clock[j], now);
    hide Inv, ValidChain, NoWorse;
    MidCommitSafe(p, r.states[j], s, now, later);
    NoWorseTransitive(MidCommit(p, r.states[j], s, now).disk, r.states[j].chain, r.states[i].chain);
  }

  /** The crash step that stops in the middle of `s`. */
  function CrashIn(s: Step): Step {
    match s
    case TakeBlock(b, _) => CrashInAppend(b)
    case TakeChain(c, _) => CrashInAdopt(c)
    case _ => Crash
  }

  /** Stopping in the middle of a commit is one of the crash steps. */
  lemma MidCommitIsCrash(p: Rules, n: Node, s: Step, now: int)
    requires n.chain != []
    ensures Restart(MidCommit(p, n, s, now)) == Next(p, n, CrashIn(s), now)
  {
    hide Append, Adopt, Restart, Renamed;
  }

  lemma MidCommitSafe(p: Rules, n: Node, s: Step, now: int, later: int)
    requires Inv(p, n, now) && now <= later
    ensures n.chain != []
    ensures var m := MidCommit(p, n, s, now);
      ValidChain(p, m.disk, later) && NoWorse(m.disk, n.chain) && Inv(p, Restart(m), later)
  {
    NonemptyChain(p, n, now);
    hide NoWorse, Inv, ValidChain, MidCommit, Next, Restart;
    var m := MidCommit(p, n, s, now);
    MidCommitIsCrash(p, n, s, now);
    StepKeepsInv(p, n, CrashIn(s), now, now);
    OneStepAscends(p, n, CrashIn(s), now, now);
    InvMonotone(p, Restart(m), now, later);
    RestartedValid(p, m, later);
  }

  lemma RestartedValid(p: Rules, n: Node, now: int)
    requires Inv(p, Restart(n), now)
    ensures ValidChain(p, n.disk, now) && Restart(n).chain == n.disk
  {
    hide ValidLinks;
  }

  // ---------------------------------------------------------------- optimistic mining

  /** What a miner is given: up to 100 pending messages, in order of ID. */
  ghost function WorkOf(n: Node): seq<Transaction>
    requires Keyed(n.pool)
  {
    var pending := Listing(n.pool);
    if |pending| > MAX_BLOCK_TRANSACTIONS then pending[..MAX_BLOCK_TRANSACTIONS] else pending
  }

  /** `b` is a solved block on top of the chain and messages of `n`, stamped at `now`. */
  ghost predicate SolvedFrom(p: Rules, n: Node, b: Block, now: int)
    requires n.chain != [] && Keyed(n.pool)
  {
    var tip := Last(n.chain);
    && b.version == PROTOCOL_VERSION && b.difficulty == p.difficulty && b.index == tip.index + 1
    && b.timestamp == (if now > tip.timestamp then now else tip.timestamp)
    && b.transactions == WorkOf(n) && b.prevHash == tip.hash
    && ValidWork(p, b)
  }

  lemma WorkFacts(n: Node)
    requires ValidPool(n.pool)
    ensures n.pool != map[] ==> ValidTransactions(WorkOf(n))
    ensures TxIds(WorkOf(n)) <= n.pool.Keys
  {
    hide ValidTransaction;
    var pending := Listing(n.pool);
    AscendingDistinct(pending);
    assert forall t | t in WorkOf(n) :: t in pending;
    if n.pool != map[] {
      var id :| id in n.pool;
      assert n.pool[id] in pending;
    }
  }

  lemma TipFacts(p: Rules, chain: seq<Block>, now: int)
    requires ValidChain(p, chain, now)
    ensures |Last(chain).hash| == 64 && Last(chain).index == |chain| - 1
    ensures GENESIS_TIME <= Last(chain).timestamp
    ensures |chain| > 1 ==> Last(chain).timestamp <= now + CLOCK_SKEW
  {
    LastIndex(p, chain, now);
    ValidIsHashed(p, chain, now);
    assert HashedAt(p, chain, |chain| - 1);
    if |chain| > 1 {
      assert ValidLink(p, chain, |chain| - 1, now);
    }
  }

  /** A solved block passes block validation until the height limit is reached, on any
      clock that is not set to before the genesis block. */
  lemma SolvedIsValid(p: Rules, n: Node, b: Block, taken: int, stamped: int, now: int)
    requires Inv(p, n, taken) && n.pool != map[] && SolvedFrom(p, n, b, stamped)
    requires taken <= stamped <= now
    ensures ValidBlock(p, b, now) <==> |n.chain| < MAX_CHAIN_BLOCKS && GENESIS_TIME <= now + CLOCK_SKEW
    ensures Extends(n.chain, b)
  {
    WorkFacts(n);
    TipFacts(p, n.chain, taken);
    hide ValidTransactions, ValidWork, ValidPool, ValidLinks, ChainIds, TxIds, WorkOf;
  }

  /** The epoch tells exactly whether the chain changed: it never comes back. */
  lemma {:induction false} EpochTellsChange(p: Rules, r: Run, i: nat, j: nat)
    requires IsRun(p, r) && i <= j && OneProcess(r, i, j)
    ensures r.states[i].epoch <= r.states[j].epoch
    ensures r.states[i].epoch == r.states[j].epoch <==> r.states[i].chain == r.states[j].chain
    ensures r.states[i].chain != r.states[j].chain ==> BetterChain(r.states[j].chain, r.states[i].chain)
  {
    hide Inv, Next, BetterChain;
    if i < j {
      assert OneProcess(r, i, j - 1);
      EpochTellsChange(p, r, i, j - 1);
      assert StepAt(p, r, j - 1);
      RunKeepsInv(p, r, j - 1);
      var a, b, c := r.states[i], r.states[j - 1], r.states[j];
      EpochStep(p, b, r.steps[j - 1], r.clock[j - 1], r.clock[j]);
      if b.chain != c.chain {
        if a.chain != b.chain {
          BetterTransitive(c.chain, b.chain, a.chain);
        }
        BetterIrreflexive(a.chain);
      }
    }
  }

  lemma EpochStep(p: Rules, n: Node, s: Step, now: int, later: int)
    requires Inv(p, n, now) && !IsCrash(s)
    ensures n.chain != []
    ensures var m := Next(p, n, s, later);
      if m.chain == n.chain then m.epoch == n.epoch else BetterChain(m.chain, n.chain) && m.epoch == n.epoch + 1
  {
    hide Next, ValidLinks;
    StepAscends(p, n, s, later);
  }

  /** A block solved on `before` and offered when the node has come to `after`, whose chain
      is the same or better: committed exactly if the chain is the same (and there is room,
      and the save works), stale exactly if it is not. */
  lemma OfferExact(p: Rules, before: Node, after: Node, b: Block, taken: int, stamped: int, now: int, saves: bool)
    requires Inv(p, before, taken) && before.pool != map[] && SolvedFrom(p, before, b, stamped)
    requires taken <= stamped <= now && Inv(p, after, now) && NoWorse(after.chain, before.chain)
    ensures after.chain != []
    ensures var err := Append(p, after, b, now, saves).1;
      var room := |before.chain| < MAX_CHAIN_BLOCKS && GENESIS_TIME <= now + CLOCK_SKEW;
      && (err == Accepted <==> after.chain == before.chain && room && saves)
      && (err == StaleBlock <==> after.chain != before.chain && room)
  {
    SolvedIsValid(p, before, b, taken, stamped, now);
    LastIndex(p, before.chain, taken);
    LastIndex(p, after.chain, now);
    LessIrreflexive(b.prevHash);
    hide ValidBlock, ValidLinks, ValidPool, ChainIds, TxIds, WorkOf, ValidWork;
  }

  /** A miner takes work at state i, stamps a block, searches without the lock, and offers
      the solved block at state j of the same process. The block is committed exactly if
      the chain is still the one it was mined on (and there is room, and the save works);
      otherwise it is stale, and exactly then the epoch has moved on. */
  lemma OptimisticMiningExact(p: Rules, r: Run, i: nat, j: nat, b: Block, stamped: int, now: int, saves: bool)
    requires IsRun(p, r) && i <= j && OneProcess(r, i, j)
    requires Keyed(r.states[i].pool) && r.states[i].pool != map[] && r.states[i].chain != []
    requires SolvedFrom(p, r.states[i], b, stamped)
    requires r.clock[i] <= stamped <= now && r.clock[j] <= now
    ensures r.states[j].chain != []
    ensures var before, after := r.states[i].chain, r.states[j].chain;
      var err := Append(p, r.states[j], b, now, saves).1;
      var room := |before| < MAX_CHAIN_BLOCKS && GENESIS_TIME <= now + CLOCK_SKEW;
      && (err == Accepted <==> after == before && room && saves)
      && (err == StaleBlock <==> after != before && room)
      && (after == before <==> r.states[j].epoch == r.states[i].epoch)
  {
    hide Inv, Append, WorkOf, ValidWork, SolvedFrom, BetterChain;
    RunKeepsInv(p, r, i);
    RunKeepsInv(p, r, j);
    EpochTellsChange(p, r, i, j);
    InvMonotone(p, r.states[j], r.clock[j], now);
    OfferExact(p, r.states[i], r.states[j], b, r.clock[i], stamped, now, saves);
  }
}
