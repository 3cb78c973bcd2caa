/** The search for a nonce, one mining round against the engine, and how rounds drain the
    queue of a node left to itself. */
module Miner {
  import opened GoText
  import opened Entities
  import opened Models
  import opened Mempools
  import opened Nodes
  import opened NodeRuns
  import opened Storage
  import opened Engine

  const MAX_NONCE := 0xFFFF_FFFF_FFFF_FFFF

  /** The block a miner works on, updated through a pointer. */
  class Draft {
    var block: Block

    constructor (block: Block)
      ensures this.block == block
    {
      this.block := block;
    }
  }

  /** What a look at the two channels finds before a nonce is tried. */
  datatype Poll = Quiet | ShutDown | Overtaken

  /** Whether `b` with nonce `n` has enough work. */
  predicate Solves(p: Rules, b: Block, n: uint64) {
    MeetsTarget(CalculateHash(p, b.(nonce := n)), b.difficulty)
  }

  /** A nonce solves a block if the hash it leads to begins with as many zero digits as the
      block's difficulty says. */
  lemma SolvesMeans(p: Rules, b: Block)
    requires b.difficulty >= 0
    ensures var zeros := seq(b.difficulty, (i: nat) => 48);
      forall n: uint64 :: Solves(p, b, n) <==> zeros <= CalculateHash(p, b.(nonce := n))
  {
    forall n: uint64 {
      TargetMeans(CalculateHash(p, b.(nonce := n)), b.difficulty);
    }
  }

  ghost predicate NothingBefore(p: Rules, b: Block, poll: nat -> Poll, end: nat) {
    forall n: uint64 | b.nonce <= n < end :: poll(n) == Quiet && !Solves(p, b, n)
  }

  /** Tries one nonce after the other, from the one in the draft. It ends at the first
      that solves the block, at the first interruption, or after the very last nonce;
      the counter never wraps around. */
  method Solve(p: Rules, d: Draft, poll: nat -> Poll) returns (err: Status)
    modifies d
    ensures d.block == old(d.block).(nonce := d.block.nonce, hash := d.block.hash)
    ensures !CheckDifficulty(old(d.block).difficulty) ==> err == Invalid && d.block == old(d.block)
    ensures CheckDifficulty(old(d.block).difficulty) ==>
      var b, last := old(d.block), d.block.nonce;
      && b.nonce <= last && NothingBefore(p, b, poll, last)
      && match poll(last) {
        case ShutDown => err == Canceled
        case Overtaken => err == TipChanged
        case Quiet =>
          && d.block.hash == CalculateHash(p, d.block)
          && if Solves(p, b, last) then err == Accepted else err == Exhausted && last == MAX_NONCE
      }
    ensures old(d.block).difficulty < 1 || old(d.block).difficulty > 4 ==> err == Invalid
    ensures 1 <= old(d.block).difficulty <= 4 ==>
      var b, zeros := old(d.block), seq(old(d.block).difficulty, (i: nat) => 48);
      && err != Invalid
      && (err == Accepted ==> zeros <= d.block.hash && d.block.hash == CalculateHash(p, d.block))
      && (forall n: uint64 | b.nonce <= n < d.block.nonce :: !(zeros <= CalculateHash(p, b.(nonce := n))))
      && (err == Exhausted ==> d.block.nonce == 0xFFFF_FFFF_FFFF_FFFF && !(zeros <= d.block.hash))
  {
    if !CheckDifficulty(d.block.difficulty) {
      return Invalid;
    }
    ghost var b := d.block;
    SolvesMeans(p, b);
    while true
      invariant d.block == b.(nonce := d.block.nonce, hash := d.block.hash)
      invariant b.nonce <= d.block.nonce && NothingBefore(p, b, poll, d.block.nonce)
      decreases MAX_NONCE - d.block.nonce
    {
      match poll(d.block.nonce) {
        case ShutDown =>
          return Canceled;
        case Overtaken =>
          return TipChanged;
        case Quiet =>
      }
      HashIgnored(p, b, d.block);
      d.block := d.block.(hash := CalculateHash(p, d.block));
      if MeetsTarget(d.block.hash, d.block.difficulty) {
        return Accepted;
      }
      if d.block.nonce == MAX_NONCE {
        return Exhausted;
      }
      d.block := d.block.(nonce := d.block.nonce + 1);
    }
  }

  /** The hash field is not part of what is hashed. */
  lemma HashIgnored(p: Rules, b: Block, d: Block)
    requires d == b.(nonce := d.nonce, hash := d.hash)
    ensures forall h: Text :: CalculateHash(p, d.(hash := h)) == CalculateHash(p, b.(nonce := d.nonce))
  {
    assert forall h: Text :: HeaderOf(d.(hash := h)) == HeaderOf(b.(nonce := d.nonce));
  }

  /** Left alone, the search returns the least nonce that works, and reports exhaustion
      exactly if none does. */
  method SolveUninterrupted(p: Rules, d: Draft) returns (err: Status)
    requires CheckDifficulty(d.block.difficulty)
    modifies d
    ensures err == Accepted || err == Exhausted
    ensures err == Accepted <==> exists n: uint64 :: old(d.block).nonce <= n && Solves(p, old(d.block), n)
    ensures err == Accepted ==>
      && d.block == old(d.block).(nonce := d.block.nonce, hash := CalculateHash(p, d.block))
      && Solves(p, old(d.block), d.block.nonce)
      && forall n: uint64 | old(d.block).nonce <= n < d.block.nonce :: !Solves(p, old(d.block), n)
    ensures var b, zeros := old(d.block), seq(old(d.block).difficulty, (i: nat) => 48);
      && (err == Accepted <==> exists n: uint64 :: b.nonce <= n && zeros <= CalculateHash(p, b.(nonce := n)))
      && (err == Accepted ==>
          && zeros <= d.block.hash
          && forall n: uint64 | b.nonce <= n < d.block.nonce :: !(zeros <= CalculateHash(p, b.(nonce := n))))
  {
    SolvesMeans(p, d.block);
    err := Solve(p, d, (n: nat) => Quiet);
  }

  // ---------------------------------------------------------------- one mining round

  /** The unsolved block on top of `n`. */
  ghost function Template(n: Node, difficulty: int64, now: int64): Block
    requires n.chain != [] && Last(n.chain).index < MAX_CHAIN_BLOCKS && Keyed(n.pool)
  {
    var tip := Last(n.chain);
    Block(PROTOCOL_VERSION, difficulty, tip.index + 1, if now > tip.timestamp then now else tip.timestamp,
      WorkOf(n), tip.hash, [], 0)
  }

  /** `m` is `n` after the solved block `b` was committed. */
  ghost predicate MinedOn(p: Rules, n: Node, m: Node, b: Block, stamped: int, now: int) {
    n.chain != [] && Keyed(n.pool) && SolvedFrom(p, n, b, stamped) && Append(p, n, b, now, true) == (m, Accepted)
  }

  lemma TemplateFits(p: Rules, n: Node, now: int)
    requires Inv(p, n, now)
    ensures n.chain != [] && Last(n.chain).index == |n.chain| - 1 < MAX_CHAIN_BLOCKS && Keyed(n.pool)
    ensures n.pool == map[] <==> WorkOf(n) == []
  {
    LastIndex(p, n.chain, now);
    ListingSize(Listing(n.pool), n.pool);
  }

  /** A solved template is accepted where it was made, if there is room and it is saved. */
  lemma SolvedAccepted(p: Rules, n: Node, b: Block, now: int64, later: int, saves: bool)
    requires Inv(p, n, now) && now <= later && n.pool != map[] && n.chain != [] && Keyed(n.pool)
    requires Last(n.chain).index < MAX_CHAIN_BLOCKS
    requires b == Template(n, p.difficulty, now).(nonce := b.nonce, hash := b.hash)
    requires b.hash == CalculateHash(p, b) && MeetsTarget(b.hash, p.difficulty)
    ensures SolvedFrom(p, n, b, now)
    ensures Append(p, n, b, later, saves).1 == Accepted <==>
      |n.chain| < MAX_CHAIN_BLOCKS && GENESIS_TIME <= later + CLOCK_SKEW && saves
  {
    hide WorkOf, MeetsTarget, ValidBlock, Extends, ValidLinks, ValidPool, TxIds;
    assert SolvedFrom(p, n, b, now);
    SolvedIsValid(p, n, b, now, now, later);
  }

  /** Whether any nonce solves the template. */
  ghost predicate Solvable(p: Rules, b: Block) {
    exists n: uint64 :: b.nonce <= n && Solves(p, b, n)
  }

  ghost predicate NeverStops(poll: nat -> Poll) {
    forall n: nat :: poll(n) != ShutDown
  }

  ghost predicate AlwaysQuiet(poll: nat -> Poll) {
    forall n: nat :: poll(n) == Quiet
  }

  ghost predicate EverOvertaken(poll: nat -> Poll) {
    exists n: nat :: poll(n) == Overtaken
  }

  /** Searches on a private draft. */
  method Search(p: Rules, draft: Block, poll: nat -> Poll) returns (b: Block, err: Status)
    ensures b == draft.(nonce := b.nonce, hash := b.hash)
    ensures err == Accepted ==> b.hash == CalculateHash(p, b) && MeetsTarget(b.hash, draft.difficulty)
    ensures CheckDifficulty(draft.difficulty) && AlwaysQuiet(poll) && Solvable(p, draft) ==> err == Accepted
    ensures err == TipChanged ==> EverOvertaken(poll)
    ensures err == Canceled ==> !NeverStops(poll)
    ensures err == Invalid ==> !CheckDifficulty(draft.difficulty)
    ensures err in {Accepted, Invalid, TipChanged, Canceled, Exhausted}
  {
    var d := new Draft(draft);
    err := Solve(p, d, poll);
    b := d.block;
    HashIgnored(p, draft, b);
    assert b.(hash := b.hash) == b;
  }

  /** What a look finds can be `Overtaken` only if the signal is closed. */
  function Looks(poll: nat -> Poll, closed: bool): nat -> Poll {
    (n: nat) => if poll(n) == Overtaken && !closed then Quiet else poll(n)
  }

  lemma LooksMean(poll: nat -> Poll, closed: bool)
    ensures EverOvertaken(Looks(poll, closed)) ==> closed
    ensures NeverStops(poll) ==> NeverStops(Looks(poll, closed))
    ensures NeverStops(poll) && !closed ==> AlwaysQuiet(Looks(poll, closed))
  {
  }

  /** `b` was solved on `n` and then committed to `mid`, which became `m`. */
  ghost predicate Committed(p: Rules, n: Node, mid: Node, m: Node, b: Block, stamped: int, now: int) {
    && n.chain != [] && Keyed(n.pool) && SolvedFrom(p, n, b, stamped)
    && mid.chain == n.chain && Append(p, mid, b, now, true) == (m, Accepted)
  }

  /** The first 100 messages of the queue in ascending order of ID, or all of fewer. */
  ghost predicate FirstPending(txs: seq<Transaction>, pool: Pool) {
    exists s :: IsListing(s, pool) && txs == s[..if |s| < 100 then |s| else 100]
  }

  /** A committed block stands on the tip it was mined on, carries the next index, the later
      of the clock and the tip's time, and the first pending messages. */
  lemma CommittedMeans(p: Rules, n: Node, mid: Node, m: Node, b: Block, stamped: int, now: int)
    requires Inv(p, n, stamped) && Committed(p, n, mid, m, b, stamped, now)
    ensures n.chain != [] && m.chain == n.chain + [b]
    ensures b.index == |n.chain| && b.prevHash == Last(n.chain).hash && b.difficulty == p.difficulty
    ensures b.timestamp == if stamped > Last(n.chain).timestamp then stamped else Last(n.chain).timestamp
    ensures FirstPending(b.transactions, n.pool)
  {
    hide Inv, AppendStatus, TxIds, WorkOf, FirstPending, Keyed, ValidWork;
    TemplateFits(p, n, stamped);
    WorkIsFirst(n);
  }

  lemma WorkIsFirst(n: Node)
    requires Keyed(n.pool)
    ensures FirstPending(WorkOf(n), n.pool)
  {
    hide WorkOf, IsListing, Keyed;
    var s := Listing(n.pool);
    WorkIsPrefix(n, s);
    assert IsListing(s, n.pool) && WorkOf(n) == s[..if |s| < 100 then |s| else 100];
  }

  /** The chain is still the one the work was taken on, there is room for a block, and
      some nonce solves it. */
  ghost predicate Favourable(p: Rules, n: Node, mid: Node, difficulty: int64, now: int64, later: int) {
    && n.chain != [] && Last(n.chain).index < MAX_CHAIN_BLOCKS && Keyed(n.pool)
    && mid.chain == n.chain && difficulty == p.difficulty && |n.chain| < MAX_CHAIN_BLOCKS
    && GENESIS_TIME <= later + CLOCK_SKEW && exists k: uint64 :: Solves(p, Template(n, difficulty, now), k)
  }

  /** One mining round: takes work, searches without the lock while others make the engine
      do whatever they like (`acts`), and offers what it found. `mid` is the node by then.
      A round on an empty queue does nothing. Otherwise it commits a block only if the
      chain is still the one the work was taken on; the search breaks off, and the engine
      refuses the block as stale, only if it is not; whatever else fails, the round itself
      changes nothing. Left running, with room, a working save and a nonce to be found, it
      does commit. */
  method MineOnce(g: GossipEngine, difficulty: int64, now: int64, later: int, saves: bool, poll: nat -> Poll, acts: seq<Act>)
    returns (err: Status, ghost mid: Node)
    requires g.Valid(now) && now <= later
    modifies g, g.chainStore, g.mempool, g.changed
    ensures g.Valid(later) && old(g.turns) <= g.turns && g.chainStore.OwnSlices()
    ensures old(g.State()).pool == map[] ==> err == Accepted && g.State() == mid == old(g.State())
    ensures acts == [] ==> mid == old(g.State())
    ensures NoWorse(mid.chain, old(g.State()).chain)
    ensures old(g.State()).pool != map[] ==>
      var p, n := g.chainStore.rules, old(g.State());
      && (err == Accepted ==> exists b :: Committed(p, n, mid, g.State(), b, now, later))
      && (err != Accepted ==> g.State() == mid)
      && (err == TipChanged || err == StaleBlock ==> mid.chain != n.chain && old(g.changed).closed)
      && (err == Canceled ==> !NeverStops(poll))
      && (err == Accepted ==> difficulty == p.difficulty)
      && (Favourable(p, n, mid, difficulty, now, later) && saves && NeverStops(poll) ==> err == Accepted)
  {
    ghost var n, e := g.State(), g.epoch;
    hide Inv, Append, Favourable, Committed, Template, Keyed, WorkOf, NoWorse, Looks, NeverStops, AlwaysQuiet, EverOvertaken,
      GossipEngine.Valid;
    EngineInv(g, now);
    EpochInTurns(g, now);
    TemplateFits(g.chainStore.rules, n, now);
    g.Advance(now, later);
    var draft, closed := TakeWork(g, difficulty, now, later, acts);
    mid := g.State();
    if |draft.transactions| == 0 {
      return Accepted, mid;
    }
    LooksMean(poll, closed);
    err := Finish(g, draft, n, difficulty, now, later, saves, Looks(poll, closed));
    g.SignalTellsChange(later, e);
  }

  /** Takes work and, if there is any, lets others act. The signal that came with the work
      is closed by then exactly if the chain has changed. */
  method TakeWork(g: GossipEngine, difficulty: int64, now: int64, later: int, acts: seq<Act>) returns (draft: Block, closed: bool)
    requires g.Valid(later)
    modifies g, g.chainStore, g.mempool, g.changed
    ensures g.Valid(later) && old(g.turns) <= g.turns && g.chainStore.OwnSlices()
    ensures g.changed == old(g.changed) || fresh(g.changed)
    ensures var n := old(g.State());
      && n.chain != [] && Last(n.chain).index < MAX_CHAIN_BLOCKS && Keyed(n.pool)
      && draft == Template(n, difficulty, now) && (draft.transactions == [] <==> n.pool == map[])
      && (draft.transactions == [] || acts == [] ==> g.State() == n)
      && NoWorse(g.State().chain, n.chain)
      && (closed <==> g.State().chain != n.chain) && (closed <==> old(g.changed).closed) && (closed ==> fresh(g.changed))
  {
    ghost var n, e := g.State(), g.epoch;
    hide Inv, Shuffles, Template, Keyed, NoWorse, GossipEngine.SignalsTell, FileChainStorage.Valid;
    EpochInTurns(g, later);
    NoWorseReflexive(n.chain);
    var signal;
    draft, signal := Draw(g, difficulty, now, later);
    if |draft.transactions| > 0 {
      ghost var states := Perform(g, acts, later);
    }
    g.SignalTellsChange(later, e);
    EpochInTurns(g, later);
    g.SignalTellsChange(later, g.epoch);
    closed := signal.closed;
  }

  lemma EpochInTurns(g: GossipEngine, now: int)
    requires g.Valid(now)
    ensures g.epoch < |g.turns| && g.turns[g.epoch] == Turn(g.changed, g.State().chain)
  {
    hide Inv, Shuffles, FileChainStorage.Valid, BetterChain;
  }

  /** The rest of a round, from the start of the search: `n` is the node the work was taken
      from, and the engine has a chain no worse than then. */
  method Finish(g: GossipEngine, draft: Block, ghost n: Node, ghost difficulty: int64, ghost now: int64, later: int, saves: bool,
                looks: nat -> Poll)
    returns (err: Status)
    requires g.Valid(later) && Inv(g.chainStore.rules, n, now) && now <= later && n.pool != map[]
    requires n.chain != [] && Last(n.chain).index < MAX_CHAIN_BLOCKS && Keyed(n.pool)
    requires NoWorse(g.State().chain, n.chain) && draft == Template(n, difficulty, now)
    modifies g, g.chainStore, g.mempool, g.changed
    ensures g.Valid(later) && old(g.turns) <= g.turns && g.chainStore.OwnSlices()
    ensures var p, mid := g.chainStore.rules, old(g.State());
      && (err == Accepted ==> exists b :: Committed(p, n, mid, g.State(), b, now, later))
      && (err == Accepted ==> difficulty == p.difficulty)
      && (err != Accepted ==> g.State() == mid)
      && (err == StaleBlock ==> mid.chain != n.chain)
      && (err == TipChanged ==> EverOvertaken(looks))
      && (err == Canceled ==> !NeverStops(looks))
      && (Favourable(p, n, mid, difficulty, now, later) && saves && AlwaysQuiet(looks) ==> err == Accepted)
  {
    ghost var p, mid := g.chainStore.rules, g.State();
    ValidDifficulty(p, n, now);
    TemplateDifficulty(n, difficulty, now);
    EngineInv(g, later);
    hide Inv, Shuffles, Views, View, Append, MeetsTarget, Solvable, Committed, Template, Keyed, NoWorse, AlwaysQuiet,
      EverOvertaken, GossipEngine.SignalsTell, FileChainStorage.Valid;
    label searching:
    var b;
    b, err := Search(g.chainStore.rules, draft, looks);
    g.StoreSame@searching(later);
    g.SignalsSame@searching(g.chainStore.contents);
    assert g.State() == mid;
    if err == Accepted {
      err := g.ReceiveBlock(b, later, saves);
      RoundOutcome(p, n, mid, g.State(), err, b, difficulty, now, later, saves);
    }
  }

  lemma EngineInv(g: GossipEngine, now: int)
    requires g.Valid(now)
    ensures Inv(g.chainStore.rules, g.State(), now) && g.State().chain != []
  {
  }

  lemma ValidDifficulty(p: Rules, n: Node, now: int)
    requires Inv(p, n, now)
    ensures CheckDifficulty(p.difficulty)
  {
  }

  lemma TemplateDifficulty(n: Node, difficulty: int64, now: int64)
    requires n.chain != [] && Last(n.chain).index < MAX_CHAIN_BLOCKS && Keyed(n.pool)
    ensures Template(n, difficulty, now).difficulty == difficulty
  {
  }

  lemma RoundOutcome(p: Rules, n: Node, mid: Node, m: Node, err: Status, b: Block, difficulty: int64, now: int64, later: int, saves: bool)
    requires Inv(p, n, now) && now <= later && n.pool != map[] && Inv(p, mid, later) && NoWorse(mid.chain, n.chain)
    requires n.chain != [] && Keyed(n.pool) && Last(n.chain).index < MAX_CHAIN_BLOCKS
    requires b == Template(n, difficulty, now).(nonce := b.nonce, hash := b.hash)
    requires b.hash == CalculateHash(p, b) && MeetsTarget(b.hash, difficulty)
    requires mid.chain != [] && (m, err) == Append(p, mid, b, later, saves)
    ensures err == Accepted ==> Committed(p, n, mid, m, b, now, later)
    ensures err != Accepted ==> m == mid
    ensures err == StaleBlock ==> mid.chain != n.chain
    ensures err == Accepted ==> difficulty == p.difficulty
    ensures
      && mid.chain == n.chain && difficulty == p.difficulty && |n.chain| < MAX_CHAIN_BLOCKS
      && GENESIS_TIME <= later + CLOCK_SKEW && saves
      ==> err == Accepted
    ensures err !in {TipChanged, Canceled, Exhausted}
  {
    hide Inv, Append, WorkOf, MeetsTarget, Keyed, NoWorse;
    RefusedAppend(p, mid, b, later, saves);
    AppendAnswers(p, mid, b, later, saves);
    if difficulty == p.difficulty {
      assert SolvedFrom(p, n, b, now);
      OfferExact(p, n, mid, b, now, now, later, saves);
    } else {
      ForeignDifficulty(p, mid, b, later, saves);
    }
    if err == Accepted {
      AcceptedIsSaved(p, mid, b, later, saves);
    }
  }

  lemma AppendAnswers(p: Rules, n: Node, b: Block, now: int, saves: bool)
    requires n.chain != []
    ensures Append(p, n, b, now, saves).1 in {Accepted, Invalid, StaleBlock, SaveFailed}
  {
    hide ValidBlock, Extends, TxIds;
  }

  lemma ForeignDifficulty(p: Rules, n: Node, b: Block, now: int, saves: bool)
    requires n.chain != [] && b.difficulty != p.difficulty
    ensures Append(p, n, b, now, saves) == (n, Invalid)
  {
  }

  lemma AcceptedIsSaved(p: Rules, n: Node, b: Block, now: int, saves: bool)
    requires n.chain != [] && Append(p, n, b, now, saves).1 == Accepted
    ensures saves && Append(p, n, b, now, saves) == Append(p, n, b, now, true)
  {
    hide ValidBlock, Extends, TxIds;
  }

  lemma TemplateIs(n: Node, difficulty: int64, now: int64)
    requires n.chain != [] && Last(n.chain).index < MAX_CHAIN_BLOCKS && Keyed(n.pool)
    ensures var tip := Last(n.chain);
      Template(n, difficulty, now) == Block(PROTOCOL_VERSION, difficulty, tip.index + 1,
        if now > tip.timestamp then now else tip.timestamp, WorkOf(n), tip.hash, [], 0)
  {
    hide WorkOf;
  }

  /** The block to solve, and the signal that tells when it is out of date. */
  method Draw(g: GossipEngine, difficulty: int64, now: int64, ghost later: int) returns (draft: Block, signal: Signal)
    requires g.Valid(later)
    ensures g.Valid(later) && g.State() == old(g.State())
    ensures signal == g.changed == g.turns[g.epoch].signal && g.turns[g.epoch].chain == g.State().chain
    ensures var n := g.State();
      && n.chain != [] && Last(n.chain).index < MAX_CHAIN_BLOCKS && Keyed(n.pool)
      && draft == Template(n, difficulty, now)
      && (draft.transactions == [] <==> n.pool == map[])
  {
    ghost var n := g.State();
    hide Inv, Views, View, WorkOf, Keyed, Template, GossipEngine.Valid;
    EngineInv(g, later);
    TemplateFits(g.chainStore.rules, n, later);
    TemplateIs(n, difficulty, now);
    var tip, work;
    tip, work, signal := g.MiningWork(later);
    var parent := View(tip);
    draft := Block(PROTOCOL_VERSION, difficulty, parent.index + 1,
      if now > parent.timestamp then now else parent.timestamp, work, parent.hash, [], 0);
  }

  /** Work taken in an earlier turn `e` of the engine, when the node was `n`, and offered
      now: committed exactly if the signal that came with it is still open (and there is
      room, and the save works), stale exactly if it has been closed; and closed it is
      exactly if the chain is another. */
  method OfferTaken(g: GossipEngine, b: Block, ghost e: nat, ghost n: Node, ghost taken: int, ghost stamped: int, now: int, saves: bool)
    returns (err: Status)
    requires g.Valid(now) && e < |g.turns| && g.turns[e].chain == n.chain
    requires Inv(g.chainStore.rules, n, taken) && n.pool != map[] && taken <= stamped <= now
    requires SolvedFrom(g.chainStore.rules, n, b, stamped)
    modifies g, g.chainStore, g.mempool, g.changed
    ensures g.Valid(now) && old(g.turns) <= g.turns && g.chainStore.OwnSlices()
    ensures (g.State(), err) == Append(g.chainStore.rules, old(g.State()), b, now, saves)
    ensures var open := !old(g.turns[e].signal.closed);
      var room := |n.chain| < MAX_CHAIN_BLOCKS && GENESIS_TIME <= now + CLOCK_SKEW;
      && (open <==> old(g.State()).chain == n.chain)
      && (err == Accepted <==> open && room && saves)
      && (err == StaleBlock <==> !open && room)
  {
    ghost var mid := g.State();
    g.SignalTellsChange(now, e);
    hide Inv, Shuffles, Append, SolvedFrom, NoWorse, GossipEngine.SignalsTell, FileChainStorage.Valid;
    OfferExact(g.chainStore.rules, n, mid, b, taken, stamped, now, saves);
    err := g.ReceiveBlock(b, now, saves);
  }

  // ---------------------------------------------------------------- draining the queue

  /** One successful round: nothing on an empty queue, one more block otherwise. */
  ghost predicate Round(p: Rules, n: Node, m: Node, b: Block, now: int) {
    if n.pool == map[] then m == n else exists stamped: int :: MinedOn(p, n, m, b, stamped, now)
  }

  ghost predicate IsDrain(p: Rules, states: seq<Node>, blocks: seq<Block>, clock: seq<int>) {
    && |states| == |blocks| + 1 == |clock|
    && Inv(p, states[0], clock[0])
    && forall k: nat | k < |blocks| :: RoundAt(p, states, blocks, clock, k)
  }

  ghost predicate RoundAt(p: Rules, states: seq<Node>, blocks: seq<Block>, clock: seq<int>, k: nat)
    requires |states| == |blocks| + 1 == |clock| && k < |blocks|
  {
    clock[k] <= clock[k + 1] && Round(p, states[k], states[k + 1], blocks[k], clock[k + 1])
  }

  function Min(a: nat, b: nat): nat {
    if a < b then a else b
  }

  lemma WorkIsPrefix(n: Node, s: seq<Transaction>)
    requires Keyed(n.pool) && IsListing(s, n.pool)
    ensures WorkOf(n) == s[..Min(|s|, MAX_BLOCK_TRANSACTIONS)]
  {
    hide IsListing, Keyed, WorkOf;
    WorkOfListing(n, s);
    assert s[..|s|] == s;
  }

  lemma RoundEffect(p: Rules, n: Node, m: Node, b: Block, now: int, s: seq<Transaction>)
    requires Inv(p, n, now) && Round(p, n, m, b, now) && IsListing(s, n.pool)
    ensures Inv(p, m, now)
    ensures var t := Min(|s|, MAX_BLOCK_TRANSACTIONS);
      && IsListing(s[t..], m.pool)
      && Messages(m.chain) == Messages(n.chain) + s[..t]
      && m.chain == n.chain + if s == [] then [] else [b]
  {
    TemplateFits(p, n, now);
    ListingSize(s, n.pool);
    hide Inv, Messages, TxIds, MinedOn, IsListing, Keyed, WorkOf;
    if n.pool == map[] {
      assert s == [] && Messages(n.chain) + s[..0] == Messages(n.chain) && n.chain + [] == n.chain;
      assert s[0..] == s;
    } else {
      WorkIsPrefix(n, s);
      var stamped: int :| MinedOn(p, n, m, b, stamped, now);
      MinedEffect(p, n, m, b, stamped, now);
      ListingDrop(s, n.pool, Min(|s|, MAX_BLOCK_TRANSACTIONS));
    }
  }

  lemma MinedEffect(p: Rules, n: Node, m: Node, b: Block, stamped: int, now: int)
    requires Inv(p, n, now) && MinedOn(p, n, m, b, stamped, now)
    ensures Inv(p, m, now)
    ensures b.transactions == WorkOf(n) && m.pool == n.pool - TxIds(b.transactions)
    ensures m.chain == n.chain + [b] && Messages(m.chain) == Messages(n.chain) + b.transactions
  {
    AppendKeepsInv(p, n, b, now, true);
    MessagesSnoc(n.chain, b);
    hide Inv, Messages, TxIds, ValidBlock, Extends, WorkOf, ValidWork;
  }

  /** After `k` successful rounds a node left to itself has confirmed exactly the first
      100k of its n pending messages, in ascending order of ID whatever the order of the
      map, in min(k, n/100 rounded up) blocks, and has the other max(0, n - 100k) pending. */
  lemma {:induction false} Drained(p: Rules, states: seq<Node>, blocks: seq<Block>, clock: seq<int>, s: seq<Transaction>)
    requires IsDrain(p, states, blocks, clock) && IsListing(s, states[0].pool)
    ensures var k := |blocks|;
      var first, last, done := states[0], states[k], Min(|s|, 100 * k);
      && Inv(p, last, clock[k])
      && IsListing(s[done..], last.pool)
      && |last.pool| == |s| - done
      && Messages(last.chain) == Messages(first.chain) + s[..done]
      && first.chain <= last.chain
      && |last.chain| == |first.chain| + Min(k, (|s| + 99) / 100)
    decreases |blocks|
  {
    hide Inv, Messages, IsListing, Round;
    var k := |blocks|;
    if k == 0 {
      assert s[0..] == s && s[..0] == [];
      assert Messages(states[0].chain) + [] == Messages(states[0].chain);
    } else {
      var before := Min(|s|, 100 * (k - 1));
      DrainPrefix(p, states, blocks, clock);
      Drained(p, states[..k], blocks[..k - 1], clock[..k], s);
      assert states[..k][0] == states[0] && states[..k][k - 1] == states[k - 1];
      assert RoundAt(p, states, blocks, clock, k - 1);
      InvMonotone(p, states[k - 1], clock[k - 1], clock[k]);
      RoundEffect(p, states[k - 1], states[k], blocks[k - 1], clock[k], s[before..]);
      var t := Min(|s[before..]|, MAX_BLOCK_TRANSACTIONS);
      var done := Min(|s|, 100 * k);
      assert before + t == done;
      assert s[before..][t..] == s[done..] && s[..before] + s[before..][..t] == s[..done];
    }
    ListingSizeOf(p, states[k], clock[k], s[Min(|s|, 100 * k)..]);
  }

  lemma ListingSizeOf(p: Rules, n: Node, now: int, s: seq<Transaction>)
    requires Inv(p, n, now) && IsListing(s, n.pool)
    ensures |s| == |n.pool|
  {
    ListingSize(s, n.pool);
  }

  lemma DrainPrefix(p: Rules, states: seq<Node>, blocks: seq<Block>, clock: seq<int>)
    requires IsDrain(p, states, blocks, clock) && blocks != []
    ensures IsDrain(p, states[..|blocks|], blocks[..|blocks| - 1], clock[..|blocks|])
  {
    hide Inv, Round;
    var n := |blocks| - 1;
    var fewer, some, times := states[..n + 1], blocks[..n], clock[..n + 1];
    forall k: nat | k < n ensures RoundAt(p, fewer, some, times, k) {
      assert RoundAt(p, states, blocks, clock, k);
    }
  }
}
