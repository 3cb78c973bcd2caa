/** The bounded queue of unconfirmed messages, and its reconciliation with a new chain. */
module Mempools {
  import opened GoText
  import opened Entities
  import opened Models

  const MAX_PENDING := 1000

  type Pool = map<Text, Transaction>

  /** Every message is filed under its own ID. */
  ghost predicate Keyed(m: Pool) {
    forall id | id in m :: m[id].id == id
  }

  // ---------------------------------------------------------------- sorted listings

  predicate Ascending(s: seq<Transaction>) {
    forall i, j | 0 <= i < j < |s| :: Less(s[i].id, s[j].id)
  }

  ghost predicate SameElements(s: seq<Transaction>, m: Pool) {
    && (forall t | t in s :: t.id in m && m[t.id] == t)
    && (forall id | id in m :: m[id] in s)
  }

  /** `s` holds each message of `m` once, in ascending order of ID. */
  ghost predicate IsListing(s: seq<Transaction>, m: Pool) {
    Ascending(s) && SameElements(s, m)
  }

  lemma AscendingDistinct(s: seq<Transaction>)
    requires Ascending(s)
    ensures DistinctIds(s)
  {
    forall i, j | 0 <= i < j < |s| ensures s[i].id != s[j].id {
      LessIrreflexive(s[i].id);
    }
  }

  lemma ListingFirst(s: seq<Transaction>, m: Pool, t: Transaction)
    requires IsListing(s, m) && t in s
    ensures t == s[0] || Less(s[0].id, t.id)
  {
    var k :| 0 <= k < |s| && s[k] == t;
  }

  lemma ListingTail(s: seq<Transaction>, m: Pool)
    requires IsListing(s, m) && Keyed(m) && s != []
    ensures IsListing(s[1..], m - {s[0].id}) && Keyed(m - {s[0].id})
  {
    AscendingDistinct(s);
    forall t | t in s[1..] ensures t.id in m - {s[0].id} {
      var k :| 0 <= k < |s[1..]| && s[1..][k] == t;
      assert s[k + 1] == t && t in s;
    }
    forall id | id in m - {s[0].id} ensures m[id] in s[1..] {
      var k :| 0 <= k < |s| && s[k] == m[id];
      assert k > 0 && s[1..][k - 1] == m[id];
    }
  }

  lemma ListingFirstSame(s: seq<Transaction>, r: seq<Transaction>, m: Pool)
    requires IsListing(s, m) && IsListing(r, m) && Keyed(m) && s != [] && r != []
    ensures s[0] == r[0]
  {
    assert s[0] in s && m[s[0].id] in r;
    assert r[0] in r && m[r[0].id] in s;
    ListingFirst(s, m, r[0]);
    ListingFirst(r, m, s[0]);
    if s[0] != r[0] {
      LessTransitive(s[0].id, r[0].id, s[0].id);
      LessIrreflexive(s[0].id);
    }
  }

  lemma ListingSize(s: seq<Transaction>, m: Pool)
    requires IsListing(s, m) && Keyed(m)
    ensures |s| == |m|
  {
    AscendingDistinct(s);
    ListingLength(s, m);
  }

  /** A pool has one listing: the order in which the map is iterated leaves no trace. */
  lemma {:induction false} ListingUnique(s: seq<Transaction>, r: seq<Transaction>, m: Pool)
    requires IsListing(s, m) && IsListing(r, m) && Keyed(m)
    ensures s == r
    decreases |s|
  {
    hide IsListing, Keyed;
    ListingSize(s, m);
    ListingSize(r, m);
    if s != [] {
      ListingFirstSame(s, r, m);
      ListingTail(s, m);
      ListingTail(r, m);
      ListingUnique(s[1..], r[1..], m - {s[0].id});
      assert s == [s[0]] + s[1..] && r == [r[0]] + r[1..];
    }
  }

  lemma ListingIds(s: seq<Transaction>, m: Pool)
    requires IsListing(s, m) && Keyed(m)
    ensures TxIds(s) == m.Keys
  {
    forall id | id in m ensures id in TxIds(s) {
      assert m[id] in s;
    }
  }

  lemma MapMinusOneMore(m: Pool, gone: set<Text>, id: Text)
    ensures m - gone - {id} == m - (gone + {id})
  {
  }

  /** Taking the first `k` messages out of the pool leaves the rest of the listing. */
  lemma {:induction false} ListingDrop(s: seq<Transaction>, m: Pool, k: nat)
    requires IsListing(s, m) && Keyed(m) && k <= |s|
    ensures IsListing(s[k..], m - TxIds(s[..k])) && Keyed(m - TxIds(s[..k]))
    decreases k
  {
    if k == 0 {
      assert s[..0] == [] && TxIds([]) == {} && m - {} == m && s[0..] == s;
    } else {
      hide IsListing, Keyed, TxIds;
      var gone := TxIds(s[..k - 1]);
      ListingDrop(s, m, k - 1);
      assert s[k - 1..][1..] == s[k..] && s[k - 1..][0] == s[k - 1];
      ListingTail(s[k - 1..], m - gone);
      MapMinusOneMore(m, gone, s[k - 1].id);
      TxIdsSnoc(s, k - 1);
    }
  }

  lemma ListingLength(s: seq<Transaction>, m: Pool)
    requires DistinctIds(s) && SameElements(s, m) && Keyed(m)
    ensures |s| == |m|
    decreases |s|
  {
    if s == [] {
      assert m.Keys == {};
    } else {
      var n := |s| - 1;
      var t := s[n];
      assert t in s;
      forall u | u in s[..n] ensures u.id in m - {t.id} && (m - {t.id})[u.id] == u {
        assert u in s;
      }
      forall id | id in m - {t.id} ensures m[id] in s[..n] {
        var k :| 0 <= k < |s| && s[k] == m[id];
        assert k < n && s[..n][k] == m[id];
      }
      ListingLength(s[..n], m - {t.id});
      assert (m - {t.id}).Keys == m.Keys - {t.id};
    }
  }

  ghost function LeastId(ids: set<Text>): (least: Text)
    requires ids != {}
    ensures least in ids && forall id | id in ids && id != least :: Less(least, id)
  {
    var x :| x in ids;
    if ids == {x} then x
    else
      var y := LeastId(ids - {x});
      LessTotal(x, y);
      assert Less(x, y) ==> forall id | id in ids && id != x :: Less(x, id) by {
        if Less(x, y) {
          forall id | id in ids && id != x && id != y ensures Less(x, id) {
            LessTransitive(x, y, id);
          }
        }
      }
      if Less(x, y) then x else y
  }

  lemma OneLess(m: Pool, id: Text)
    requires id in m && Keyed(m)
    ensures |m - {id}| < |m| && Keyed(m - {id})
  {
    assert (m - {id}).Keys == m.Keys - {id};
    assert |m - {id}| == |(m - {id}).Keys| && |m| == |m.Keys|;
  }

  /** The listing of a pool. */
  ghost function Listing(m: Pool): (s: seq<Transaction>)
    requires Keyed(m)
    ensures IsListing(s, m)
    decreases |m|
  {
    if m == map[] then []
    else
      var id := LeastId(m.Keys);
      OneLess(m, id);
      ListingCons(m, id, Listing(m - {id}));
      [m[id]] + Listing(m - {id})
  }

  lemma ListingCons(m: Pool, id: Text, rest: seq<Transaction>)
    requires Keyed(m) && id in m && IsListing(rest, m - {id})
    requires forall other | other in m && other != id :: Less(id, other)
    ensures IsListing([m[id]] + rest, m)
  {
    AscendingCons(m[id], rest);
    var less := m - {id};
    assert less.Keys == m.Keys - {id};
    var s := [m[id]] + rest;
    forall other | other in m ensures m[other] in s {
      if other == id {
        assert s[0] == m[id];
      } else {
        assert less[other] in rest;
      }
    }
  }

  lemma AscendingCons(t: Transaction, rest: seq<Transaction>)
    requires Ascending(rest) && forall u | u in rest :: Less(t.id, u.id)
    ensures Ascending([t] + rest)
  {
    var s := [t] + rest;
    forall i, j | 0 <= i < j < |s| ensures Less(s[i].id, s[j].id) {
      assert s[j] == rest[j - 1] && rest[j - 1] in rest;
    }
  }

  // ---------------------------------------------------------------- reconciliation

  /** Files `txs` in order over `base`, passing over IDs in `confirmed`. */
  function Overlay(base: Pool, txs: seq<Transaction>, confirmed: set<Text>): Pool {
    if txs == [] then base
    else
      var before := Overlay(base, txs[..|txs| - 1], confirmed);
      var tx := txs[|txs| - 1];
      if tx.id in confirmed then before else before[tx.id := tx]
  }

  /** The pending messages after `next` has taken the place of `current`: those that neither
      chain confirms, and those only the old chain did. */
  function ReorgPool(pool: Pool, current: seq<Block>, next: seq<Block>): Pool {
    Overlay(pool - ChainIds(next), Messages(current), ChainIds(next))
  }

  lemma OverlaySnoc(base: Pool, txs: seq<Transaction>, tx: Transaction, confirmed: set<Text>)
    ensures Overlay(base, txs + [tx], confirmed) ==
      var before := Overlay(base, txs, confirmed);
      if tx.id in confirmed then before else before[tx.id := tx]
  {
    assert (txs + [tx])[..|txs|] == txs;
  }

  lemma {:induction false} OverlayFacts(base: Pool, txs: seq<Transaction>, confirmed: set<Text>)
    requires Keyed(base)
    ensures Keyed(Overlay(base, txs, confirmed))
    ensures Overlay(base, txs, confirmed).Keys == base.Keys + (TxIds(txs) - confirmed)
  {
    if txs != [] {
      var n := |txs| - 1;
      OverlayFacts(base, txs[..n], confirmed);
      assert txs == txs[..n] + [txs[n]];
      TxIdsConcat(txs[..n], [txs[n]]);
    }
  }

  /** Every message of an overlay was in the pool or among those filed. */
  lemma {:induction false} OverlayOrigin(base: Pool, txs: seq<Transaction>, confirmed: set<Text>, id: Text)
    requires id in Overlay(base, txs, confirmed)
    ensures var t := Overlay(base, txs, confirmed)[id]; t in txs || (id in base && t == base[id])
  {
    if txs != [] {
      var n := |txs| - 1;
      if !(txs[n].id !in confirmed && txs[n].id == id) {
        OverlayOrigin(base, txs[..n], confirmed, id);
      }
    }
  }

  lemma {:induction false} OverlayEnumeration(txs: seq<Transaction>, confirmed: set<Text>)
    requires DistinctIds(txs)
    ensures var m := Overlay(map[], txs, confirmed);
      forall t | t in txs && t.id !in confirmed :: t.id in m && m[t.id] == t
  {
    if txs != [] {
      var n := |txs| - 1;
      OverlayEnumeration(txs[..n], confirmed);
      forall t | t in txs && t.id !in confirmed
        ensures t.id in Overlay(map[], txs, confirmed) && Overlay(map[], txs, confirmed)[t.id] == t
      {
        var k :| 0 <= k < |txs| && txs[k] == t;
        if k < n {
          assert txs[..n][k] == t;
        }
      }
    }
  }

  /** Refiling an enumeration of a pool rebuilds the pool, less what is confirmed. */
  lemma OverlayRebuilds(txs: seq<Transaction>, m: Pool, confirmed: set<Text>)
    requires DistinctIds(txs) && SameElements(txs, m) && Keyed(m)
    ensures Overlay(map[], txs, confirmed) == m - confirmed
  {
    var r := Overlay(map[], txs, confirmed);
    OverlayFacts(map[], txs, confirmed);
    OverlayEnumeration(txs, confirmed);
    forall id ensures id in TxIds(txs) <==> id in m {
      if id in m {
        assert m[id] in txs;
      }
    }
    var kept := m - confirmed;
    assert r.Keys == kept.Keys;
    forall id | id in r ensures r[id] == kept[id] {
      assert m[id] in txs;
    }
  }

  // ---------------------------------------------------------------- the queue

  /** Sorting by ID, as `sort.Slice` does it for IDs that all differ. */
  method SortById(s: seq<Transaction>) returns (r: seq<Transaction>)
    requires DistinctIds(s)
    ensures Ascending(r) && forall t :: t in r <==> t in s
  {
    r := [];
    for i := 0 to |s|
      invariant Ascending(r) && forall t :: t in r <==> t in s[..i]
    {
      var j := |r|;
      while j > 0 && Less(s[i].id, r[j - 1].id)
        invariant 0 <= j <= |r|
        invariant forall k | j <= k < |r| :: Less(s[i].id, r[k].id)
      {
        j := j - 1;
      }
      InsertAscending(r, j, s, i);
      r := r[..j] + [s[i]] + r[j..];
    }
    assert s[..|s|] == s;
  }

  lemma InsertAscending(r: seq<Transaction>, j: nat, s: seq<Transaction>, i: nat)
    requires i < |s| && DistinctIds(s) && Ascending(r) && (forall t :: t in r <==> t in s[..i])
    requires j <= |r| && forall k | j <= k < |r| :: Less(s[i].id, r[k].id)
    requires j > 0 ==> !Less(s[i].id, r[j - 1].id)
    ensures var q := r[..j] + [s[i]] + r[j..];
      Ascending(q) && forall t :: t in q <==> t in s[..i + 1]
  {
    var q := r[..j] + [s[i]] + r[j..];
    forall k | 0 <= k < j ensures Less(r[k].id, s[i].id) {
      assert r[j - 1] in r;
      var m :| 0 <= m < i && s[..i][m] == r[j - 1];
      LessTotal(r[j - 1].id, s[i].id);
      if k < j - 1 {
        LessTransitive(r[k].id, r[j - 1].id, s[i].id);
      }
    }
    forall a, b | 0 <= a < b < |q| ensures Less(q[a].id, q[b].id) {
      if a < j < b {
        LessTransitive(r[a].id, s[i].id, r[b - 1].id);
      }
    }
    assert s[..i + 1] == s[..i] + [s[i]];
    assert r == r[..j] + r[j..];
  }

  class Mempool {
    var transactions: Pool

    constructor ()
      ensures transactions == map[]
    {
      transactions := map[];
    }

    /** Refuses invalid and known messages, and any message while the queue is full. */
    method TryAdd(tx: Transaction) returns (err: Status)
      modifies this
      ensures err ==
        if !ValidTransaction(tx) then Invalid
        else if tx.id in old(transactions) then Duplicate
        else if |old(transactions)| >= 1000 then Full
        else Accepted
      ensures transactions == if err == Accepted then old(transactions)[tx.id := tx] else old(transactions)
    {
      if !ValidTransaction(tx) {
        return Invalid;
      }
      if tx.id in transactions {
        return Duplicate;
      }
      if |transactions| >= MAX_PENDING {
        return Full;
      }
      transactions := transactions[tx.id := tx];
      return Accepted;
    }

    /** The pending messages in ascending order of ID. */
    method GetPending() returns (out: seq<Transaction>)
      requires Keyed(transactions)
      ensures IsListing(out, transactions)
    {
      out := Values(transactions);
      out := SortById(out);
    }

    /** The messages of a map, in whatever order the map is iterated. */
    static method Values(m: Pool) returns (out: seq<Transaction>)
      requires Keyed(m)
      ensures DistinctIds(out) && SameElements(out, m)
    {
      out := [];
      var ids := m.Keys;
      while ids != {}
        invariant ids <= m.Keys && DistinctIds(out)
        invariant forall t | t in out :: t.id in m && m[t.id] == t && t.id !in ids
        invariant forall id | id in m && id !in ids :: m[id] in out
      {
        var id :| id in ids;
        ghost var before := out;
        out := out + [m[id]];
        assert forall i | 0 <= i < |before| :: before[i] in before;
        ids := ids - {id};
      }
    }

    method Remove(ids: seq<Text>)
      modifies this
      ensures transactions == old(transactions) - (set id | id in ids)
    {
      for i := 0 to |ids|
        invariant transactions == old(transactions) - (set id | id in ids[..i])
      {
        transactions := transactions - {ids[i]};
        assert ids[..i + 1] == ids[..i] + [ids[i]];
      }
      assert ids[..|ids|] == ids;
    }

    static method ConfirmedIds(chain: seq<Block>) returns (confirmed: set<Text>)
      ensures confirmed == ChainIds(chain)
    {
      assert Messages([]) == [] && TxIds([]) == {};
      hide Messages, TxIds, ChainIds;
      confirmed := {};
      for i := 0 to |chain|
        invariant confirmed == ChainIds(chain[..i])
      {
        assert chain[..i + 1] == chain[..i] + [chain[i]];
        MessagesSnoc(chain[..i], chain[i]);
        ghost var before := confirmed;
        var txs := chain[i].transactions;
        NoIds(txs);
        for k := 0 to |txs|
          invariant confirmed == before + TxIds(txs[..k])
        {
          TxIdsSnoc(txs, k);
          confirmed := confirmed + {txs[k].id};
        }
        assert txs[..|txs|] == txs;
      }
      assert chain[..|chain|] == chain;
    }

    static method AddOrphans(base: Pool, chain: seq<Block>, confirmed: set<Text>) returns (next: Pool)
      ensures next == Overlay(base, Messages(chain), confirmed)
    {
      assert Messages([]) == [] && Overlay(base, [], confirmed) == base;
      hide Messages, Overlay;
      next := base;
      for i := 0 to |chain|
        invariant next == Overlay(base, Messages(chain[..i]), confirmed)
      {
        assert chain[..i + 1] == chain[..i] + [chain[i]];
        MessagesSnoc(chain[..i], chain[i]);
        next := AddBlockOrphans(base, Messages(chain[..i]), next, chain[i].transactions, confirmed);
      }
      assert chain[..|chain|] == chain;
    }

    static method AddBlockOrphans(ghost base: Pool, ghost before: seq<Transaction>, start: Pool, txs: seq<Transaction>,
                                  confirmed: set<Text>)
      returns (next: Pool)
      requires start == Overlay(base, before, confirmed)
      ensures next == Overlay(base, before + txs, confirmed)
    {
      hide Overlay;
      next := start;
      assert before + txs[..0] == before;
      for k := 0 to |txs|
        invariant next == Overlay(base, before + txs[..k], confirmed)
      {
        assert before + txs[..k + 1] == (before + txs[..k]) + [txs[k]];
        OverlaySnoc(base, before + txs[..k], txs[k], confirmed);
        if txs[k].id !in confirmed {
          next := next[txs[k].id := txs[k]];
        }
      }
      assert txs[..|txs|] == txs;
    }

    /** Works out the queue after a change of chain, without changing anything. */
    method PrepareReorg(oldChain: seq<Block>, newChain: seq<Block>) returns (out: seq<Transaction>, err: Status)
      requires Keyed(transactions)
      ensures var next := ReorgPool(transactions, oldChain, newChain);
        if |next| > 1000 then err == Full && out == []
        else err == Accepted && DistinctIds(out) && SameElements(out, next)
    {
      var confirmed := ConfirmedIds(newChain);
      var pending := GetPending();
      var next: Pool := map[];
      for k := 0 to |pending|
        invariant next == Overlay(map[], pending[..k], confirmed)
      {
        assert pending[..k + 1] == pending[..k] + [pending[k]];
        OverlaySnoc(map[], pending[..k], pending[k], confirmed);
        if pending[k].id !in confirmed {
          next := next[pending[k].id := pending[k]];
        }
      }
      assert pending[..|pending|] == pending;
      AscendingDistinct(pending);
      OverlayRebuilds(pending, transactions, confirmed);

      ghost var base := next;
      next := AddOrphans(next, oldChain, confirmed);
      if |next| > MAX_PENDING {
        return [], Full;
      }
      OverlayFacts(base, Messages(oldChain), confirmed);
      out := Values(next);
      return out, Accepted;
    }

    /** Installs exactly the messages given, the last one of each ID. */
    method Replace(txs: seq<Transaction>)
      modifies this
      ensures transactions == Overlay(map[], txs, {})
    {
      transactions := map[];
      for k := 0 to |txs|
        invariant transactions == Overlay(map[], txs[..k], {})
      {
        assert txs[..k + 1] == txs[..k] + [txs[k]];
        OverlaySnoc(map[], txs[..k], txs[k], {});
        transactions := transactions[txs[k].id := txs[k]];
      }
      assert txs[..|txs|] == txs;
    }
  }
}
