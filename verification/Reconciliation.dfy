/** The reconciliation pass over submitted trades: what it drains, how fast, and what starves it. */
module Reconciliation {
  import opened Wrappers
  import opened TradeTable

  const BATCH_LIMIT: nat := 25

  /** What the outside world answers about each trade: its wallet, and its receipt. */
  datatype World = World(resolves: nat -> bool, lookup: nat -> Lookup)

  predicate Eligible(t: Trade) {
    t.status == Submitted && t.sellTxHash.Some? && t.sellTxHash.value != ""
  }

  ghost function PendingTrades(rows: Table): set<nat> {
    set i: nat | i < |rows| && Eligible(rows[i])
  }

  /** An answer to SELECT … WHERE status = 'submitted' … ORDER BY executed_at LIMIT 25. */
  ghost predicate IsBatch(rows: Table, batch: seq<nat>) {
    && (forall i :: 0 <= i < |batch| ==> batch[i] in PendingTrades(rows))
    && Ordered(rows, batch)
    && |batch| == (if |PendingTrades(rows)| < BATCH_LIMIT then |PendingTrades(rows)| else BATCH_LIMIT)
    && (forall i, other :: 0 <= i < |batch| && other in PendingTrades(rows) && other !in batch ==>
          rows[batch[i]].executedAt <= rows[other].executedAt)
  }

  /** Different rows, the oldest first. */
  ghost predicate Ordered(rows: Table, batch: seq<nat>)
    requires forall i :: 0 <= i < |batch| ==> batch[i] < |rows|
  {
    forall i, j :: 0 <= i < j < |batch| ==>
      batch[i] != batch[j] && rows[batch[i]].executedAt <= rows[batch[j]].executedAt
  }

  function ReconcileRow(rows: Table, id: nat, world: World): Table {
    if world.resolves(id) then Settle(rows, id, world.lookup(id)) else rows
  }

  function ReconcileRows(rows: Table, batch: seq<nat>, world: World): Table {
    if batch == [] then rows
    else ReconcileRow(ReconcileRows(rows, batch[..|batch| - 1], world), batch[|batch| - 1], world)
  }

  /** `reconcile_submitted_trades_once`, with every database statement succeeding. */
  method ReconcileOnce(store: TradeStore, batch: seq<nat>, world: World)
    requires IsBatch(store.trades, batch)
    modifies store`trades
    ensures store.trades == ReconcileRows(old(store.trades), batch, world)
    ensures PendingTrades(store.trades) == PendingTrades(old(store.trades)) - Settled(batch, world)
    ensures |store.trades| == |old(store.trades)|
    ensures forall i :: 0 <= i < |store.trades| ==>
              if i in Settled(batch, world) then SettledAs(old(store.trades)[i], store.trades[i], world.lookup(i))
              else store.trades[i] == old(store.trades)[i]
    ensures old(AllCoherent(store.trades)) ==> AllCoherent(store.trades)
  {
    for n := 0 to |batch|
      invariant store.trades == ReconcileRows(old(store.trades), batch[..n], world)
      invariant old(AllCoherent(store.trades)) ==> AllCoherent(store.trades)
    {
      var id := batch[n];
      assert batch[..n + 1][..n] == batch[..n];
      if world.resolves(id) {
        match world.lookup(id)
        case Mined(received) =>
          store.MarkConfirmed(id);
          if received.Some? {
            store.UpdateReceived(id, received.value);
          }
        case Reverted =>
          store.MarkFailed(id, TransactionReverted);
        case Pending =>
        case Unreachable(_) =>
      }
    }
    assert batch[..|batch|] == batch;
    PassDrains(old(store.trades), batch, world);
    PassEffect(old(store.trades), batch, world);
  }

  // ----- What one pass does -----

  /** The trade's wallet resolves and its receipt is there, whatever it says. */
  predicate Final(world: World, id: nat) {
    world.resolves(id) && (world.lookup(id).Mined? || world.lookup(id).Reverted?)
  }

  ghost function Settled(batch: seq<nat>, world: World): set<nat> {
    set id | id in batch && Final(world, id)
  }

  /** The trade is confirmed with the amount the receipt names, or failed because its transaction was. */
  predicate SettledAs(t: Trade, t': Trade, lookup: Lookup) {
    match lookup
    case Mined(Some(amount)) => t' == t.(status := Confirmed, failureReason := None, finalReceived := Some(amount))
    case Mined(None) => t' == t.(status := Confirmed, failureReason := None)
    case Reverted => t' == t.(status := TradeStatus.Failed, failureReason := Some(TransactionReverted))
    case _ => false
  }

  /** A pass settles the final trades of its batch and touches no other. */
  lemma {:induction false} PassEffect(rows: Table, batch: seq<nat>, world: World)
    requires forall id :: id in batch ==> id in PendingTrades(rows)
    ensures |ReconcileRows(rows, batch, world)| == |rows|
    ensures forall i :: 0 <= i < |rows| && i !in Settled(batch, world) ==>
              ReconcileRows(rows, batch, world)[i] == rows[i]
    ensures forall i :: 0 <= i < |rows| && i in Settled(batch, world) ==>
              SettledAs(rows[i], ReconcileRows(rows, batch, world)[i], world.lookup(i))
  {
    if batch != [] {
      var n := |batch| - 1;
      assert batch == batch[..n] + [batch[n]];
      PassEffect(rows, batch[..n], world);
    }
  }

  lemma PassDrains(rows: Table, batch: seq<nat>, world: World)
    requires IsBatch(rows, batch)
    ensures PendingTrades(ReconcileRows(rows, batch, world)) == PendingTrades(rows) - Settled(batch, world)
  {
    PassEffect(rows, batch, world);
  }

  /** The pending trades no pass can settle. */
  ghost function Stuck(rows: Table, world: World): set<nat> {
    set i | i in PendingTrades(rows) && !Final(world, i)
  }

  ghost function Members(batch: seq<nat>): set<nat> {
    set id | id in batch
  }

  lemma {:induction false} DistinctSize(batch: seq<nat>)
    requires forall i, j :: 0 <= i < j < |batch| ==> batch[i] != batch[j]
    ensures |Members(batch)| == |batch|
  {
    if batch != [] {
      var n := |batch| - 1;
      DistinctSize(batch[..n]);
      assert batch[n] !in Members(batch[..n]);
      assert Members(batch) == Members(batch[..n]) + {batch[n]};
    }
  }

  lemma SubsetSize(a: set<nat>, b: set<nat>)
    requires a <= b
    ensures |b - a| == |b| - |a|
  {
    assert b == a + (b - a);
  }

  /** Of a batch as large as the limit allows, all but the stuck trades are settled. */
  lemma SettledCount(all: set<nat>, stuck: set<nat>, chosen: set<nat>)
    requires stuck <= all && chosen <= all && |chosen| == if |all| < BATCH_LIMIT then |all| else BATCH_LIMIT
    ensures
      var left := all - stuck - (chosen - stuck);
      left == {} || |left| + BATCH_LIMIT <= |all - stuck| + |stuck|
  {
    SubsetSize(chosen - stuck, all - stuck);
    assert chosen == (chosen - stuck) + (chosen * stuck);
    SubsetSize(chosen * stuck, stuck);
    SubsetSize(chosen, all);
    if |all| < BATCH_LIMIT {
      assert all - chosen == {};
      assert all - stuck - (chosen - stuck) == {};
    }
  }

  /** With u stuck trades a pass settles 25 - u of the others, or all of them if they are fewer. */
  lemma PassSettles(rows: Table, batch: seq<nat>, world: World)
    requires IsBatch(rows, batch)
    ensures
      var rows' := ReconcileRows(rows, batch, world);
      var (before, after) := (PendingTrades(rows) - Stuck(rows, world), PendingTrades(rows') - Stuck(rows', world));
      && Stuck(rows', world) == Stuck(rows, world)
      && (after == {} || |after| + 25 <= |before| + |Stuck(rows, world)|)
  {
    var rows' := ReconcileRows(rows, batch, world);
    var (all, stuck, chosen) := (PendingTrades(rows), Stuck(rows, world), Members(batch));
    PassDrains(rows, batch, world);
    StuckStays(rows, batch, world);
    DistinctSize(batch);
    SettledCount(all, stuck, chosen);
    SettledIsRest(rows, batch, world);
    assert PendingTrades(rows') - stuck == all - stuck - (chosen - stuck);
  }

  lemma StuckStays(rows: Table, batch: seq<nat>, world: World)
    requires IsBatch(rows, batch)
    ensures Stuck(ReconcileRows(rows, batch, world), world) == Stuck(rows, world)
  {
    PassDrains(rows, batch, world);
  }

  lemma SettledIsRest(rows: Table, batch: seq<nat>, world: World)
    requires IsBatch(rows, batch)
    ensures Members(batch) <= PendingTrades(rows) && Settled(batch, world) == Members(batch) - Stuck(rows, world)
  {
  }

  // ----- Many passes -----

  function Passes(rows: Table, batches: seq<seq<nat>>, world: World): Table
    decreases |batches|
  {
    if batches == [] then rows else Passes(ReconcileRows(rows, batches[0], world), batches[1..], world)
  }

  /** Each batch answers the query on the table its pass finds. */
  ghost predicate Answered(rows: Table, batches: seq<seq<nat>>, world: World)
    decreases |batches|
  {
    batches != [] ==>
      && IsBatch(rows, batches[0])
      && Answered(ReconcileRows(rows, batches[0], world), batches[1..], world)
  }

  // ----- One trade -----

  /** The stuck trades that the query may list before trade j: those no younger. */
  ghost function StuckAhead(rows: Table, world: World, j: nat): set<nat>
    requires j < |rows|
  {
    set i | i in Stuck(rows, world) && rows[i].executedAt <= rows[j].executedAt
  }

  /** The other pending trades no younger than j, and j itself. */
  ghost function SettlableAhead(rows: Table, world: World, j: nat): set<nat>
    requires j < |rows|
  {
    set i | i in PendingTrades(rows) - Stuck(rows, world) && rows[i].executedAt <= rows[j].executedAt
  }

  /** A pass keeps every pending trade's age, so what is ahead of j stays ahead, and what is settled leaves. */
  lemma AheadAfterPass(rows: Table, batch: seq<nat>, world: World, j: nat)
    requires IsBatch(rows, batch) && j in PendingTrades(rows) && j !in Settled(batch, world)
    ensures
      var rows' := ReconcileRows(rows, batch, world);
      && j in PendingTrades(rows') && rows'[j] == rows[j]
      && StuckAhead(rows', world, j) == StuckAhead(rows, world, j)
      && SettlableAhead(rows', world, j) == SettlableAhead(rows, world, j) - Settled(batch, world)
  {
    PassEffect(rows, batch, world);
    PassDrains(rows, batch, world);
    StuckStays(rows, batch, world);
  }

  /** A batch that leaves j out is full of trades no younger, and settles all of them that are not stuck. */
  lemma BatchAhead(rows: Table, batch: seq<nat>, world: World, j: nat)
    requires IsBatch(rows, batch) && j in PendingTrades(rows) && j !in batch
    ensures
      var (stuck, rest) := (StuckAhead(rows, world, j), SettlableAhead(rows, world, j));
      |rest - Settled(batch, world)| + BATCH_LIMIT <= |rest| + |stuck|
  {
    var (stuck, rest, chosen) := (StuckAhead(rows, world, j), SettlableAhead(rows, world, j), Members(batch));
    DistinctSize(batch);
    FullBatch(rows, batch, j);
    assert chosen <= stuck + rest;
    assert chosen == (chosen * stuck) + (chosen * rest) by {
      assert chosen * stuck !! chosen * rest;
    }
    SubsetSize(chosen * stuck, stuck);
    SubsetSize(chosen * rest, rest);
    assert rest - Settled(batch, world) == rest - chosen * rest;
  }

  lemma FullBatch(rows: Table, batch: seq<nat>, j: nat)
    requires IsBatch(rows, batch) && j in PendingTrades(rows) && j !in batch
    ensures |batch| == BATCH_LIMIT
  {
    DistinctSize(batch);
    SubsetSize(Members(batch), PendingTrades(rows));
    SubsetSize({j}, PendingTrades(rows) - Members(batch));
  }

  /** With u < 25 stuck trades ahead of it, j is settled once (25 - u) * passes covers the others and itself. */
  lemma {:induction false} SettledInTime(rows: Table, batches: seq<seq<nat>>, world: World, j: nat)
    requires Answered(rows, batches, world) && j in PendingTrades(rows) && Final(world, j)
    requires |StuckAhead(rows, world, j)| < 25
    requires (25 - |StuckAhead(rows, world, j)|) * |batches| >= |SettlableAhead(rows, world, j)|
    ensures j !in PendingTrades(Passes(rows, batches, world))
    decreases |batches|
  {
    hide PendingTrades, Stuck, StuckAhead, SettlableAhead, IsBatch, ReconcileRows;
    AheadOfItself(rows, world, j);
    var (stuck, rest) := (StuckAhead(rows, world, j), SettlableAhead(rows, world, j));
    SubsetSize({j}, rest);
    SomePass(BATCH_LIMIT - |stuck|, |batches|, |rest|);
    var (batch, rows') := (batches[0], ReconcileRows(rows, batches[0], world));
    if j in Settled(batch, world) {
      PassDrains(rows, batch, world);
      StaysSettled(rows', batches[1..], world, j);
    } else {
      BatchAhead(rows, batch, world, j);
      AheadAfterPass(rows, batch, world, j);
      OnePassLess(BATCH_LIMIT - |stuck|, |batches| - 1, |rest|, |rest - Settled(batch, world)|);
      SettledInTime(rows', batches[1..], world, j);
    }
  }

  lemma SomePass(size: nat, passes: nat, count: nat)
    requires size * passes >= count >= 1
    ensures passes >= 1
  {
  }

  lemma AheadOfItself(rows: Table, world: World, j: nat)
    requires j in PendingTrades(rows) && Final(world, j)
    ensures j < |rows| && j in SettlableAhead(rows, world, j)
  {
  }

  lemma {:induction false} StaysSettled(rows: Table, batches: seq<seq<nat>>, world: World, j: nat)
    requires Answered(rows, batches, world) && j !in PendingTrades(rows)
    ensures j !in PendingTrades(Passes(rows, batches, world))
    decreases |batches|
  {
    if batches != [] {
      PassDrains(rows, batches[0], world);
      StaysSettled(ReconcileRows(rows, batches[0], world), batches[1..], world, j);
    }
  }

  lemma OnePassLess(size: nat, passes: nat, before: nat, after: nat)
    requires size * (passes + 1) >= before && (after == 0 || after + size <= before)
    ensures size * passes >= after
  {
    OneMore(size, passes);
  }

  lemma OneMore(size: nat, passes: nat)
    ensures size * (passes + 1) == size * passes + size && size * passes >= 0
  {
  }

  // ----- Passed over -----

  /** With 25 pending trades beside j and no younger, there is an answer to the query without j. */
  lemma BatchWithout(rows: Table, j: nat, ahead: set<nat>) returns (batch: seq<nat>)
    requires j in PendingTrades(rows) && ahead <= PendingTrades(rows) - {j} && |ahead| >= BATCH_LIMIT
    requires forall i :: i in ahead ==> rows[i].executedAt <= rows[j].executedAt
    ensures IsBatch(rows, batch) && j !in batch
  {
    var others := PendingTrades(rows) - {j};
    batch := SomeBatch(rows, others, BATCH_LIMIT, j);
    DistinctSize(batch);
    SubsetSize(ahead, others);
    SubsetSize({j}, PendingTrades(rows));
    forall k | 0 <= k < |batch| ensures rows[batch[k]].executedAt <= rows[j].executedAt {
      if rows[batch[k]].executedAt > rows[j].executedAt {
        assert forall i :: i in ahead ==> i in batch;
        assert ahead <= Members(batch) - {batch[k]};
        SubsetSize(ahead, Members(batch) - {batch[k]});
      }
    }
  }

  /** With 25 stuck trades no younger than j, any number of passes can go by without j. */
  lemma {:induction false} PassedOver(rows: Table, world: World, j: nat, passes: nat) returns (batches: seq<seq<nat>>)
    requires j in PendingTrades(rows) && Final(world, j) && |StuckAhead(rows, world, j)| >= BATCH_LIMIT
    ensures |batches| == passes && Answered(rows, batches, world)
    ensures j in PendingTrades(Passes(rows, batches, world))
    decreases passes
  {
    hide PendingTrades, Stuck, StuckAhead, SettlableAhead, IsBatch, ReconcileRows;
    batches := [];
    if passes > 0 {
      AheadIsPending(rows, world, j);
      var batch := BatchWithout(rows, j, StuckAhead(rows, world, j));
      AheadAfterPass(rows, batch, world, j);
      var rest := PassedOver(ReconcileRows(rows, batch, world), world, j, passes - 1);
      batches := [batch] + rest;
      assert batches[1..] == rest;
    }
  }

  lemma AheadIsPending(rows: Table, world: World, j: nat)
    requires j in PendingTrades(rows) && Final(world, j)
    ensures j < |rows| && StuckAhead(rows, world, j) <= PendingTrades(rows) - {j}
    ensures forall i :: i in StuckAhead(rows, world, j) ==> i < |rows| && rows[i].executedAt <= rows[j].executedAt
  {
  }

  /** Trade j is settled by every sequence of at least so many passes, however the query breaks ties. */
  ghost predicate SettledWithin(rows: Table, world: World, j: nat, passes: nat) {
    forall batches :: Answered(rows, batches, world) && |batches| >= passes ==>
      j !in PendingTrades(Passes(rows, batches, world))
  }

  /** A trade with a final receipt is settled in the end exactly when fewer than 25 stuck trades are no younger. */
  lemma {:induction false} SettledIff(rows: Table, world: World, j: nat)
    requires j in PendingTrades(rows) && Final(world, j)
    ensures (exists passes :: SettledWithin(rows, world, j, passes)) <==> |StuckAhead(rows, world, j)| < 25
  {
    hide PendingTrades, StuckAhead, SettlableAhead, Answered, Passes;
    AheadOfItself(rows, world, j);
    var (stuck, rest) := (|StuckAhead(rows, world, j)|, |SettlableAhead(rows, world, j)|);
    if stuck < BATCH_LIMIT {
      forall batches | Answered(rows, batches, world) && |batches| >= rest
        ensures j !in PendingTrades(Passes(rows, batches, world))
      {
        AtLeastOneEach(BATCH_LIMIT - stuck, |batches|, rest);
        SettledInTime(rows, batches, world, j);
      }
      assert SettledWithin(rows, world, j, rest);
    } else {
      forall passes ensures !SettledWithin(rows, world, j, passes) {
        var batches := PassedOver(rows, world, j, passes);
      }
    }
  }

  lemma AtLeastOneEach(size: nat, passes: nat, count: nat)
    requires size >= 1 && passes >= count
    ensures size * passes >= count
  {
  }

  // ----- All trades -----

  /**
    Drain: with fewer than 25 stuck trades, every other pending trade is settled once
    (25 - stuck) * passes covers their number; with none stuck, ceil(n / 25) passes settle all n.
   */
  lemma {:induction false} Drain(rows: Table, batches: seq<seq<nat>>, world: World)
    requires Answered(rows, batches, world)
    requires |Stuck(rows, world)| < 25
    requires (25 - |Stuck(rows, world)|) * |batches| >= |PendingTrades(rows) - Stuck(rows, world)|
    ensures PendingTrades(Passes(rows, batches, world)) == Stuck(rows, world)
  {
    hide Answered, Passes;
    forall j | j in PendingTrades(rows) - Stuck(rows, world) ensures j !in PendingTrades(Passes(rows, batches, world)) {
      AheadIsFewer(rows, world, j);
      Relaxed(|Stuck(rows, world)|, |StuckAhead(rows, world, j)|, |batches|,
              |PendingTrades(rows) - Stuck(rows, world)|, |SettlableAhead(rows, world, j)|);
      SettledInTime(rows, batches, world, j);
    }
    OnlyStuckRemain(rows, batches, world);
  }

  lemma AheadIsFewer(rows: Table, world: World, j: nat)
    requires j < |rows|
    ensures |StuckAhead(rows, world, j)| <= |Stuck(rows, world)|
    ensures |SettlableAhead(rows, world, j)| <= |PendingTrades(rows) - Stuck(rows, world)|
  {
    SubsetSize(StuckAhead(rows, world, j), Stuck(rows, world));
    SubsetSize(SettlableAhead(rows, world, j), PendingTrades(rows) - Stuck(rows, world));
  }

  lemma Relaxed(u: nat, u': nat, passes: nat, n: nat, n': nat)
    requires u' <= u < BATCH_LIMIT && n' <= n && (BATCH_LIMIT - u) * passes >= n
    ensures (BATCH_LIMIT - u') * passes >= n'
  {
    assert (BATCH_LIMIT - u') * passes == (BATCH_LIMIT - u) * passes + (u - u') * passes;
  }

  /** No sequence of passes adds a pending trade or settles a stuck one. */
  lemma {:induction false} OnlyStuckRemain(rows: Table, batches: seq<seq<nat>>, world: World)
    requires Answered(rows, batches, world)
    ensures Stuck(rows, world) <= PendingTrades(Passes(rows, batches, world)) <= PendingTrades(rows)
    decreases |batches|
  {
    if batches != [] {
      PassDrains(rows, batches[0], world);
      StuckStays(rows, batches[0], world);
      OnlyStuckRemain(ReconcileRows(rows, batches[0], world), batches[1..], world);
    }
  }

  /** Of the trades that come strictly before j in every answer, 25 are stuck. */
  ghost predicate Barred(rows: Table, world: World, j: nat)
    requires j < |rows|
  {
    |StuckBefore(rows, world, j)| >= 25
  }

  ghost function StuckBefore(rows: Table, world: World, j: nat): set<nat>
    requires j < |rows|
  {
    set i | i in Stuck(rows, world) && rows[i].executedAt < rows[j].executedAt
  }

  /** An answer to the query that holds j holds every pending trade strictly older. */
  lemma BatchHasOlder(rows: Table, batch: seq<nat>, j: nat)
    requires IsBatch(rows, batch) && j in batch
    ensures j < |rows| && forall i :: i in PendingTrades(rows) && rows[i].executedAt < rows[j].executedAt ==> i in batch
  {
    var k :| 0 <= k < |batch| && batch[k] == j;
    forall i | i in PendingTrades(rows) && i !in batch ensures rows[j].executedAt <= rows[i].executedAt {
      assert rows[batch[k]].executedAt <= rows[i].executedAt;
    }
  }

  /** So no answer holds a trade that is barred. */
  lemma BarredIsLeftOut(rows: Table, batch: seq<nat>, world: World, j: nat)
    requires IsBatch(rows, batch) && j < |rows| && Barred(rows, world, j)
    ensures j !in batch
  {
    if j in batch {
      DistinctSize(batch);
      BatchHasOlder(rows, batch, j);
      SubsetSize(StuckBefore(rows, world, j), Members(batch) - {j});
    }
  }

  /** Starvation: with 25 stuck trades strictly older, no sequence of passes ever touches j. */
  lemma {:induction false} NeverSettled(rows: Table, batches: seq<seq<nat>>, world: World, j: nat)
    requires Answered(rows, batches, world) && j in PendingTrades(rows) && Barred(rows, world, j)
    ensures j in PendingTrades(Passes(rows, batches, world))
    decreases |batches|
  {
    if batches != [] {
      hide PendingTrades, Stuck, StuckBefore, IsBatch, ReconcileRows;
      BarredIsLeftOut(rows, batches[0], world, j);
      BarredAfterPass(rows, batches[0], world, j);
      NeverSettled(ReconcileRows(rows, batches[0], world), batches[1..], world, j);
    }
  }

  lemma BarredAfterPass(rows: Table, batch: seq<nat>, world: World, j: nat)
    requires IsBatch(rows, batch) && j in PendingTrades(rows) && j !in batch
    ensures
      var rows' := ReconcileRows(rows, batch, world);
      j < |rows| && j in PendingTrades(rows') && StuckBefore(rows', world, j) == StuckBefore(rows, world, j)
  {
    PassEffect(rows, batch, world);
    PassDrains(rows, batch, world);
    StuckStays(rows, batch, world);
  }

  /** With every trade that is not stuck barred, no sequence of passes changes anything. */
  lemma {:induction false} Starvation(rows: Table, batches: seq<seq<nat>>, world: World)
    requires Answered(rows, batches, world)
    requires forall j :: j in PendingTrades(rows) - Stuck(rows, world) ==> Barred(rows, world, j)
    ensures Passes(rows, batches, world) == rows
    decreases |batches|
  {
    if batches != [] {
      forall j | j in PendingTrades(rows) - Stuck(rows, world) ensures j !in batches[0] {
        BarredIsLeftOut(rows, batches[0], world, j);
      }
      PassEffect(rows, batches[0], world);
      assert Settled(batches[0], world) == {};
      assert ReconcileRows(rows, batches[0], world) == rows;
      Starvation(rows, batches[1..], world);
    }
  }

  ghost function PendingBefore(rows: Table, j: nat): set<nat>
    requires j < |rows|
  {
    set i | i in PendingTrades(rows) && rows[i].executedAt < rows[j].executedAt
  }

  /** With fewer than 25 pending trades strictly older, there is an answer to the query with j. */
  lemma BatchWith(rows: Table, j: nat) returns (batch: seq<nat>)
    requires j in PendingTrades(rows) && |PendingBefore(rows, j)| < BATCH_LIMIT
    ensures IsBatch(rows, batch) && j in batch
  {
    batch := SomeBatch(rows, PendingTrades(rows), BATCH_LIMIT, j);
    assert OlderThan(rows, PendingTrades(rows), j) == PendingBefore(rows, j);
  }

  /** Some sequence of passes settles j exactly when it is not barred. */
  lemma {:induction false} SettledBySomeIff(rows: Table, world: World, j: nat)
    requires j in PendingTrades(rows) && Final(world, j)
    ensures (exists batches :: Answered(rows, batches, world) && j !in PendingTrades(Passes(rows, batches, world))) <==>
            !Barred(rows, world, j)
  {
    if Barred(rows, world, j) {
      forall batches | Answered(rows, batches, world) ensures j in PendingTrades(Passes(rows, batches, world)) {
        NeverSettled(rows, batches, world, j);
      }
    } else {
      var batches := Reached(rows, world, j);
    }
  }

  lemma {:induction false} Reached(rows: Table, world: World, j: nat) returns (batches: seq<seq<nat>>)
    requires j in PendingTrades(rows) && Final(world, j) && !Barred(rows, world, j)
    ensures Answered(rows, batches, world) && j !in PendingTrades(Passes(rows, batches, world))
    decreases |PendingBefore(rows, j)|
  {
    if |PendingBefore(rows, j)| < BATCH_LIMIT {
      var batch := BatchWith(rows, j);
      PassDrains(rows, batch, world);
      batches := [batch];
      assert batches[1..] == [];
    } else {
      var batch := SomeBatch(rows, PendingTrades(rows), BATCH_LIMIT, j);
      var rows' := ReconcileRows(rows, batch, world);
      OlderFillBatch(rows, batch, j);
      OlderSettle(rows, batch, world, j);
      BarredAfterPass(rows, batch, world, j);
      var rest := Reached(rows', world, j);
      batches := [batch] + rest;
      assert batches[1..] == rest;
    }
  }

  /** With 25 pending trades strictly older than j, an answer holds only such. */
  lemma OlderFillBatch(rows: Table, batch: seq<nat>, j: nat)
    requires IsBatch(rows, batch) && j in PendingTrades(rows) && |PendingBefore(rows, j)| >= BATCH_LIMIT
    ensures Members(batch) <= PendingBefore(rows, j) && |Members(batch)| == BATCH_LIMIT
  {
    var before := PendingBefore(rows, j);
    DistinctSize(batch);
    SubsetSize(before, PendingTrades(rows));
    forall i | i in batch ensures i in before {
      if i !in before {
        OnlyOlder(rows, batch, before, i);
      }
    }
  }

  lemma OnlyOlder(rows: Table, batch: seq<nat>, before: set<nat>, i: nat)
    requires IsBatch(rows, batch) && i in batch && i !in before && before <= PendingTrades(rows)
    requires i < |rows| && forall b :: b in before ==> b < |rows| && rows[b].executedAt < rows[i].executedAt
    ensures |before| < BATCH_LIMIT
  {
    BatchHasOlder(rows, batch, i);
    DistinctSize(batch);
    SubsetSize(before, Members(batch) - {i});
  }

  /** Not all of them are stuck, so fewer are left. */
  lemma OlderSettle(rows: Table, batch: seq<nat>, world: World, j: nat)
    requires IsBatch(rows, batch) && j in PendingTrades(rows) && !Barred(rows, world, j)
    requires Members(batch) <= PendingBefore(rows, j) && |Members(batch)| == BATCH_LIMIT
    ensures
      var rows' := ReconcileRows(rows, batch, world);
      j !in batch && j < |rows'| && |PendingBefore(rows', j)| < |PendingBefore(rows, j)|
  {
    hide IsBatch, PendingBefore, StuckBefore, Settled, Members, ReconcileRows;
    var (before, stuck, chosen) := (PendingBefore(rows, j), StuckBefore(rows, world, j), Members(batch));
    NotAhead(rows, batch, j);
    OlderAfterPass(rows, batch, world, j);
    ChosenSettle(rows, batch, world, j);
    SomeLeave(before, stuck, chosen, Settled(batch, world));
  }

  lemma NotAhead(rows: Table, batch: seq<nat>, j: nat)
    requires j < |rows| && Members(batch) <= PendingBefore(rows, j)
    ensures j !in batch
  {
    assert j !in Members(batch);
  }

  lemma ChosenSettle(rows: Table, batch: seq<nat>, world: World, j: nat)
    requires j < |rows| && Members(batch) <= PendingBefore(rows, j)
    ensures Members(batch) - StuckBefore(rows, world, j) <= Settled(batch, world)
  {
  }

  lemma SomeLeave(before: set<nat>, stuck: set<nat>, chosen: set<nat>, settled: set<nat>)
    requires chosen <= before && |chosen| > |stuck| && chosen - stuck <= settled
    ensures |before - settled| < |before|
  {
    if chosen <= stuck {
      SubsetSize(chosen, stuck);
    }
    var one :| one in chosen && one !in stuck;
    SubsetSize({one}, before * settled);
    SubsetSize(before * settled, before);
    assert before - settled == before - before * settled;
  }

  lemma OlderAfterPass(rows: Table, batch: seq<nat>, world: World, j: nat)
    requires IsBatch(rows, batch) && j in PendingTrades(rows) && j !in batch
    ensures
      var rows' := ReconcileRows(rows, batch, world);
      j < |rows'| && PendingBefore(rows', j) == PendingBefore(rows, j) - Settled(batch, world)
  {
    PassEffect(rows, batch, world);
    PassDrains(rows, batch, world);
  }

  /** The query always has an answer, so none of these results speaks of nothing. */
  lemma BatchExists(rows: Table)
    ensures exists batch :: IsBatch(rows, batch)
  {
    var batch := SomeBatch(rows, PendingTrades(rows), BATCH_LIMIT, 0);
    assert IsBatch(rows, batch);
  }

  ghost function OlderThan(rows: Table, pending: set<nat>, j: nat): set<nat>
    requires j < |rows| && forall i :: i in pending ==> i < |rows|
  {
    set i | i in pending && rows[i].executedAt < rows[j].executedAt
  }

  /** The oldest trades, up to a limit; among equally old ones the favourite comes first. */
  lemma {:induction false} SomeBatch(rows: Table, pending: set<nat>, limit: nat, favourite: nat)
    returns (batch: seq<nat>)
    requires forall i :: i in pending ==> i < |rows|
    ensures forall i :: 0 <= i < |batch| ==> batch[i] in pending
    ensures Ordered(rows, batch)
    ensures |batch| == if |pending| < limit then |pending| else limit
    ensures forall i, other :: 0 <= i < |batch| && other in pending && other !in batch ==>
              rows[batch[i]].executedAt <= rows[other].executedAt
    ensures favourite in pending && |OlderThan(rows, pending, favourite)| < limit ==> favourite in batch
    decreases limit
  {
    if limit == 0 || pending == {} {
      batch := [];
    } else {
      var first := Oldest(rows, pending, favourite);
      var rest := SomeBatch(rows, pending - {first}, limit - 1, favourite);
      batch := [first] + rest;
      if favourite in pending - {first} {
        assert OlderThan(rows, pending - {first}, favourite) == OlderThan(rows, pending, favourite) - {first};
      }
    }
  }

  lemma {:induction false} Oldest(rows: Table, pending: set<nat>, favourite: nat) returns (first: nat)
    requires pending != {} && forall i :: i in pending ==> i < |rows|
    ensures first in pending && forall i :: i in pending ==> rows[first].executedAt <= rows[i].executedAt
    ensures favourite in pending && first != favourite ==> rows[first].executedAt < rows[favourite].executedAt
  {
    first :| first in pending && (favourite in pending ==> first == favourite);
    if pending != {first} {
      var other := Oldest(rows, pending - {first}, favourite);
      if rows[other].executedAt < rows[first].executedAt {
        first := other;
      }
    }
  }
}
