/** What stops between the INSERT of a trade and the UPDATE of its session cost, exactly. */
module LostCredits {
  import opened Wrappers
  import opened TradeTable
  import opened TradeProtocol
  import opened Sums
  import opened LedgerSafety
  import opened OversellSafety
  import opened ReachableRuns
  import opened OversellExact
  import U256

  ghost function OrphanedSell(session: string): Handler -> nat {
    (h: Handler) => if h.key.session == session && h.phase.Orphaned? then h.phase.sell else 0
  }

  /**
    The total, k - 1 sells more for k handlers at once, and one for each credit lost; where k handlers can
    sell past 256 bits, all that the column holds, and k sells and those lost beside it.
   */
  function RecordedLimit(s: State, session: string, k: nat, lost: nat): nat
    requires PartSold(s, session) && k >= 1
  {
    var (total, sold) := (s.sessions[session].total, s.sessions[session].sold);
    if Reaching(total, sold, k) < U256.TWO_256 then total + (k - 1 + lost) * Cap(total, sold)
    else NUMERIC_LIMIT - 1 + (k + lost) * Cap(total, 0)
  }

  /** The largest sell of any run. */
  function CapOf(s: State, session: string, k: nat): nat
    requires PartSold(s, session) && k >= 1
  {
    var (total, sold) := (s.sessions[session].total, s.sessions[session].sold);
    if Reaching(total, sold, k) < U256.TWO_256 then Cap(total, sold) else Cap(total, 0)
  }

  lemma LimitGrows(s: State, session: string, k: nat, lost: nat)
    requires PartSold(s, session) && k >= 1
    ensures RecordedLimit(s, session, k, lost) == RecordedLimit(s, session, k, 0) + CapOf(s, session, k) * lost
  {
    var (total, sold) := (s.sessions[session].total, s.sessions[session].sold);
    Spread(k - 1, lost, Cap(total, sold));
    Spread(k, lost, Cap(total, 0));
    Spread(k - 1, 0, Cap(total, sold));
    Spread(k, 0, Cap(total, 0));
  }

  /** Recorded sells exceed what k handlers can sell by no more than the sells whose credit was lost. */
  lemma RecordedWithin(s: State, steps: seq<Step>, session: string, k: nat)
    requires Balanced(s) && PartSold(s, session) && k >= 1
    requires Run(s, steps, AtMost(session, k)).Some?
    ensures
      var s' := Run(s, steps, AtMost(session, k)).value;
      && Sum(SellOf(session), s'.rows) <= RecordedLimit(s, session, k, 0) + Sum(OrphanedSell(session), s'.handlers)
      && Sum(SellOf(session), s'.rows) <= RecordedLimit(s, session, k, Sum(OrphanCount(session), s'.handlers))
  {
    hide Run, Sum, Balanced, Cap, SnapshotsFit;
    var s' := Run(s, steps, AtMost(session, k)).value;
    Conservation(s, steps, AtMost(session, k), session);
    AllowedWithin(s, steps, session, k);
    UncreditedWithin(s', session, CapOf(s, session, k));
    LimitGrows(s, session, k, Sum(OrphanCount(session), s'.handlers));
  }

  /** What is sold or still allowed is within the limit without losses. */
  lemma AllowedWithin(s: State, steps: seq<Step>, session: string, k: nat)
    requires Balanced(s) && PartSold(s, session) && k >= 1
    requires Run(s, steps, AtMost(session, k)).Some?
    ensures
      var s' := Run(s, steps, AtMost(session, k)).value;
      && SnapshotsFit(s', session, CapOf(s, session, k))
      && s'.sessions[session].sold + Sum(AllowanceOn(session), s'.handlers) <= RecordedLimit(s, session, k, 0)
  {
    hide Run, Sum, Balanced, Cap;
    var (total, sold) := (s.sessions[session].total, s.sessions[session].sold);
    var s' := Run(s, steps, AtMost(session, k)).value;
    if Reaching(total, sold, k) < U256.TWO_256 {
      RunBounded(s, steps, session, k);
    } else {
      RunCapped(s, steps, session, k);
      KeptAtEnd(s, steps, AtMost(session, k));
      OffersBound(s', session, Cap(total, 0));
      TimesMonotone(Sum(InFlight(session), s'.handlers), k, Cap(total, 0));
    }
  }

  /** What is not credited is still allowed, or lost. */
  lemma UncreditedWithin(s: State, session: string, cap: nat)
    requires SnapshotsFit(s, session, cap)
    ensures Sum(Uncredited(session), s.handlers)
         <= Sum(AllowanceOn(session), s.handlers) + Sum(OrphanedSell(session), s.handlers)
    ensures Sum(OrphanedSell(session), s.handlers) <= cap * Sum(OrphanCount(session), s.handlers)
  {
    SumSplit(Uncredited(session), AllowanceOn(session), OrphanedSell(session), s.handlers);
    forall h | h in s.handlers ensures OrphanedSell(session)(h) <= cap * OrphanCount(session)(h) {
      assert h.key.session == session ==> Offer(h.phase) <= cap;
    }
    SumScaled(OrphanedSell(session), OrphanCount(session), cap, s.handlers);
  }

  lemma Spread(a: nat, b: nat, cap: nat)
    ensures (a + b) * cap == a * cap + cap * b
  {
  }

  lemma {:induction false} ForgoMany(start: State, k: nat, s: State, r: Rest, sell: nat, count: nat) returns (t: State)
    requires Reach(start, r.session, k, s) && Idle(s, r) && k >= 1
    requires 1 <= sell <= MAX_SELL && sell <= Remaining(r.total, r.sold)
    ensures Reach(start, r.session, k, t)
    ensures Idle(t, r.(orphans := r.orphans + count, uncredited := Piled(r.uncredited, count, sell)))
    decreases count
  {
    hide Reach, Idle, Remaining;
    t := s;
    if count > 0 {
      OneMoreSell(count - 1, sell);
      t := Forgo(start, k, s, r, sell);
      t := ForgoMany(start, k, t, r.(orphans := r.orphans + 1, uncredited := r.uncredited + sell), sell, count - 1);
    }
  }

  /** The limit is reached: the largest sell is recorded and lost again and again, then the session is sold out. */
  lemma LimitIsRecorded(s: State, session: string, k: nat, lost: nat) returns (t: State)
    requires Balanced(s) && PartSold(s, session) && k >= 1
    requires Reaching(s.sessions[session].total, s.sessions[session].sold, k) < U256.TWO_256
    ensures Reach(s, session, k, t) && Sum(OrphanCount(session), t.handlers) <= lost
    ensures Sum(SellOf(session), t.rows) == RecordedLimit(s, session, k, lost)
  {
    hide Reach, Idle, Balanced, Remaining;
    var r := Fresh(s, session);
    var cap := Cap(r.total, r.sold);
    t := Started(s, session, k);
    if r.sold == r.total {
      IdleMeans(t, r);
      RecordedAtRest(s, session, k, t, r);
      assert (k - 1 + lost) * 0 == 0;
    } else {
      assert Remaining(r.total, r.sold) == r.total - r.sold by { GateOpens(r.total, r.sold); }
      t := ForgoMany(s, k, t, r, cap, lost);
      var r1 := r.(orphans := lost, uncredited := lost * cap);
      t := Climb(s, k, t, r1, r.total - cap);
      var r2 := r1.(sold := r.total - cap, quiet := r1.quiet && (r1.sold == r.total - cap || cap > 0));
      GateOpens(r.total, r.total - cap);
      OneMoreSell(k - 1, cap);
      t := Burst(s, k, t, r2, k, cap);
      RecordedAtRest(s, session, k, t, Risen(r2, k, cap));
      Spread(k - 1, lost, cap);
    }
  }

  /** Past 256 bits the column is filled first, and k sells more are recorded last. */
  lemma ColumnIsRecorded(s: State, session: string, k: nat, lost: nat) returns (t: State)
    requires Balanced(s) && PartSold(s, session) && k >= 1
    requires Reaching(s.sessions[session].total, s.sessions[session].sold, k) >= U256.TWO_256
    ensures Reach(s, session, k, t) && Sum(OrphanCount(session), t.handlers) <= lost
    ensures Sum(SellOf(session), t.rows) == RecordedLimit(s, session, k, lost)
  {
    hide Reach, Idle, Balanced, Remaining;
    t := ColumnIsFilled(s, session, k);
    var full := Fresh(s, session).(sold := NUMERIC_LIMIT - 1, quiet := false);
    var cap := Cap(full.total, 0);
    t := ForgoMany(s, k, t, full, cap, lost);
    t := RecordTogether(s, k, t, full.(orphans := lost, uncredited := lost * cap), cap);
    RecordedBy(s, session, k, t);
    Spread(k, lost, cap);
  }

  lemma RecordedBy(s: State, session: string, k: nat, t: State)
    requires Balanced(s) && session in s.sessions && Reach(s, session, k, t)
    ensures session in t.sessions
    ensures Sum(SellOf(session), t.rows) == t.sessions[session].sold + Sum(Uncredited(session), t.handlers)
  {
    var steps :| Run(s, steps, AtMost(session, k)) == Some(t);
    Conservation(s, steps, AtMost(session, k), session);
  }

  lemma GateOpens(total: U256.Word, sold: nat)
    requires sold <= total
    ensures Remaining(total, sold) == total - sold
  {
  }

  lemma RecordedAtRest(s: State, session: string, k: nat, t: State, r: Rest)
    requires Balanced(s) && session in s.sessions && Reach(s, session, k, t) && Idle(t, r) && r.session == session
    ensures Sum(SellOf(session), t.rows) == r.sold + r.uncredited && Sum(OrphanCount(session), t.handlers) == r.orphans
  {
    RecordedBy(s, session, k, t);
    IdleMeans(t, r);
  }

  /** The amount bounds the recorded sells in every run with at most k handlers in flight and `lost` credits lost. */
  ghost predicate BoundsRecorded(s: State, session: string, k: nat, lost: nat, bound: int) {
    forall t :: Reach(s, session, k, t) && Sum(OrphanCount(session), t.handlers) <= lost ==>
      Sum(SellOf(session), t.rows) <= bound
  }

  lemma {:induction false} RecordedIsExact(s: State, session: string, k: nat, lost: nat, bound: int)
    requires Balanced(s) && PartSold(s, session) && k >= 1
    ensures BoundsRecorded(s, session, k, lost, bound) <==> RecordedLimit(s, session, k, lost) <= bound
  {
    hide Reach, Sum, Balanced, RecordedLimit;
    forall t | Reach(s, session, k, t) && Sum(OrphanCount(session), t.handlers) <= lost
      ensures Sum(SellOf(session), t.rows) <= RecordedLimit(s, session, k, lost)
    {
      RecordedUpTo(s, t, session, k, lost);
    }
    if Reaching(s.sessions[session].total, s.sessions[session].sold, k) < U256.TWO_256 {
      var t := LimitIsRecorded(s, session, k, lost);
    } else {
      var t := ColumnIsRecorded(s, session, k, lost);
    }
  }

  lemma RecordedUpTo(s: State, t: State, session: string, k: nat, lost: nat)
    requires Balanced(s) && PartSold(s, session) && k >= 1
    requires Reach(s, session, k, t) && Sum(OrphanCount(session), t.handlers) <= lost
    ensures Sum(SellOf(session), t.rows) <= RecordedLimit(s, session, k, lost)
  {
    hide Run, Sum, Balanced;
    var steps :| Run(s, steps, AtMost(session, k)) == Some(t);
    RecordedWithin(s, steps, session, k);
    LimitGrows(s, session, k, Sum(OrphanCount(session), t.handlers));
    LimitGrows(s, session, k, lost);
    TimesMonotone(Sum(OrphanCount(session), t.handlers), lost, CapOf(s, session, k));
  }

  /** One handler at a time records no more than the total exactly when no credit is lost, or nothing was left. */
  lemma {:induction false} RecordedWithinTotalIff(s: State, session: string, lost: nat)
    requires Balanced(s) && PartSold(s, session)
    ensures BoundsRecorded(s, session, 1, lost, s.sessions[session].total) <==>
            lost == 0 || s.sessions[session].sold == s.sessions[session].total
  {
    hide BoundsRecorded, Balanced;
    RecordedIsExact(s, session, 1, lost, s.sessions[session].total);
    var cap := Cap(s.sessions[session].total, s.sessions[session].sold);
    assert lost * cap == 0 <==> lost == 0 || cap == 0;
  }
}
