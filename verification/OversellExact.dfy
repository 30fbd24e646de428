/** The oversell bounds are exact: runs that reach them, for every session and every number of handlers. */
module OversellExact {
  import opened Wrappers
  import opened TradeTable
  import opened TradeProtocol
  import opened Sums
  import opened OversellSafety
  import opened ReachableRuns
  import U256

  ghost function SoldAndPending(s: State, session: string): int
    requires session in s.sessions
  {
    s.sessions[session].sold + Sum(PendingSell(session), s.handlers)
  }

  /** The amount bounds what the session has sold and pending, in every state of every run. */
  ghost predicate BoundsAll(s: State, session: string, k: nat, bound: int) {
    forall t :: Reach(s, session, k, t) ==> session in t.sessions && SoldAndPending(t, session) <= bound
  }

  /** An amount from zero up to the total, in 256 bits, is sold already. */
  predicate PartSold(s: State, session: string) {
    session in s.sessions && 0 <= s.sessions[session].sold <= s.sessions[session].total < U256.TWO_256
  }

  function MostOf(s: State, session: string, k: nat): nat
    requires PartSold(s, session) && k >= 1
  {
    Most(s.sessions[session].total, s.sessions[session].sold, k)
  }

  lemma MostBounds(s: State, session: string, k: nat)
    requires Balanced(s) && PartSold(s, session) && k >= 1
    ensures BoundsAll(s, session, k, MostOf(s, session, k))
  {
    forall t | Reach(s, session, k, t)
      ensures session in t.sessions && SoldAndPending(t, session) <= MostOf(s, session, k)
    {
      var steps :| Run(s, steps, AtMost(session, k)) == Some(t);
      if Reaching(s.sessions[session].total, s.sessions[session].sold, k) < U256.TWO_256 {
        OversellBound(s, steps, session, k);
      } else {
        ColumnBound(s, steps, session, k);
      }
    }
  }

  /** Every handler but one beyond what is left: they take their snapshots when one sell is left, and all record it. */
  lemma BoundIsPending(s: State, session: string, k: nat) returns (t: State)
    requires Balanced(s) && PartSold(s, session) && k >= 1
    ensures Reach(s, session, k, t) && session in t.sessions
    ensures
      var (total, sold) := (s.sessions[session].total, s.sessions[session].sold);
      SoldAndPending(t, session) == Reaching(total, sold, k)
  {
    hide Reach, Idle, Balanced;
    var r := Fresh(s, session);
    var cap := Cap(r.total, r.sold);
    t := Started(s, session, k);
    if r.sold == r.total {
      IdleMeans(t, r);
      assert (k - 1) * 0 == 0;
    } else {
      t := Climb(s, k, t, r, r.total - cap);
      var r' := r.(sold := r.total - cap, quiet := r.quiet && (r.sold == r.total - cap || cap > 0));
      t := RecordTogether(s, k, t, r', cap);
      OneMoreSell(k - 1, cap);
    }
  }

  /** The fewest sells of one size that bring an amount to 2^256. */
  lemma EnoughToOverflow(sold: nat, sell: nat, count: nat) returns (least: nat)
    requires sold + count * sell >= U256.TWO_256 > sold && sell <= MAX_SELL
    ensures least <= count && U256.TWO_256 <= sold + least * sell < NUMERIC_LIMIT
  {
    least := count;
    while sold + least * sell >= U256.TWO_256 + sell
      invariant least <= count && sold + least * sell >= U256.TWO_256
      decreases least
    {
      OneMoreSell(least - 1, sell);
      least := least - 1;
    }
  }

  /** Where that does not fit 256 bits the amount sold passes them, and then grows to the limit of its column. */
  lemma ColumnIsFilled(s: State, session: string, k: nat) returns (t: State)
    requires Balanced(s) && PartSold(s, session) && k >= 1
    requires Reaching(s.sessions[session].total, s.sessions[session].sold, k) >= U256.TWO_256
    ensures Reach(s, session, k, t) && Idle(t, Fresh(s, session).(sold := NUMERIC_LIMIT - 1, quiet := false))
    ensures Remaining(s.sessions[session].total, NUMERIC_LIMIT - 1) == s.sessions[session].total > 0
  {
    hide Reach, Idle, Balanced;
    var r := Fresh(s, session);
    var cap := Cap(r.total, r.sold);
    SoldOutFits(r.total, k);
    assert r.sold < r.total;
    t := Started(s, session, k);
    t := Climb(s, k, t, r, r.total - cap);
    var r' := r.(sold := r.total - cap, quiet := r.quiet && (r.sold == r.total - cap || cap > 0));
    OneMoreSell(k - 1, cap);
    var count := EnoughToOverflow(r.total - cap, cap, k);
    t := Burst(s, k, t, r', count, cap);
    t := Runaway(s, k, t, Risen(r', count, cap), NUMERIC_LIMIT - 1);
  }

  /** And k sells more can be pending beside it. */
  lemma ColumnIsPending(s: State, session: string, k: nat) returns (t: State)
    requires Balanced(s) && PartSold(s, session) && k >= 1
    requires Reaching(s.sessions[session].total, s.sessions[session].sold, k) >= U256.TWO_256
    ensures Reach(s, session, k, t) && session in t.sessions
    ensures SoldAndPending(t, session) == NUMERIC_LIMIT - 1 + k * Cap(s.sessions[session].total, 0)
  {
    hide Reach, Idle, Balanced, Remaining;
    t := ColumnIsFilled(s, session, k);
    var full := Fresh(s, session).(sold := NUMERIC_LIMIT - 1, quiet := false);
    t := RecordTogether(s, k, t, full, Cap(full.total, 0));
  }

  lemma SoldOutFits(total: U256.Word, k: nat)
    requires k >= 1
    ensures Reaching(total, total, k) < U256.TWO_256
  {
    assert Cap(total, total) == 0;
    assert (k - 1) * 0 == 0;
  }

  /** What a session can have sold and pending at once, to the unit. */
  lemma {:induction false} MostIsExact(s: State, session: string, k: nat, bound: int)
    requires Balanced(s) && PartSold(s, session) && k >= 1
    ensures BoundsAll(s, session, k, bound) <==> MostOf(s, session, k) <= bound
  {
    hide Balanced, Reach;
    MostBounds(s, session, k);
    var (total, sold) := (s.sessions[session].total, s.sessions[session].sold);
    if Reaching(total, sold, k) < U256.TWO_256 {
      var t := BoundIsPending(s, session, k);
    } else {
      var t := ColumnIsPending(s, session, k);
    }
  }

  /**
    k handlers in flight never sell more than k totals exactly where the total and k - 1 sells more fit
    256 bits, or else the whole column and k sells more are within k totals.
   */
  lemma {:induction false} TimesTotalBoundsIff(s: State, session: string, k: nat)
    requires Balanced(s) && PartSold(s, session) && k >= 1
    ensures
      var (total, sold) := (s.sessions[session].total, s.sessions[session].sold);
      BoundsAll(s, session, k, k * total) <==>
      Reaching(total, sold, k) < U256.TWO_256 || NUMERIC_LIMIT - 1 + k * Cap(total, 0) <= k * total
  {
    hide BoundsAll, Balanced;
    var (total, sold) := (s.sessions[session].total, s.sessions[session].sold);
    MostIsExact(s, session, k, k * total);
    WithinTimesTotal(total, Cap(total, sold), k);
  }

  lemma WithinTimesTotal(total: nat, cap: nat, k: nat)
    requires cap <= total && k >= 1
    ensures total + (k - 1) * cap <= k * total
  {
    assert (k - 1) * cap <= (k - 1) * total;
    assert k * total == (k - 1) * total + total;
  }

  /** The amount sold itself reaches the total and k - 1 sells more exactly when the column can hold them. */
  lemma {:induction false} BoundIsSoldIff(s: State, session: string, k: nat)
    requires Balanced(s) && PartSold(s, session) && k >= 1
    ensures
      var most := Reaching(s.sessions[session].total, s.sessions[session].sold, k);
      (exists t :: Reach(s, session, k, t) && session in t.sessions && t.sessions[session].sold == most) <==>
      most < NUMERIC_LIMIT
  {
    var r := Fresh(s, session);
    var cap := Cap(r.total, r.sold);
    var most := Reaching(r.total, r.sold, k);
    if most < NUMERIC_LIMIT {
      var t := AllAreSold(s, session, k);
    }
    forall t | Reach(s, session, k, t) && session in t.sessions && t.sessions[session].sold == most
      ensures most < NUMERIC_LIMIT
    {
      var steps :| Run(s, steps, AtMost(session, k)) == Some(t);
      RunCapped(s, steps, session, k);
    }
  }

  lemma AllAreSold(s: State, session: string, k: nat) returns (t: State)
    requires Balanced(s) && PartSold(s, session) && k >= 1
    requires Reaching(s.sessions[session].total, s.sessions[session].sold, k) < NUMERIC_LIMIT
    ensures Reach(s, session, k, t) && session in t.sessions
    ensures t.sessions[session].sold == Reaching(s.sessions[session].total, s.sessions[session].sold, k)
  {
    hide Reach, Idle, Balanced;
    var r := Fresh(s, session);
    var cap := Cap(r.total, r.sold);
    t := Started(s, session, k);
    if r.sold == r.total {
      IdleMeans(t, r);
      assert (k - 1) * 0 == 0;
    } else {
      t := Climb(s, k, t, r, r.total - cap);
      var r' := r.(sold := r.total - cap, quiet := r.quiet && (r.sold == r.total - cap || cap > 0));
      OneMoreSell(k - 1, cap);
      t := Burst(s, k, t, r', k, cap);
      IdleMeans(t, Risen(r', k, cap));
    }
  }
}
