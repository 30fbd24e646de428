/** How much concurrent handlers can oversell a session. */
module OversellSafety {
  import opened Wrappers
  import opened TradeTable
  import opened TradeProtocol
  import opened Sums
  import opened LedgerSafety
  import U256

  // ----- The gate -----

  /**
    The gate keeps a session that sold its total shut exactly while the amount sold fits 256 bits:
    a larger amount is read as zero and offers the whole total again.
   */
  lemma SoldOutStaysShutIff(total: U256.Word, sold: int, buy: U256.Word, povBps: U256.Word)
    requires 0 < total <= sold
    ensures Gate(total, sold, buy, povBps) == None <==> sold < U256.TWO_256
    ensures sold >= U256.TWO_256 ==> Remaining(total, sold) == total
  {
  }

  /** The largest sell within the rate and within what is left; the product counts ten-thousandths. */
  predicate SizedBy(sell: nat, left: nat, product: nat) {
    && sell * 10_000 <= product && sell <= left
    && (sell == left || product < (sell + 1) * 10_000)
  }

  lemma SizedOnce(a: nat, b: nat, left: nat, product: nat)
    requires SizedBy(a, left, product) && SizedBy(b, left, product)
    ensures a == b
  {
  }

  /** What a snapshot leaves: nothing beyond the total, and everything once the amount sold is unreadable. */
  lemma RemainingIsLeft(total: U256.Word, sold: int)
    ensures 0 <= sold <= total ==> Remaining(total, sold) == total - sold
    ensures total < sold < U256.TWO_256 ==> Remaining(total, sold) == 0
    ensures sold < 0 || sold >= U256.TWO_256 ==> Remaining(total, sold) == total
  {
  }

  /**
    The sell is the rate's part of the buy, rounded down and no more than what is left, exactly while the
    product of buy and rate fits 256 bits or what is left is small enough all the same. The product wraps
    beyond that, and the sell is what the rest of it gives: never more than the rate.
   */
  lemma {:induction false} GateIsSized(total: int, sold: int, buy: U256.Word, povBps: U256.Word)
    ensures Gate(total, sold, buy, povBps) == None <==> Remaining(total, sold) == 0
    ensures Gate(total, sold, buy, povBps).Some? ==>
              var sell := Gate(total, sold, buy, povBps).value;
              && sell * 10_000 <= buy * povBps
              && (exists wraps: nat :: WrapsTo(sell, Remaining(total, sold), buy * povBps, wraps))
              && (SizedBy(sell, Remaining(total, sold), buy * povBps) <==>
                  buy * povBps < U256.TWO_256 || Remaining(total, sold) * 10_000 <= buy * povBps % U256.TWO_256)
  {
    var product := buy * povBps;
    var wraps := product / U256.TWO_256;
    var rest := product % U256.TWO_256;
    assert product == wraps * U256.TWO_256 + rest;
    var pov := PovSell(buy, povBps);
    assert pov * 10_000 <= rest < (pov + 1) * 10_000;
    if Gate(total, sold, buy, povBps).Some? {
      assert WrapsTo(Gate(total, sold, buy, povBps).value, Remaining(total, sold), product, wraps);
    }
  }

  /** The product passed 2^256 so many times, and what is left of it sizes the sell. */
  ghost predicate WrapsTo(sell: nat, left: nat, product: nat, wraps: nat) {
    && wraps * U256.TWO_256 <= product < (wraps + 1) * U256.TWO_256
    && SizedBy(sell, left, product - wraps * U256.TWO_256)
  }

  /** A sell never exceeds what the snapshot left, so adding it to the amount sold cannot wrap. */
  lemma GateBound(total: int, sold: int, buy: U256.Word, povBps: U256.Word)
    requires Gate(total, sold, buy, povBps).Some?
    ensures U256.FromNumeric(sold) + Gate(total, sold, buy, povBps).value <= U256.FromNumeric(total)
  {
  }

  /** The most that any buy and any rate can make one handler sell: the product wraps, the division does not. */
  const MAX_SELL: nat := U256.MAX / 10_000

  lemma PovSellBound(buy: U256.Word, povBps: U256.Word)
    ensures PovSell(buy, povBps) <= MAX_SELL
  {
    assert U256.WrappingMul(buy, povBps) <= U256.MAX;
  }

  // ----- At most k handlers in flight -----

  function Least(a: nat, b: nat): nat {
    if a < b then a else b
  }

  /** The most a handler may still add to the amount sold. */
  function Allowance(p: Phase): nat {
    match p
    case Snapshotted(total, sold) => Least(MAX_SELL, Remaining(total, sold))
    case Sent(_, _, sell, _) => sell
    case Recorded(_, _, sell, _, _) => sell
    case _ => 0
  }

  /** The same, and what a handler sold that was never credited. */
  function Offer(p: Phase): nat {
    if p.Orphaned? then p.sell else Allowance(p)
  }

  ghost function AllowanceOn(session: string): Handler -> nat {
    (h: Handler) => if h.key.session == session then Allowance(h.phase) else 0
  }

  /** Sells sent to the chain and not credited yet. */
  ghost function PendingSell(session: string): Handler -> nat {
    (h: Handler) => if h.key.session == session && (h.phase.Sent? || h.phase.Recorded?) then h.phase.sell else 0
  }

  ghost predicate SnapshotsFit(s: State, session: string, cap: nat) {
    && session in s.sessions
    && forall i :: 0 <= i < |s.handlers| && s.handlers[i].key.session == session ==> Offer(s.handlers[i].phase) <= cap
  }

  ghost predicate Bounded(s: State, session: string, cap: nat, bound: nat) {
    && SnapshotsFit(s, session, cap)
    && s.sessions[session].sold + Sum(AllowanceOn(session), s.handlers) <= bound
  }

  lemma HandlerFitsKept(s: State, step: Step, i: nat)
    requires Enabled(s, step) && InPhase(s, i)
    ensures InPhase(Apply(s, step), i) && Apply(s, step).handlers[i].key == s.handlers[i].key
    ensures Offer(PhaseOf(Apply(s, step), i)) <= Offer(PhaseOf(s, i))
  {
    hide DoMark, Seen, InsertRow, HasKey, NewTrade, CreditRow, PovSell, Completes, Remaining;
    if step.Submit? && step.h == i {
      SellFitsAllowance(PhaseOf(s, i).total, PhaseOf(s, i).sold, step.buy, step.povBps);
    }
  }

  lemma SellFitsAllowance(total: int, sold: int, buy: U256.Word, povBps: U256.Word)
    requires Gate(total, sold, buy, povBps).Some?
    ensures Gate(total, sold, buy, povBps).value <= Least(MAX_SELL, Remaining(total, sold))
  {
    PovSellBound(buy, povBps);
  }

  lemma TotalKept(s: State, step: Step)
    requires Enabled(s, step)
    ensures forall id :: id in s.sessions ==>
              id in Apply(s, step).sessions && Apply(s, step).sessions[id].total == s.sessions[id].total
  {
  }

  lemma FitsKept(s: State, step: Step, session: string, cap: nat)
    requires SnapshotsFit(s, session, cap) && Enabled(s, step)
    requires step.Snapshot? && step.key.session == session ==>
               Least(MAX_SELL, Remaining(s.sessions[session].total, s.sessions[session].sold)) <= cap
    ensures SnapshotsFit(Apply(s, step), session, cap)
    ensures Apply(s, step).sessions[session].total == s.sessions[session].total
  {
    var s' := Apply(s, step);
    TotalKept(s, step);
    forall i | 0 <= i < |s'.handlers| && s'.handlers[i].key.session == session
      ensures Offer(s'.handlers[i].phase) <= cap
    {
      if i < |s.handlers| {
        HandlerFitsKept(s, step, i);
        assert s'.handlers[i].key == s.handlers[i].key;
      }
    }
  }

  /** Every handler in flight offers at most the cap. */
  lemma OffersBound(s: State, session: string, cap: nat)
    requires SnapshotsFit(s, session, cap)
    ensures Sum(AllowanceOn(session), s.handlers) <= cap * Sum(InFlight(session), s.handlers)
  {
    forall x | x in s.handlers ensures AllowanceOn(session)(x) <= cap * InFlight(session)(x) {
      assert x.key.session == session ==> Offer(x.phase) <= cap;
    }
    SumScaled(AllowanceOn(session), InFlight(session), cap, s.handlers);
  }

  /** A new snapshot offers no more than what is left; the others offer at most the cap each. */
  lemma SnapshotBounded(s: State, key: TriggerKey, cap: nat, k: nat)
    requires k > 0 && Enabled(s, Snapshot(key)) && 0 <= s.sessions[key.session].total
             && 0 <= s.sessions[key.session].sold
    requires Bounded(s, key.session, cap, s.sessions[key.session].total + (k - 1) * cap)
    requires s.sessions[key.session].total + (k - 1) * cap < U256.TWO_256
    requires Within(Apply(s, Snapshot(key)), AtMost(key.session, k))
    ensures s.sessions[key.session].sold + Sum(AllowanceOn(key.session), Apply(s, Snapshot(key)).handlers)
         <= s.sessions[key.session].total + (k - 1) * cap
  {
    var id := key.session;
    var (total, sold) := (s.sessions[id].total, s.sessions[id].sold);
    var h := Handler(key, Snapshotted(total, sold));
    SumAppend(AllowanceOn(id), s.handlers, h);
    SumAppend(InFlight(id), s.handlers, h);
    OffersBound(s, id, cap);
    TimesMonotone(Sum(InFlight(id), s.handlers), k - 1, cap);
  }

  lemma TimesMonotone(a: nat, b: nat, c: nat)
    requires a <= b
    ensures c * a <= b * c
  {
  }

  /** A handler's step moves its allowance into the amount sold, or drops it. */
  lemma AllowanceMoves(s: State, step: Step, session: string)
    requires Scoped(s) && session in s.sessions && Enabled(s, step) && (HandlerStep(step) || step.Insert?)
    ensures
      var s' := Apply(s, step);
      var (h, h') := (s.handlers[step.h], s'.handlers[step.h]);
      && s'.handlers == SetPhase(s, step.h, h'.phase).handlers && session in s'.sessions
      && s'.sessions[session].sold + AllowanceOn(session)(h') <= s.sessions[session].sold + AllowanceOn(session)(h)
      && s'.sessions[session].sold >= s.sessions[session].sold
  {
    hide DoMark, Seen, InsertRow, HasKey, NewTrade, Remaining, PovSell;
    if step.Submit? {
      SellFitsAllowance(PhaseOf(s, step.h).total, PhaseOf(s, step.h).sold, step.buy, step.povBps);
    }
  }

  /** No step adds to what is sold and still allowed, but a snapshot of the session itself. */
  lemma OtherStepsBounded(s: State, step: Step, session: string)
    requires Scoped(s) && session in s.sessions && Enabled(s, step)
    requires step.Snapshot? ==> step.key.session != session
    ensures session in Apply(s, step).sessions
    ensures Apply(s, step).sessions[session].sold + Sum(AllowanceOn(session), Apply(s, step).handlers)
         <= s.sessions[session].sold + Sum(AllowanceOn(session), s.handlers)
    ensures Apply(s, step).sessions[session].sold >= s.sessions[session].sold
  {
    var s' := Apply(s, step);
    if HandlerStep(step) || step.Insert? {
      AllowanceMoves(s, step, session);
      PhaseMoves(s, step.h, s'.handlers[step.h].phase, AllowanceOn(session));
    } else if step.Snapshot? {
      SumAppend(AllowanceOn(session), s.handlers, s'.handlers[|s.handlers|]);
    } else {
      hide Sum;
      assert s'.handlers == s.handlers;
    }
  }

  /** A limit that is kept at the end was kept all along. */
  lemma RunPrefix(s: State, steps: seq<Step>, limit: Limit)
    requires steps != [] && Run(s, steps, limit).Some?
    ensures
      var mid := Run(s, steps[..|steps| - 1], limit);
      mid.Some? && Enabled(mid.value, steps[|steps| - 1])
      && Run(s, steps, limit).value == Apply(mid.value, steps[|steps| - 1])
    ensures Within(Run(s, steps, limit).value, limit)
  {
  }

  /** What one sell can be at most, for a session that starts with `sold` of `total`. */
  function Cap(total: nat, sold: nat): nat
    requires sold <= total
  {
    Least(MAX_SELL, total - sold)
  }

  /** The total and k - 1 sells more. */
  function Reaching(total: nat, sold: nat, k: nat): nat
    requires sold <= total && k >= 1
  {
    total + (k - 1) * Cap(total, sold)
  }

  lemma {:induction false} RunBounded(s: State, steps: seq<Step>, session: string, k: nat)
    requires Balanced(s) && session in s.sessions
    requires 0 <= s.sessions[session].sold <= s.sessions[session].total && 1 <= k
    requires Reaching(s.sessions[session].total, s.sessions[session].sold, k) < U256.TWO_256
    requires Run(s, steps, AtMost(session, k)).Some?
    ensures
      var s' := Run(s, steps, AtMost(session, k)).value;
      var cap := Cap(s.sessions[session].total, s.sessions[session].sold);
      && Bounded(s', session, cap, s.sessions[session].total + (k - 1) * cap)
      && s'.sessions[session].total == s.sessions[session].total
      && s'.sessions[session].sold >= s.sessions[session].sold
  {
    var cap := Cap(s.sessions[session].total, s.sessions[session].sold);
    if steps == [] {
      TimesMonotone(0, k - 1, cap);
    } else {
      var n := |steps| - 1;
      RunBounded(s, steps[..n], session, k);
      RunPrefix(s, steps, AtMost(session, k));
      RunKeepsLedger(s, steps[..n], AtMost(session, k));
      var mid := Run(s, steps[..n], AtMost(session, k)).value;
      FitsKept(mid, steps[n], session, cap);
      if steps[n].Snapshot? && steps[n].key.session == session {
        SnapshotBounded(mid, steps[n].key, cap, k);
      } else {
        OtherStepsBounded(mid, steps[n], session);
      }
    }
  }

  /** With at most k handlers in flight, sold and pending stay within the total and k - 1 sells more. */
  lemma {:induction false} OversellBound(s: State, steps: seq<Step>, session: string, k: nat)
    requires Balanced(s) && session in s.sessions
    requires 0 <= s.sessions[session].sold <= s.sessions[session].total && 1 <= k
    requires Reaching(s.sessions[session].total, s.sessions[session].sold, k) < U256.TWO_256
    requires Run(s, steps, AtMost(session, k)).Some?
    ensures
      var s' := Run(s, steps, AtMost(session, k)).value;
      && session in s'.sessions
      && s'.sessions[session].sold + Sum(PendingSell(session), s'.handlers)
         <= Reaching(s.sessions[session].total, s.sessions[session].sold, k)
  {
    RunBounded(s, steps, session, k);
    var s' := Run(s, steps, AtMost(session, k)).value;
    SumScaled(PendingSell(session), AllowanceOn(session), 1, s'.handlers);
  }

  // ----- When that does not fit 256 bits -----

  /** The column keeps its limit: the UPDATE that would exceed it fails. */
  lemma ColumnKept(s: State, step: Step, session: string)
    requires Enabled(s, step) && session in s.sessions && s.sessions[session].sold < NUMERIC_LIMIT
    ensures session in Apply(s, step).sessions && Apply(s, step).sessions[session].sold < NUMERIC_LIMIT
    ensures Apply(s, step).sessions[session].total == s.sessions[session].total
  {
    hide DoMark, Seen, InsertRow, HasKey, Completes, CrashedPhase, Gate;
  }

  lemma {:induction false} RunCapped(s: State, steps: seq<Step>, session: string, k: nat)
    requires Balanced(s) && session in s.sessions
    requires 0 <= s.sessions[session].total < U256.TWO_256 && s.sessions[session].sold < NUMERIC_LIMIT
    requires Run(s, steps, AtMost(session, k)).Some?
    ensures
      var s' := Run(s, steps, AtMost(session, k)).value;
      && SnapshotsFit(s', session, Cap(s.sessions[session].total, 0))
      && s'.sessions[session].total == s.sessions[session].total && s'.sessions[session].sold < NUMERIC_LIMIT
  {
    if steps != [] {
      var n := |steps| - 1;
      RunCapped(s, steps[..n], session, k);
      var mid := Run(s, steps[..n], AtMost(session, k)).value;
      FitsKept(mid, steps[n], session, Cap(s.sessions[session].total, 0));
      ColumnKept(mid, steps[n], session);
    }
  }

  /** With at most k handlers in flight, whatever overflows, sold and pending stay within the column and k sells. */
  lemma {:induction false} ColumnBound(s: State, steps: seq<Step>, session: string, k: nat)
    requires Balanced(s) && session in s.sessions
    requires 0 <= s.sessions[session].total < U256.TWO_256 && s.sessions[session].sold < NUMERIC_LIMIT
    requires Run(s, steps, AtMost(session, k)).Some?
    ensures
      var s' := Run(s, steps, AtMost(session, k)).value;
      && session in s'.sessions
      && s'.sessions[session].sold + Sum(PendingSell(session), s'.handlers)
         <= NUMERIC_LIMIT - 1 + k * Cap(s.sessions[session].total, 0)
  {
    var s' := Run(s, steps, AtMost(session, k)).value;
    var cap := Cap(s.sessions[session].total, 0);
    RunCapped(s, steps, session, k);
    KeptAtEnd(s, steps, AtMost(session, k));
    SumScaled(PendingSell(session), AllowanceOn(session), 1, s'.handlers);
    OffersBound(s', session, cap);
    TimesMonotone(Sum(InFlight(session), s'.handlers), k, cap);
  }

  lemma KeptAtEnd(s: State, steps: seq<Step>, limit: Limit)
    requires Run(s, steps, limit).Some?
    ensures Within(Run(s, steps, limit).value, limit)
  {
  }

  /** The most that can be sold and pending at once with k handlers in flight, starting with `sold` of `total`. */
  function Most(total: U256.Word, sold: nat, k: nat): nat
    requires sold <= total && k >= 1
  {
    var bound := Reaching(total, sold, k);
    if bound < U256.TWO_256 then bound else NUMERIC_LIMIT - 1 + k * Cap(total, 0)
  }
}
