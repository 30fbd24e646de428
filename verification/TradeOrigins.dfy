/** Where every sell and every trade of a run comes from: the buy, the rate and the statement that recorded it. */
module TradeOrigins {
  import opened Wrappers
  import opened TradeTable
  import opened TradeProtocol
  import opened LedgerSafety
  import opened OversellSafety
  import opened SingleHandlerSafety
  import U256

  // ----- One step -----

  /** The transaction sells what the buy and its rate ask for, out of what the handler's own snapshot left. */
  lemma SubmitSells(s: State, step: Step)
    requires Enabled(s, step) && step.Submit?
    ensures InPhase(Apply(s, step), step.h)
    ensures
      var (p, q) := (PhaseOf(s, step.h), PhaseOf(Apply(s, step), step.h));
      var id := s.handlers[step.h].key.session;
      && q.Sent? && q.total == p.total && q.sold == p.sold && q.tx == step.tx
      && q.sell * 10_000 <= step.buy * step.povBps && q.sell <= Remaining(p.total, p.sold)
      && (step.buy * step.povBps < U256.TWO_256 ==>
            SizedBy(q.sell, Remaining(p.total, p.sold), step.buy * step.povBps))
      && Apply(s, step).submitted == s.submitted[id := s.submitted[id] + q.sell]
  {
    GateIsSized(PhaseOf(s, step.h).total, PhaseOf(s, step.h).sold, step.buy, step.povBps);
  }

  /** The INSERT adds the sell as it was sent, at the time given, and only under a new key. */
  lemma InsertRecords(s: State, step: Step)
    requires Enabled(s, step) && step.Insert?
    ensures
      var (h, s') := (s.handlers[step.h], Apply(s, step));
      var (p, q) := (h.phase, s'.handlers[step.h].phase);
      if exists i :: 0 <= i < |s.rows| && s.rows[i].key == h.key then s'.rows == s.rows && q == Duplicate(p.sell)
      else
        && |s'.rows| == |s.rows| + 1 && s'.rows[..|s.rows|] == s.rows
        && s'.rows[|s.rows|] == Trade(h.key, p.sell, Some(p.tx), step.now, Submitted, None, None)
        && q == Recorded(p.total, p.sold, p.sell, p.tx, |s.rows|)
  {
  }

  /** A handler that skips or crashes is over, and what it leaves says how far it came. */
  lemma GivingUpLeaves(s: State, step: Step)
    requires Enabled(s, step) && (step.Skip? || step.Crash?)
    ensures InPhase(Apply(s, step), step.h) && !Live(PhaseOf(Apply(s, step), step.h))
    ensures
      var (p, q) := (PhaseOf(s, step.h), PhaseOf(Apply(s, step), step.h));
      && (q == Skipped <==> p.Snapshotted?)
      && (forall sell :: q == Lost(sell) <==> p.Sent? && p.sell == sell)
      && (forall sell, row :: q == Orphaned(sell, row) <==> p.Recorded? && p.sell == sell && p.row == row)
      && (q.Stopped? <==> p.Credited?)
    ensures Apply(s, step).rows == s.rows && Apply(s, step).sessions == s.sessions
  {
  }

  lemma OverStays(s: State, step: Step, h: nat)
    requires Enabled(s, step) && InPhase(s, h) && !Live(PhaseOf(s, h))
    ensures InPhase(Apply(s, step), h) && Apply(s, step).handlers[h] == s.handlers[h]
  {
    hide DoMark, Seen, InsertRow, HasKey, CreditRow, CreditFits, Completes, Gate;
  }

  // ----- Whole runs -----

  /** A handler that is over never steps again. */
  lemma {:induction false} OverForever(s: State, steps: seq<Step>, limit: Limit, h: nat)
    requires Run(s, steps, limit).Some? && InPhase(s, h) && !Live(PhaseOf(s, h))
    ensures InPhase(Run(s, steps, limit).value, h) && Run(s, steps, limit).value.handlers[h] == s.handlers[h]
  {
    if steps != [] {
      hide Apply, Enabled;
      OverForever(s, steps[..|steps| - 1], limit, h);
      OverStays(Run(s, steps[..|steps| - 1], limit).value, steps[|steps| - 1], h);
    }
  }

  /** The handler has sent a sell, whatever became of it. */
  predicate HasSold(p: Phase) {
    !p.Snapshotted? && !p.Skipped?
  }

  /** This step of the run sent the sell, from what the given snapshot left. */
  ghost predicate SentBy(steps: seq<Step>, a: nat, h: nat, sell: nat, left: nat) {
    && a < |steps| && steps[a].Submit? && steps[a].h == h
    && sell * 10_000 <= steps[a].buy * steps[a].povBps && sell <= left
    && (steps[a].buy * steps[a].povBps < U256.TWO_256 ==> SizedBy(sell, left, steps[a].buy * steps[a].povBps))
  }

  predicate KeepsSnapshot(p: Phase) {
    p.Sent? || p.Recorded? || p.Credited? || p.Finished? || p.Stopped?
  }

  ghost predicate Sold(steps: seq<Step>, h: nat, p: Phase)
    requires HasSold(p)
  {
    exists a: nat, left: nat ::
      && SentBy(steps, a, h, p.sell, left)
      && (KeepsSnapshot(p) ==> left == Remaining(p.total, p.sold))
      && (p.Sent? || p.Recorded? || p.Credited? ==> steps[a].tx == p.tx)
  }

  ghost predicate AllSold(s: State, steps: seq<Step>) {
    forall h :: 0 <= h < |s.handlers| && HasSold(s.handlers[h].phase) ==> Sold(steps, h, s.handlers[h].phase)
  }

  /** The sell, the transaction and the time of the trade are those of its handler's two statements. */
  ghost predicate Origin(steps: seq<Step>, t: Trade, h: nat, a: nat, b: nat, left: nat) {
    && SentBy(steps, a, h, t.sellAmount, left) && t.sellTxHash == Some(steps[a].tx)
    && a < b < |steps| && steps[b] == Insert(h, t.executedAt)
  }

  ghost predicate HasOrigin(s: State, steps: seq<Step>, t: Trade) {
    exists h: nat, a: nat, b: nat, left: nat ::
      InPhase(s, h) && s.handlers[h].key == t.key && Origin(steps, t, h, a, b, left)
  }

  lemma SoldStaysSold(steps: seq<Step>, h: nat, p: Phase, q: Phase)
    requires steps != [] && HasSold(p) && HasSold(q) && Sold(steps[..|steps| - 1], h, p) && q.sell == p.sell
    requires KeepsSnapshot(q) ==> KeepsSnapshot(p) && q.total == p.total && q.sold == p.sold
    requires q.Sent? || q.Recorded? || q.Credited? ==> (p.Sent? || p.Recorded? || p.Credited?) && q.tx == p.tx
    ensures Sold(steps, h, q)
  {
    var before := steps[..|steps| - 1];
    var a: nat, left: nat :|
      && SentBy(before, a, h, p.sell, left)
      && (KeepsSnapshot(p) ==> left == Remaining(p.total, p.sold))
      && (p.Sent? || p.Recorded? || p.Credited? ==> before[a].tx == p.tx);
    assert steps[a] == before[a];
    assert SentBy(steps, a, h, q.sell, left);
  }

  /** A handler's phase after a step, from the phase before it. */
  lemma PhaseFrom(s: State, step: Step, h: nat)
    requires Enabled(s, step) && InPhase(Apply(s, step), h) && HasSold(PhaseOf(Apply(s, step), h))
    ensures InPhase(s, h) && Apply(s, step).handlers[h].key == s.handlers[h].key
    ensures
      var (p, q) := (PhaseOf(s, h), PhaseOf(Apply(s, step), h));
      || (step.Submit? && step.h == h)
      || (HasSold(p) && q.sell == p.sell
          && (KeepsSnapshot(q) ==> KeepsSnapshot(p) && q.total == p.total && q.sold == p.sold)
          && (q.Sent? || q.Recorded? || q.Credited? ==> (p.Sent? || p.Recorded? || p.Credited?) && q.tx == p.tx))
  {
    hide DoMark, Seen, InsertRow, HasKey, CreditRow, CreditFits, Completes, Gate, ReceiveRow;
    if InPhase(s, h) && ((HandlerStep(step) || step.Insert?) ==> step.h != h) {
      OthersStay(s, step, h);
    }
  }

  lemma AllSoldKept(s: State, steps: seq<Step>)
    requires steps != [] && AllSold(s, steps[..|steps| - 1]) && Enabled(s, steps[|steps| - 1])
    ensures AllSold(Apply(s, steps[|steps| - 1]), steps)
  {
    hide Apply, Enabled, Sold, Remaining;
    var (last, s') := (|steps| - 1, Apply(s, steps[|steps| - 1]));
    forall h | 0 <= h < |s'.handlers| && HasSold(s'.handlers[h].phase) ensures Sold(steps, h, s'.handlers[h].phase) {
      PhaseFrom(s, steps[last], h);
      if steps[last].Submit? && steps[last].h == h {
        SoldNow(s, steps);
      } else {
        SoldStaysSold(steps, h, s.handlers[h].phase, s'.handlers[h].phase);
      }
    }
  }

  lemma SoldNow(s: State, steps: seq<Step>)
    requires steps != [] && steps[|steps| - 1].Submit? && Enabled(s, steps[|steps| - 1])
    ensures
      var (h, s') := (steps[|steps| - 1].h, Apply(s, steps[|steps| - 1]));
      InPhase(s', h) && HasSold(PhaseOf(s', h)) && Sold(steps, h, PhaseOf(s', h))
  {
    hide Apply, Enabled, Remaining, SizedBy;
    var last := |steps| - 1;
    SubmitSells(s, steps[last]);
    var q := PhaseOf(Apply(s, steps[last]), steps[last].h);
    assert SentBy(steps, last, steps[last].h, q.sell, Remaining(q.total, q.sold));
  }

  lemma OriginKept(s: State, s': State, steps: seq<Step>, t: Trade, t': Trade)
    requires steps != [] && HasOrigin(s, steps[..|steps| - 1], t)
    requires t'.key == t.key && t'.sellAmount == t.sellAmount && t'.sellTxHash == t.sellTxHash
             && t'.executedAt == t.executedAt
    requires forall h: nat :: InPhase(s, h) ==> InPhase(s', h) && s'.handlers[h].key == s.handlers[h].key
    ensures HasOrigin(s', steps, t')
  {
    var before := steps[..|steps| - 1];
    var h: nat, a: nat, b: nat, left: nat :|
      InPhase(s, h) && s.handlers[h].key == t.key && Origin(before, t, h, a, b, left);
    assert steps[a] == before[a] && steps[b] == before[b];
    assert SentBy(steps, a, h, t'.sellAmount, left);
    assert Origin(steps, t', h, a, b, left);
  }

  lemma InsertedOrigin(s: State, steps: seq<Step>)
    requires steps != [] && steps[|steps| - 1].Insert? && Enabled(s, steps[|steps| - 1])
    requires AllSold(s, steps[..|steps| - 1]) && |Apply(s, steps[|steps| - 1]).rows| == |s.rows| + 1
    ensures HasOrigin(Apply(s, steps[|steps| - 1]), steps, Apply(s, steps[|steps| - 1]).rows[|s.rows|])
  {
    hide Remaining, SizedBy;
    var (last, before) := (|steps| - 1, steps[..|steps| - 1]);
    var (step, h) := (steps[last], steps[last].h);
    InsertRecords(s, step);
    var p := PhaseOf(s, h);
    assert Sold(before, h, p);
    var a: nat, left: nat :|
      SentBy(before, a, h, p.sell, left) && (KeepsSnapshot(p) ==> left == Remaining(p.total, p.sold))
      && (p.Sent? || p.Recorded? || p.Credited? ==> before[a].tx == p.tx);
    assert steps[a] == before[a] && steps[last] == Insert(h, step.now);
    assert SentBy(steps, a, h, p.sell, left);
    assert Origin(steps, Apply(s, step).rows[|s.rows|], h, a, last, left);
  }

  /** No step edits what was traded or when, and rows are only added by the INSERT. */
  lemma TradesKept(s: State, step: Step)
    requires Enabled(s, step)
    ensures |s.rows| <= |Apply(s, step).rows| <= |s.rows| + 1
    ensures |Apply(s, step).rows| > |s.rows| ==> step.Insert?
    ensures forall i :: 0 <= i < |s.rows| ==>
              var (t, t') := (s.rows[i], Apply(s, step).rows[i]);
              && t'.key == t.key && t'.sellAmount == t.sellAmount && t'.sellTxHash == t.sellTxHash
              && t'.executedAt == t.executedAt
    ensures forall h: nat :: InPhase(s, h) ==>
              InPhase(Apply(s, step), h) && Apply(s, step).handlers[h].key == s.handlers[h].key
  {
    hide Gate, DoSubmit, DoCredit, DoFinish, CrashedPhase, Seen;
    if StatusStep(step) {
      StatusStepEffect(s, step);
    } else if step.Insert? {
      InsertRecords(s, step);
    }
    KeysKept(s, step);
  }

  lemma KeysKept(s: State, step: Step)
    requires Enabled(s, step)
    ensures forall h: nat :: InPhase(s, h) ==>
              InPhase(Apply(s, step), h) && Apply(s, step).handlers[h].key == s.handlers[h].key
  {
    hide Gate, CrashedPhase, Seen, HasKey, InsertRow, CreditFits, CreditRow, Completes, ConfirmRow, FailRow, ReceiveRow;
  }

  /**
    Every sell of a run was sent for one buy, at its rate at most; every trade recorded in it belongs to a
    handler that sent that sell in that transaction, and was recorded at that handler's INSERT.
   */
  lemma {:induction false} EveryTradeHasOrigin(s: State, steps: seq<Step>, limit: Limit)
    requires Balanced(s) && Run(s, steps, limit).Some?
    ensures AllSold(Run(s, steps, limit).value, steps)
    ensures
      var s' := Run(s, steps, limit).value;
      |s.rows| <= |s'.rows| && forall i :: |s.rows| <= i < |s'.rows| ==> HasOrigin(s', steps, s'.rows[i])
  {
    if steps != [] {
      hide Apply, Enabled, AllSold, HasOrigin;
      var n := |steps| - 1;
      var mid := Run(s, steps[..n], limit).value;
      var s' := Apply(mid, steps[n]);
      EveryTradeHasOrigin(s, steps[..n], limit);
      AllSoldKept(mid, steps);
      TradesKept(mid, steps[n]);
      forall i | |s.rows| <= i < |s'.rows| ensures HasOrigin(s', steps, s'.rows[i]) {
        if i < |mid.rows| {
          OriginKept(mid, s', steps, mid.rows[i], s'.rows[i]);
        } else {
          InsertedOrigin(mid, steps);
        }
      }
    } else {
      assert AllSold(s, steps);
    }
  }
}
