/** Runs of any session that show what the trade protocol does not provide. */
module Anomalies {
  import opened Wrappers
  import opened TradeTable
  import opened TradeProtocol
  import opened Sums
  import opened LedgerSafety
  import opened OversellSafety
  import opened StatusSafety
  import opened ReachableRuns
  import opened OversellExact
  import U256

  // ----- Redelivered events -----

  /** What a session and its ledger are while one event is delivered again and again. */
  datatype Ledger = Ledger(total: U256.Word, sold: int, rows: Table)

  /** The session is active and its ledger untouched; this much went to the chain, with this many handlers in flight. */
  ghost predicate Resent(s: State, session: string, ledger: Ledger, sent: nat, flight: nat) {
    && session in s.sessions && s.sessions[session] == Session(ledger.total, ledger.sold, Active)
    && s.rows == ledger.rows && session in s.submitted && s.submitted[session] == sent
    && Sum(InFlight(session), s.handlers) == flight
  }

  ghost predicate Last(s: State, key: TriggerKey, p: Phase) {
    s.handlers != [] && s.handlers[|s.handlers| - 1] == Handler(key, p)
  }

  lemma Arrives(s: State, key: TriggerKey, ledger: Ledger, sent: nat)
    requires Resent(s, key.session, ledger, sent, 0)
    ensures Enabled(s, Snapshot(key)) && Resent(Apply(s, Snapshot(key)), key.session, ledger, sent, 1)
    ensures Last(Apply(s, Snapshot(key)), key, Snapshotted(ledger.total, ledger.sold))
  {
    SumAppend(InFlight(key.session), s.handlers, Handler(key, Snapshotted(ledger.total, ledger.sold)));
  }

  lemma Sends(s: State, key: TriggerKey, ledger: Ledger, sent: nat, sell: nat)
    requires Resent(s, key.session, ledger, sent, 1) && Last(s, key, Snapshotted(ledger.total, ledger.sold))
    requires 1 <= sell <= MAX_SELL && sell <= Remaining(ledger.total, ledger.sold)
    ensures
      var step := Submit(|s.handlers| - 1, sell, 10_000, "");
      && sell * 10_000 <= U256.MAX && Enabled(s, step) && Resent(Apply(s, step), key.session, ledger, sent + sell, 1)
      && |Apply(s, step).handlers| == |s.handlers|
      && Last(Apply(s, step), key, Sent(ledger.total, ledger.sold, sell, ""))
  {
    hide Gate, Remaining, DoInsert, DoCredit, DoFinish, DoMark, Seen, CrashedPhase;
    AnySell(ledger.total, ledger.sold, sell);
    PhaseMoves(s, |s.handlers| - 1, Sent(ledger.total, ledger.sold, sell, ""), InFlight(key.session));
  }

  lemma Crashes(s: State, key: TriggerKey, ledger: Ledger, sent: nat, sell: nat)
    requires Resent(s, key.session, ledger, sent, 1) && Last(s, key, Sent(ledger.total, ledger.sold, sell, ""))
    ensures
      var step := Crash(|s.handlers| - 1);
      Enabled(s, step) && Resent(Apply(s, step), key.session, ledger, sent, 0)
  {
    hide Gate, DoSubmit, DoInsert, DoCredit, DoFinish, DoMark, Seen;
    PhaseMoves(s, |s.handlers| - 1, Lost(sell), InFlight(key.session));
  }

  lemma ResentWithin(s: State, session: string, ledger: Ledger, sent: nat, flight: nat)
    requires Resent(s, session, ledger, sent, flight) && flight <= 1
    ensures Within(s, AtMost(session, 1))
  {
  }

  /** One delivery: snapshot, send, and a crash before anything is recorded. */
  lemma Deliver(start: State, s: State, key: TriggerKey, ledger: Ledger, sent: nat, sell: nat) returns (t: State)
    requires Reach(start, key.session, 1, s) && Resent(s, key.session, ledger, sent, 0)
    requires 1 <= sell <= MAX_SELL && sell <= Remaining(ledger.total, ledger.sold)
    ensures Reach(start, key.session, 1, t) && Resent(t, key.session, ledger, sent + sell, 0)
  {
    hide Reach, Resent, Within, Remaining, Enabled, Apply;
    Arrives(s, key, ledger, sent);
    var u := Apply(s, Snapshot(key));
    ResentWithin(u, key.session, ledger, sent, 1);
    ReachStep(start, key.session, 1, s, Snapshot(key));
    Sends(u, key, ledger, sent, sell);
    var submit := Submit(|u.handlers| - 1, sell, 10_000, "");
    var v := Apply(u, submit);
    ResentWithin(v, key.session, ledger, sent + sell, 1);
    ReachStep(start, key.session, 1, u, submit);
    Crashes(v, key, ledger, sent + sell, sell);
    t := Apply(v, Crash(|v.handlers| - 1));
    ResentWithin(t, key.session, ledger, sent + sell, 0);
    ReachStep(start, key.session, 1, v, Crash(|v.handlers| - 1));
  }

  lemma {:induction false} DeliverMany(start: State, s: State, key: TriggerKey, ledger: Ledger, sent: nat, sell: nat,
                                       count: nat)
    returns (t: State)
    requires Reach(start, key.session, 1, s) && Resent(s, key.session, ledger, sent, 0)
    requires 1 <= sell <= MAX_SELL && sell <= Remaining(ledger.total, ledger.sold)
    ensures Reach(start, key.session, 1, t) && Resent(t, key.session, ledger, sent + count * sell, 0)
    decreases count
  {
    hide Reach, Resent, Remaining;
    t := s;
    if count > 0 {
      OneMoreSell(count - 1, sell);
      t := Deliver(start, s, key, ledger, sent, sell);
      t := DeliverMany(start, t, key, ledger, sent + sell, sell, count - 1);
    }
  }

  /**
    One event, delivered any number of times and handled one delivery at a time, can send its largest
    sell to the chain at every delivery without a trade being recorded.
   */
  lemma RedeliveriesResend(s: State, key: TriggerKey, count: nat) returns (t: State)
    requires Balanced(s) && PartSold(s, key.session)
    ensures Reach(s, key.session, 1, t) && key.session in t.submitted && t.rows == s.rows
    ensures t.submitted[key.session] ==
            s.submitted[key.session] + count * Cap(s.sessions[key.session].total, s.sessions[key.session].sold)
  {
    hide Reach;
    var (total, sold) := (s.sessions[key.session].total, s.sessions[key.session].sold);
    t := Apply(s, SetSessionStatus(key.session, Active));
    StartReached(s, key.session);
    if sold < total {
      t := DeliverMany(s, t, key, Ledger(total, sold, s.rows), s.submitted[key.session], Cap(total, sold), count);
    } else {
      assert count * 0 == 0;
    }
  }

  lemma StartReached(s: State, session: string)
    requires Balanced(s) && session in s.sessions
    ensures Reach(s, session, 1, Apply(s, SetSessionStatus(session, Active)))
  {
    assert Run(s, [], AtMost(session, 1)) == Some(s);
    ReachStep(s, session, 1, s, SetSessionStatus(session, Active));
  }

  // ----- A failed trade that succeeded -----

  /**
    From every reachable state with a credited handler whose trade is submitted and not mined, a run ends
    with that trade failed although its transaction succeeded, and beyond the reconciler's reach.
   */
  lemma FailedThoughMined(start: State, session: string, k: nat, s: State, h: nat, received: Option<nat>,
                          detail: string)
    returns (t: State)
    requires Reach(start, session, k, s)
    requires InPhase(s, h) && PhaseOf(s, h).Credited? && PhaseOf(s, h).row < |s.rows|
    requires s.rows[PhaseOf(s, h).row].status == Submitted
             && s.rows[PhaseOf(s, h).row].sellTxHash == Some(PhaseOf(s, h).tx)
    requires PhaseOf(s, h).tx !in s.receipts
    ensures Reach(start, session, k, t)
    ensures MinedWell(t, PhaseOf(s, h).row) && t.rows[PhaseOf(s, h).row].status == Failed
    ensures !Enabled(t, StartReconciler(PhaseOf(s, h).row))
  {
    hide Reach, Run, Apply, Enabled;
    ReachKeeps(start, session, k, s);
    var (mine, w) := (Mine(PhaseOf(s, h).tx, Succeeded(received)), |s.writers|);
    MinedAndLookedUp(s, h, received);
    var u := Apply(s, mine);
    ReachStep(start, session, k, s, mine);
    var v := Apply(u, StartFinaliser(h));
    ReachStep(start, session, k, u, StartFinaliser(h));
    AnyFinaliserCanFail(v, w, detail);
    ObserveKeeps(v, w, detail);
    var x := Apply(v, ObserveError(w, detail));
    ReachStep(start, session, k, v, ObserveError(w, detail));
    t := Apply(x, Mark(w));
    ReachStep(start, session, k, x, Mark(w));
  }

  lemma MinedAndLookedUp(s: State, h: nat, received: Option<nat>)
    requires InPhase(s, h) && PhaseOf(s, h).Credited? && PhaseOf(s, h).tx !in s.receipts
    ensures
      var (tx, row) := (PhaseOf(s, h).tx, PhaseOf(s, h).row);
      var mine := Mine(tx, Succeeded(received));
      && Enabled(s, mine) && Apply(s, mine) == s.(receipts := s.receipts[tx := Succeeded(received)])
      && Enabled(Apply(s, mine), StartFinaliser(h))
      && Apply(Apply(s, mine), StartFinaliser(h)) ==
         Apply(s, mine).(writers := s.writers + [Writer(Finaliser, row, tx, Selected)])
  {
    hide DoSubmit, DoInsert, DoCredit, DoFinish, DoMark, Gate, CrashedPhase, Seen;
  }

  lemma ObserveKeeps(s: State, w: nat, detail: string)
    requires Enabled(s, ObserveError(w, detail))
    ensures Apply(s, ObserveError(w, detail)).handlers == s.handlers
  {
    hide DoSubmit, DoInsert, DoCredit, DoFinish, DoMark, Gate, CrashedPhase, Seen;
  }

  lemma ReachKeeps(start: State, session: string, k: nat, s: State)
    requires Reach(start, session, k, s)
    ensures Within(s, AtMost(session, k))
  {
    var steps :| Run(start, steps, AtMost(session, k)) == Some(s);
    KeptAtEnd(start, steps, AtMost(session, k));
  }
}
