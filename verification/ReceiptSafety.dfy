/** What the receipts of a run's transactions leave in the trades table: amounts, failures and their reasons. */
module ReceiptSafety {
  import opened Wrappers
  import opened TradeTable
  import opened TradeProtocol
  import opened Sums
  import opened LedgerSafety
  import opened Reconciliation
  import opened StatusSafety

  // ----- What went wrong with a writer -----

  /** The writer was stopped, or a statement of its own failed. */
  ghost predicate Interrupted(steps: seq<Step>, w: nat) {
    exists j :: 0 <= j < |steps| && (steps[j] == WriterStops(w) || (steps[j].WriterFails? && steps[j].w == w))
  }

  /** Its receipt could not be read. */
  ghost predicate Misled(steps: seq<Step>, w: nat) {
    exists j :: 0 <= j < |steps| && steps[j].ObserveError? && steps[j].w == w
  }

  ghost predicate Disturbed(steps: seq<Step>, w: nat) {
    Interrupted(steps, w) || Misled(steps, w)
  }

  lemma DisturbedStays(steps: seq<Step>, w: nat)
    requires steps != []
    ensures
      var (before, last) := (steps[..|steps| - 1], steps[|steps| - 1]);
      && (Interrupted(steps, w) <==>
            Interrupted(before, w) || last == WriterStops(w) || (last.WriterFails? && last.w == w))
      && (Misled(steps, w) <==> Misled(before, w) || (last.ObserveError? && last.w == w))
  {
    var (before, n) := (steps[..|steps| - 1], |steps| - 1);
    assert forall j :: 0 <= j < n ==> before[j] == steps[j];
  }

  // ----- The receipt of a trade -----

  predicate HasReceipt(s: State, t: Trade) {
    t.sellTxHash.Some? && t.sellTxHash.value in s.receipts
  }

  function ReceiptOf(s: State, t: Trade): Receipt
    requires HasReceipt(s, t)
  {
    s.receipts[t.sellTxHash.value]
  }

  /** The trade says what its receipt says: status, and the amount received. */
  predicate AsReceipt(s: State, t: Trade) {
    && HasReceipt(s, t)
    && match ReceiptOf(s, t)
       case Succeeded(received) => t.status == Confirmed && t.finalReceived == received
       case Revert => t.status == Failed
  }

  /** Somebody is about to store the amount, or was kept from it. */
  ghost predicate AmountUnderWay(s: State, steps: seq<Step>, i: nat, amount: nat) {
    exists w :: 0 <= w < |s.writers| && s.writers[w].row == i
      && (s.writers[w].phase == Receiving(amount) || Interrupted(steps, w))
  }

  /** The run started with the trade confirmed and without its amount. */
  predicate Untold(start: State, i: nat) {
    i < |start.rows| && start.rows[i].status == Confirmed && !AsReceipt(start, start.rows[i])
  }

  ghost predicate AmountKept(start: State, s: State, steps: seq<Step>, i: nat)
    requires i < |s.rows|
  {
    s.rows[i].status == Confirmed && !Untold(start, i) ==>
      && HasReceipt(s, s.rows[i])
      && (ReceiptOf(s, s.rows[i]) == Succeeded(s.rows[i].finalReceived)
          || exists amount :: ReceiptOf(s, s.rows[i]) == Succeeded(Some(amount))
               && AmountUnderWay(s, steps, i, amount))
  }

  // ----- Steps of writers -----

  /** A step of another writer, or of none, leaves a writer alone. */
  lemma WriterStays(s: State, step: Step, w: nat)
    requires Enabled(s, step) && w < |s.writers|
    ensures w < |Apply(s, step).writers|
    ensures Apply(s, step).writers[w].row == s.writers[w].row && Apply(s, step).writers[w].tx == s.writers[w].tx
    ensures Apply(s, step).writers[w].kind == s.writers[w].kind
    ensures Apply(s, step).writers[w] == s.writers[w] || (step.Observe? && step.w == w)
            || (step.ObserveError? && step.w == w) || (step.Mark? && step.w == w) || (step.Receive? && step.w == w)
            || (step.WriterFails? && step.w == w) || step == WriterStops(w)
  {
    hide DoSubmit, DoInsert, DoCredit, DoFinish, Gate, CrashedPhase, ConfirmRow, FailRow;
  }

  /** What the two writing steps of a writer do to the trades. */
  lemma RowFrom(s: State, step: Step, i: nat)
    requires Enabled(s, step) && i < |s.rows|
    ensures i < |Apply(s, step).rows|
    ensures
      var (t, t') := (s.rows[i], Apply(s, step).rows[i]);
      t' == if step.Mark? && s.writers[step.w].row == i then MarkedTrade(s.writers[step.w], t)
            else if step.Receive? && s.writers[step.w].row == i then
              t.(finalReceived := Some(s.writers[step.w].phase.amount))
            else t
  {
    hide DoSubmit, DoCredit, DoFinish, Gate, CrashedPhase, Seen;
  }

  /** The trade after a writer's statement. */
  function MarkedTrade(w: Writer, t: Trade): Trade
    requires w.phase.SawMined? || w.phase.SawReverted? || w.phase.SawError? || w.phase.Erring?
  {
    match w.phase
    case SawMined(_) => t.(status := Confirmed, failureReason := None)
    case SawReverted =>
      if t.status == Confirmed then t else t.(status := Failed, failureReason := Some(TransactionReverted))
    case SawError(detail) =>
      if w.kind == Reconciler || t.status == Confirmed then t
      else t.(status := Failed, failureReason := Some(ReceiptLookupError(detail)))
    case Erring(detail) =>
      if t.status == Confirmed then t
      else t.(status := Failed, failureReason := Some(ReceiptFinalizationError(detail)))
  }

  // ----- A writer by itself -----

  function LookupOf(receipt: Receipt): Lookup {
    match receipt
    case Succeeded(received) => Mined(received)
    case Revert => Reverted
  }

  /** The reconciler's query lists exactly the trades a reconciler can start on. */
  lemma ReconcilerTakesPending(s: State, row: nat)
    ensures Enabled(s, StartReconciler(row)) <==> row in PendingTrades(s.rows)
  {
  }

  /** The steps of a writer that reads its receipt and is not disturbed do what a pass, or the finaliser, does. */
  lemma ReceiptStepsSettle(s: State, w: nat)
    requires w < |s.writers| && s.writers[w].phase == Selected && s.writers[w].tx in s.receipts
    ensures Enabled(s, Observe(w)) && Enabled(Apply(s, Observe(w)), Mark(w))
    ensures
      var (receipt, row) := (s.receipts[s.writers[w].tx], s.writers[w].row);
      var marked := Apply(Apply(s, Observe(w)), Mark(w));
      var settled := FinalizeRow(s.rows, row, LookupOf(receipt));
      && settled == Settle(s.rows, row, LookupOf(receipt))
      && (receipt.Succeeded? && receipt.received.Some? ==>
            Enabled(marked, Receive(w)) && Apply(marked, Receive(w)).rows == settled)
      && (receipt.Revert? || receipt.received == None ==> !Enabled(marked, Receive(w)) && marked.rows == settled)
  {
    hide DoSubmit, DoInsert, DoCredit, DoFinish, Gate, CrashedPhase, ConfirmRow, FailRow, ReceiveRow;
  }

  /** With a receipt that cannot be read a finaliser fails its trade, and a reconciler leaves it. */
  lemma ErrorStepsSettle(s: State, w: nat, detail: string)
    requires w < |s.writers| && s.writers[w].phase == Selected
    ensures Enabled(s, ObserveError(w, detail)) && Enabled(Apply(s, ObserveError(w, detail)), Mark(w))
    ensures
      var (row, kind) := (s.writers[w].row, s.writers[w].kind);
      Apply(Apply(s, ObserveError(w, detail)), Mark(w)).rows ==
        if kind == Finaliser then FinalizeRow(s.rows, row, Unreachable(detail))
        else Settle(s.rows, row, Unreachable(detail))
  {
    hide DoSubmit, DoInsert, DoCredit, DoFinish, Gate, CrashedPhase, ConfirmRow, FailRow, ReceiveRow;
  }

  // ----- Amounts -----

  lemma AmountKeptStep(start: State, s: State, steps: seq<Step>, i: nat)
    requires steps != [] && StatusInv(s) && Enabled(s, steps[|steps| - 1])
    requires i < |Apply(s, steps[|steps| - 1]).rows|
    requires i < |s.rows| ==> AmountKept(start, s, steps[..|steps| - 1], i)
    requires |start.rows| <= |s.rows|
    ensures AmountKept(start, Apply(s, steps[|steps| - 1]), steps, i)
  {
    hide Apply, Enabled, Interrupted, Coherent;
    var step := steps[|steps| - 1];
    var s' := Apply(s, step);
    if i >= |s.rows| {
      NewIsSubmitted(s, step, i);
    } else if s'.rows[i].status == Confirmed && !Untold(start, i) {
      RowFrom(s, step, i);
      ReceiptsStay(s, step);
      WriterSteps(s, step);
      if step.Mark? && s.writers[step.w].row == i && s.writers[step.w].phase.SawMined? {
        MarkedAmount(start, s, steps, i);
      } else if step.Receive? && s.writers[step.w].row == i {
        assert WriterTruth(s, s.writers[step.w]);
      } else {
        assert s'.rows[i].status == s.rows[i].status && s'.rows[i].finalReceived == s.rows[i].finalReceived;
        if ReceiptOf(s, s.rows[i]) != Succeeded(s.rows[i].finalReceived) {
          var amount :| ReceiptOf(s, s.rows[i]) == Succeeded(Some(amount))
            && AmountUnderWay(s, steps[..|steps| - 1], i, amount);
          UnderWayStays(s, steps, i, amount);
        }
      }
    }
  }

  lemma WriterSteps(s: State, step: Step)
    requires Enabled(s, step)
    ensures step.Mark? ==>
              step.w < |s.writers| &&
              var p := s.writers[step.w].phase; p.SawMined? || p.SawReverted? || p.SawError? || p.Erring?
    ensures step.Receive? ==> step.w < |s.writers| && s.writers[step.w].phase.Receiving?
  {
  }

  lemma NewIsSubmitted(s: State, step: Step, i: nat)
    requires Enabled(s, step) && |s.rows| <= i < |Apply(s, step).rows|
    ensures Apply(s, step).rows[i].status == Submitted
  {
    hide DoSubmit, DoCredit, DoFinish, Gate, CrashedPhase, Seen;
  }

  lemma UnderWayStays(s: State, steps: seq<Step>, i: nat, amount: nat)
    requires steps != [] && Enabled(s, steps[|steps| - 1])
    requires AmountUnderWay(s, steps[..|steps| - 1], i, amount)
    requires steps[|steps| - 1].Receive? ==> s.writers[steps[|steps| - 1].w].row != i
    ensures AmountUnderWay(Apply(s, steps[|steps| - 1]), steps, i, amount)
  {
    hide Interrupted;
    var w :| 0 <= w < |s.writers| && s.writers[w].row == i
      && (s.writers[w].phase == Receiving(amount) || Interrupted(steps[..|steps| - 1], w));
    DisturbedStays(steps, w);
    WriterStays(s, steps[|steps| - 1], w);
  }

  lemma MarkedAmount(start: State, s: State, steps: seq<Step>, i: nat)
    requires steps != [] && StatusInv(s) && Enabled(s, steps[|steps| - 1]) && i < |s.rows|
    requires steps[|steps| - 1].Mark? && s.writers[steps[|steps| - 1].w].row == i
    requires s.writers[steps[|steps| - 1].w].phase.SawMined? && !Untold(start, i)
    requires AmountKept(start, s, steps[..|steps| - 1], i)
    ensures i < |Apply(s, steps[|steps| - 1]).rows| && AmountKept(start, Apply(s, steps[|steps| - 1]), steps, i)
  {
    hide Interrupted;
    var (step, w) := (steps[|steps| - 1], steps[|steps| - 1].w);
    var s' := Apply(s, step);
    assert WriterTruth(s, s.writers[w]);
    assert Coherent(s.rows[i]) && StatusTruth(s.receipts, s.rows[i]);
    var received := s.writers[w].phase.received;
    if received.Some? {
      assert s'.writers[w].row == i && s'.writers[w].phase == Receiving(received.value);
      assert AmountUnderWay(s', steps, i, received.value);
    }
  }

  /**
    In every run, a trade that is confirmed in the end has the amount its receipt names, or a writer is
    about to store that amount, or a writer of that trade was stopped or failed, or it was confirmed
    without its amount before the run.
   */
  lemma {:induction false} MinedAmountsAreStored(s: State, steps: seq<Step>, limit: Limit)
    requires Init(s) && Run(s, steps, limit).Some?
    ensures
      var s' := Run(s, steps, limit).value;
      |s.rows| <= |s'.rows| && forall i :: 0 <= i < |s'.rows| ==> AmountKept(s, s', steps, i)
  {
    if steps != [] {
      hide Apply, Enabled, AmountKept;
      var n := |steps| - 1;
      var mid := Run(s, steps[..n], limit).value;
      MinedAmountsAreStored(s, steps[..n], limit);
      RunKeepsStatus(s, steps[..n], limit);
      ConfirmedIsAbsorbing(mid, steps[n]);
      forall i | 0 <= i < |Apply(mid, steps[n]).rows| ensures AmountKept(s, Apply(mid, steps[n]), steps, i) {
        AmountKeptStep(s, mid, steps, i);
      }
    }
  }

  // ----- Writers nobody disturbs -----

  ghost predicate SettlesAsReceipt(s: State, steps: seq<Step>, w: nat)
    requires w < |s.writers|
  {
    !Disturbed(steps, w) ==>
      && !s.writers[w].phase.SawError? && !s.writers[w].phase.Erring?
      && (s.writers[w].phase == Done ==> s.writers[w].row < |s.rows| && AsReceipt(s, s.rows[s.writers[w].row]))
  }

  /** A trade that says what its receipt says goes on doing so. */
  lemma AsReceiptStays(s: State, step: Step, i: nat)
    requires StatusInv(s) && Enabled(s, step) && i < |s.rows| && AsReceipt(s, s.rows[i])
    ensures i < |Apply(s, step).rows| && AsReceipt(Apply(s, step), Apply(s, step).rows[i])
  {
    hide Apply, Enabled;
    RowFrom(s, step, i);
    ReceiptsStay(s, step);
    WriterSteps(s, step);
    if step.Mark? || step.Receive? {
      assert WriterTruth(s, s.writers[step.w]);
    }
  }

  lemma SettlesStep(s: State, steps: seq<Step>, w: nat)
    requires steps != [] && StatusInv(s) && Enabled(s, steps[|steps| - 1])
    requires w < |Apply(s, steps[|steps| - 1]).writers|
    requires w < |s.writers| ==> SettlesAsReceipt(s, steps[..|steps| - 1], w)
    ensures SettlesAsReceipt(Apply(s, steps[|steps| - 1]), steps, w)
  {
    hide Apply, Enabled, Interrupted, Misled;
    var step := steps[|steps| - 1];
    DisturbedStays(steps, w);
    if w >= |s.writers| {
      NewIsSelected(s, step, w);
    } else if !Disturbed(steps, w) {
      WriterStays(s, step, w);
      if Apply(s, step).writers[w] == s.writers[w] {
        if s.writers[w].phase == Done {
          AsReceiptStays(s, step, s.writers[w].row);
        }
      } else {
        OwnStepSettles(s, step, w);
      }
    }
  }

  lemma NewIsSelected(s: State, step: Step, w: nat)
    requires Enabled(s, step) && |s.writers| <= w < |Apply(s, step).writers|
    ensures Apply(s, step).writers[w].phase == Selected
  {
    hide DoSubmit, DoInsert, DoCredit, DoFinish, Gate, CrashedPhase;
  }

  lemma OwnStepSettles(s: State, step: Step, w: nat)
    requires StatusInv(s) && Enabled(s, step) && w < |s.writers|
    requires (step.Observe? || step.Mark? || step.Receive?) && step.w == w
    requires !s.writers[w].phase.SawError? && !s.writers[w].phase.Erring?
    ensures
      var s' := Apply(s, step);
      && w < |s'.writers| && !s'.writers[w].phase.SawError? && !s'.writers[w].phase.Erring?
      && (s'.writers[w].phase == Done ==> s'.writers[w].row < |s'.rows| && AsReceipt(s', s'.rows[s'.writers[w].row]))
  {
    var row := s.writers[w].row;
    assert WriterTruth(s, s.writers[w]);
    assert Coherent(s.rows[row]) && StatusTruth(s.receipts, s.rows[row]);
  }

  /**
    In every run, a writer that is done and was never disturbed leaves its trade as the receipt says: the
    amount of a transaction that succeeded, a failure where it was reverted.
   */
  lemma {:induction false} UndisturbedWritersSettle(s: State, steps: seq<Step>, limit: Limit)
    requires Init(s) && Run(s, steps, limit).Some?
    ensures
      var s' := Run(s, steps, limit).value;
      forall w :: 0 <= w < |s'.writers| ==> SettlesAsReceipt(s', steps, w)
  {
    if steps != [] {
      hide Apply, Enabled, SettlesAsReceipt;
      var n := |steps| - 1;
      var mid := Run(s, steps[..n], limit).value;
      UndisturbedWritersSettle(s, steps[..n], limit);
      RunKeepsStatus(s, steps[..n], limit);
      forall w | 0 <= w < |Apply(mid, steps[n]).writers| ensures SettlesAsReceipt(Apply(mid, steps[n]), steps, w) {
        SettlesStep(mid, steps, w);
      }
    }
  }

  /** A writer that is stopped is done, and a writer that is done never writes again. */
  lemma StopIsDone(s: State, w: nat)
    requires Enabled(s, WriterStops(w))
    ensures w < |Apply(s, WriterStops(w)).writers| && Apply(s, WriterStops(w)).writers[w].phase == Done
    ensures Apply(s, WriterStops(w)).rows == s.rows
  {
  }

  lemma {:induction false} DoneForever(s: State, steps: seq<Step>, limit: Limit, w: nat)
    requires Run(s, steps, limit).Some? && w < |s.writers| && s.writers[w].phase == Done
    ensures
      var s' := Run(s, steps, limit).value;
      w < |s'.writers| && s'.writers[w] == s.writers[w]
  {
    if steps != [] {
      hide Apply, Enabled;
      var n := |steps| - 1;
      var mid := Run(s, steps[..n], limit).value;
      DoneForever(s, steps[..n], limit, w);
      WriterStays(mid, steps[n], w);
      DoneTakesNoStep(mid, steps[n], w);
    }
  }

  lemma DoneTakesNoStep(s: State, step: Step, w: nat)
    requires Enabled(s, step) && w < |s.writers| && s.writers[w].phase == Done
    ensures w < |Apply(s, step).writers| && Apply(s, step).writers[w] == s.writers[w]
  {
    hide DoSubmit, DoInsert, DoCredit, DoFinish, Gate, CrashedPhase, ConfirmRow, FailRow;
  }

  // ----- Reasons -----

  /** A finaliser of the trade was disturbed in this way. */
  ghost predicate FinaliserMet(s: State, steps: seq<Step>, i: nat, lookup: bool, detail: string) {
    exists w :: 0 <= w < |s.writers| && s.writers[w].row == i && s.writers[w].kind == Finaliser
      && (if lookup then ObserveError(w, detail) else WriterFails(w, detail)) in steps
  }

  ghost predicate ReasonExplained(start: State, s: State, steps: seq<Step>, i: nat)
    requires i < |s.rows|
  {
    || (i < |start.rows| && s.rows[i].failureReason == start.rows[i].failureReason)
    || match s.rows[i].failureReason
       case None => true
       case Some(TransactionReverted) => HasReceipt(s, s.rows[i]) && ReceiptOf(s, s.rows[i]).Revert?
       case Some(ReceiptLookupError(detail)) => FinaliserMet(s, steps, i, true, detail)
       case Some(ReceiptFinalizationError(detail)) => FinaliserMet(s, steps, i, false, detail)
  }

  /** What a writer is about to blame is what it met. */
  ghost predicate BlameExplained(s: State, steps: seq<Step>, w: nat)
    requires w < |s.writers|
  {
    match s.writers[w].phase
    case SawError(detail) => ObserveError(w, detail) in steps
    case Erring(detail) => s.writers[w].kind == Finaliser && WriterFails(w, detail) in steps
    case _ => true
  }

  lemma BlameStep(s: State, steps: seq<Step>, w: nat)
    requires steps != [] && Enabled(s, steps[|steps| - 1]) && w < |Apply(s, steps[|steps| - 1]).writers|
    requires w < |s.writers| ==> BlameExplained(s, steps[..|steps| - 1], w)
    ensures BlameExplained(Apply(s, steps[|steps| - 1]), steps, w)
  {
    hide Apply, Enabled;
    var (before, step) := (steps[..|steps| - 1], steps[|steps| - 1]);
    assert steps == before + [step];
    if w >= |s.writers| {
      NewIsSelected(s, step, w);
    } else {
      WriterStays(s, step, w);
      if Apply(s, step).writers[w] != s.writers[w] {
        OwnBlame(s, step, w);
      }
    }
  }

  lemma OwnBlame(s: State, step: Step, w: nat)
    requires Enabled(s, step) && w < |s.writers| && w < |Apply(s, step).writers|
    requires Apply(s, step).writers[w] != s.writers[w]
    ensures
      match Apply(s, step).writers[w].phase
      case SawError(detail) => step == ObserveError(w, detail)
      case Erring(detail) => s.writers[w].kind == Finaliser && step == WriterFails(w, detail)
      case _ => true
  {
    hide DoSubmit, DoInsert, DoCredit, DoFinish, Gate, CrashedPhase, ConfirmRow, FailRow;
  }

  lemma MetStays(s: State, steps: seq<Step>, i: nat, lookup: bool, detail: string)
    requires steps != [] && Enabled(s, steps[|steps| - 1])
    requires FinaliserMet(s, steps[..|steps| - 1], i, lookup, detail)
    ensures FinaliserMet(Apply(s, steps[|steps| - 1]), steps, i, lookup, detail)
  {
    hide Apply, Enabled;
    var (before, step) := (steps[..|steps| - 1], steps[|steps| - 1]);
    assert steps == before + [step];
    var w :| 0 <= w < |s.writers| && s.writers[w].row == i && s.writers[w].kind == Finaliser
      && (if lookup then ObserveError(w, detail) else WriterFails(w, detail)) in before;
    WriterStays(s, step, w);
  }

  lemma ReasonStep(start: State, s: State, before: seq<Step>, step: Step, i: nat)
    requires StatusInv(s) && Enabled(s, step) && i < |Apply(s, step).rows| && |start.rows| <= |s.rows|
    requires i < |s.rows| ==> ReasonExplained(start, s, before, i)
    requires forall w :: 0 <= w < |s.writers| ==> BlameExplained(s, before, w)
    ensures ReasonExplained(start, Apply(s, step), before + [step], i)
  {
    hide Apply, Enabled, FinaliserMet, Coherent;
    var steps := before + [step];
    var s' := Apply(s, step);
    assert steps[..|steps| - 1] == before;
    ReceiptsStay(s, step);
    if i >= |s.rows| {
      NewHasNoReason(s, step, i);
    } else {
      RowFrom(s, step, i);
      WriterSteps(s, step);
      if s'.rows[i].failureReason == s.rows[i].failureReason {
        match s.rows[i].failureReason
        case Some(ReceiptLookupError(detail)) =>
          if FinaliserMet(s, before, i, true, detail) {
            MetStays(s, steps, i, true, detail);
          }
        case Some(ReceiptFinalizationError(detail)) =>
          if FinaliserMet(s, before, i, false, detail) {
            MetStays(s, steps, i, false, detail);
          }
        case _ =>
      } else {
        assert WriterTruth(s, s.writers[step.w]) && BlameExplained(s, before, step.w);
        BlamedIsMet(s, steps);
      }
    }
  }

  /** The writer that marks a trade after an error met that error. */
  lemma BlamedIsMet(s: State, steps: seq<Step>)
    requires steps != [] && Enabled(s, steps[|steps| - 1]) && steps[|steps| - 1].Mark?
    requires BlameExplained(s, steps[..|steps| - 1], steps[|steps| - 1].w)
    ensures
      var (w, s') := (steps[|steps| - 1].w, Apply(s, steps[|steps| - 1]));
      && (s.writers[w].phase.SawError? && s.writers[w].kind == Finaliser ==>
            FinaliserMet(s', steps, s.writers[w].row, true, s.writers[w].phase.detail))
      && (s.writers[w].phase.Erring? ==> FinaliserMet(s', steps, s.writers[w].row, false, s.writers[w].phase.detail))
  {
    var (before, step) := (steps[..|steps| - 1], steps[|steps| - 1]);
    assert steps == before + [step];
    WriterStays(s, step, step.w);
    assert Apply(s, step).writers[step.w].row == s.writers[step.w].row;
  }

  lemma NewHasNoReason(s: State, step: Step, i: nat)
    requires Enabled(s, step) && |s.rows| <= i < |Apply(s, step).rows|
    ensures Apply(s, step).rows[i].failureReason == None
  {
    hide DoSubmit, DoCredit, DoFinish, Gate, CrashedPhase, Seen;
  }

  /** Every failure reason written in a run tells what happened: a reverted receipt, or what the finaliser met. */
  lemma {:induction false} ReasonsAreTrue(s: State, steps: seq<Step>, limit: Limit)
    requires Init(s) && Run(s, steps, limit).Some?
    ensures
      var s' := Run(s, steps, limit).value;
      && |s.rows| <= |s'.rows|
      && (forall i :: 0 <= i < |s'.rows| ==> ReasonExplained(s, s', steps, i))
      && (forall w :: 0 <= w < |s'.writers| ==> BlameExplained(s', steps, w))
  {
    if steps != [] {
      hide Apply, Enabled, ReasonExplained, BlameExplained;
      var n := |steps| - 1;
      var mid := Run(s, steps[..n], limit).value;
      var s' := Apply(mid, steps[n]);
      ReasonsAreTrue(s, steps[..n], limit);
      RunKeepsStatus(s, steps[..n], limit);
      ConfirmedIsAbsorbing(mid, steps[n]);
      forall i | 0 <= i < |s'.rows| ensures ReasonExplained(s, s', steps, i) {
        assert steps[..n] + [steps[n]] == steps;
        ReasonStep(s, mid, steps[..n], steps[n], i);
      }
      forall w | 0 <= w < |s'.writers| ensures BlameExplained(s', steps, w) {
        BlameStep(mid, steps, w);
      }
    } else {
      StartExplained(s);
    }
  }

  lemma StartExplained(s: State)
    requires Init(s)
    ensures forall i :: 0 <= i < |s.rows| ==> ReasonExplained(s, s, [], i)
  {
  }

  // ----- Totals -----

  function Paid(s: State, t: Trade): nat {
    if t.status == Confirmed && HasReceipt(s, t) then
      match ReceiptOf(s, t)
      case Succeeded(Some(amount)) => amount
      case _ => 0
    else 0
  }

  /** What the receipts of a session's confirmed trades say was received. */
  ghost function PaidOf(session: string, s: State): Trade -> nat {
    (t: Trade) => if t.key.session == session then Paid(s, t) else 0
  }

  /** The part of it that no row tells. */
  ghost function MissingOf(session: string, s: State): Trade -> nat {
    (t: Trade) => if t.key.session == session && t.finalReceived == None then Paid(s, t) else 0
  }

  lemma {:induction false} PaidIsReportedOrMissing(s: State, rows: Table, session: string)
    requires forall t :: t in rows ==> StatusTruth(s.receipts, t)
    ensures Sum(PaidOf(session, s), rows) == Sum(ConfirmedReceivedOf(session), rows) + Sum(MissingOf(session, s), rows)
  {
    if rows != [] {
      var n := |rows| - 1;
      assert rows[n] in rows && forall t :: t in rows[..n] ==> t in rows;
      PaidIsReportedOrMissing(s, rows[..n], session);
    }
  }

  lemma {:induction false} NothingMissing(s: State, rows: Table, session: string)
    requires forall t :: t in rows ==> MissingOf(session, s)(t) == 0
    ensures Sum(MissingOf(session, s), rows) == 0
  {
    if rows != [] {
      var n := |rows| - 1;
      assert rows[n] in rows && forall t :: t in rows[..n] ==> t in rows;
      NothingMissing(s, rows[..n], session);
    }
  }

  /** Every amount of the session is stored: no writer of its trades was kept from it or is still at it. */
  ghost predicate AllStored(start: State, s: State, steps: seq<Step>, session: string) {
    && (forall i :: 0 <= i < |start.rows| && start.rows[i].key.session == session ==> !Untold(start, i))
    && (forall w :: 0 <= w < |s.writers| ==> !s.writers[w].phase.Receiving? && !Interrupted(steps, w))
  }

  /**
    In every reachable state the gateway's confirmed-only total is all that the table tells; what the
    receipts of the confirmed trades say is that and the amounts that are missing; and none is missing
    unless a writer was stopped, failed or is still about to store it.
   */
  lemma {:induction false} ReportedTotalIsComplete(s: State, steps: seq<Step>, limit: Limit, session: string)
    requires Init(s) && Run(s, steps, limit).Some?
    ensures
      var s' := Run(s, steps, limit).value;
      var reported := Sum(ConfirmedReceivedOf(session), s'.rows);
      && reported == Sum(ReceivedOf(session), s'.rows)
      && Sum(PaidOf(session, s'), s'.rows) == reported + Sum(MissingOf(session, s'), s'.rows)
      && (AllStored(s, s', steps, session) ==> Sum(PaidOf(session, s'), s'.rows) == reported)
  {
    hide Run, Sum;
    var s' := Run(s, steps, limit).value;
    RunKeepsStatus(s, steps, limit);
    ConfirmedTotalIsTotal(s'.rows, session);
    PaidIsReportedOrMissing(s', s'.rows, session);
    if AllStored(s, s', steps, session) {
      MinedAmountsAreStored(s, steps, limit);
      KeysStay(s, steps, limit);
      forall t | t in s'.rows ensures MissingOf(session, s')(t) == 0 {
        var i :| 0 <= i < |s'.rows| && s'.rows[i] == t;
        assert AmountKept(s, s', steps, i);
      }
      NothingMissing(s', s'.rows, session);
    }
  }

  lemma {:induction false} KeysStay(s: State, steps: seq<Step>, limit: Limit)
    requires Run(s, steps, limit).Some?
    ensures
      var s' := Run(s, steps, limit).value;
      |s.rows| <= |s'.rows| && forall i :: 0 <= i < |s.rows| ==> s'.rows[i].key == s.rows[i].key
  {
    if steps != [] {
      hide Apply, Enabled;
      KeysStay(s, steps[..|steps| - 1], limit);
      ConfirmedIsAbsorbing(Run(s, steps[..|steps| - 1], limit).value, steps[|steps| - 1]);
    }
  }
}
