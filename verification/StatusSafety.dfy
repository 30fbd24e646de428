/** What every interleaving of finalisers, error paths and reconcilers keeps true of a trade's status. */
module StatusSafety {
  import opened Wrappers
  import opened TradeTable
  import opened TradeProtocol
  import opened Sums
  import opened LedgerSafety

  // ----- Invariant -----

  /** A writer writes to the trade whose transaction it looks up, and only what the receipt says. */
  ghost predicate WriterTruth(s: State, w: Writer) {
    && w.row < |s.rows| && s.rows[w.row].sellTxHash == Some(w.tx)
    && (w.phase.SawMined? ==> w.tx in s.receipts && s.receipts[w.tx] == Succeeded(w.phase.received))
    && (w.phase.SawReverted? ==> w.tx in s.receipts && s.receipts[w.tx] == Revert)
    && (w.phase.Receiving? ==>
          && w.tx in s.receipts && s.receipts[w.tx] == Succeeded(Some(w.phase.amount))
          && s.rows[w.row].status == Confirmed)
    && (w.phase.Erring? ==> w.kind == Finaliser)
  }

  ghost predicate StatusInv(s: State) {
    && AllCoherent(s.rows)
    && (forall i :: 0 <= i < |s.rows| ==> StatusTruth(s.receipts, s.rows[i]))
    && (forall w :: 0 <= w < |s.writers| ==> WriterTruth(s, s.writers[w]))
  }

  // ----- Preservation -----

  lemma MarkKeeps(s: State, w: nat)
    requires Enabled(s, Mark(w))
    ensures |DoMark(s, w).rows| == |s.rows|
    ensures forall i :: 0 <= i < |s.rows| ==>
              && (s.rows[i].status == Confirmed ==> DoMark(s, w).rows[i].status == Confirmed)
              && DoMark(s, w).rows[i].key == s.rows[i].key
              && DoMark(s, w).rows[i].sellAmount == s.rows[i].sellAmount
              && DoMark(s, w).rows[i].sellTxHash == s.rows[i].sellTxHash
  {
  }

  lemma OthersKeepRows(s: State, step: Step)
    requires Enabled(s, step) && !step.Mark? && !step.Insert? && !step.Receive?
    ensures Apply(s, step).rows == s.rows
  {
  }

  /** No step takes a trade out of 'confirmed', and no step edits what was traded. */
  lemma ConfirmedIsAbsorbing(s: State, step: Step)
    requires Enabled(s, step)
    ensures |s.rows| <= |Apply(s, step).rows|
    ensures forall i :: 0 <= i < |s.rows| ==>
              && (s.rows[i].status == Confirmed ==> Apply(s, step).rows[i].status == Confirmed)
              && Apply(s, step).rows[i].key == s.rows[i].key
              && Apply(s, step).rows[i].sellAmount == s.rows[i].sellAmount
              && Apply(s, step).rows[i].sellTxHash == s.rows[i].sellTxHash
  {
    if step.Mark? {
      MarkKeeps(s, step.w);
    } else if !step.Insert? && !step.Receive? {
      OthersKeepRows(s, step);
    }
  }

  /** Receipts never change once they appear. */
  lemma ReceiptsStay(s: State, step: Step)
    requires Enabled(s, step)
    ensures forall tx :: tx in s.receipts ==>
              tx in Apply(s, step).receipts && Apply(s, step).receipts[tx] == s.receipts[tx]
  {
  }

  /** What a writer writes is coherent, and true of the receipt it saw. */
  lemma MarkedRowsAreTrue(s: State, w: nat, i: nat)
    requires Enabled(s, Mark(w)) && i < |s.rows| && WriterTruth(s, s.writers[w])
    requires Coherent(s.rows[i]) && StatusTruth(s.receipts, s.rows[i])
    ensures Coherent(DoMark(s, w).rows[i]) && StatusTruth(s.receipts, DoMark(s, w).rows[i])
  {
  }

  lemma ReceivedRowIsTrue(s: State, w: nat, i: nat)
    requires Enabled(s, Receive(w)) && i < |s.rows| && WriterTruth(s, s.writers[w])
    requires Coherent(s.rows[i]) && StatusTruth(s.receipts, s.rows[i])
    ensures Coherent(Apply(s, Receive(w)).rows[i]) && StatusTruth(s.receipts, Apply(s, Receive(w)).rows[i])
  {
  }

  lemma RowsStayTrue(s: State, step: Step)
    requires StatusInv(s) && Enabled(s, step)
    ensures forall i :: 0 <= i < |Apply(s, step).rows| ==>
              Coherent(Apply(s, step).rows[i]) && StatusTruth(Apply(s, step).receipts, Apply(s, step).rows[i])
  {
    hide DoMark, Coherent;
    var s' := Apply(s, step);
    ReceiptsStay(s, step);
    forall i | 0 <= i < |s'.rows| ensures Coherent(s'.rows[i]) && StatusTruth(s'.receipts, s'.rows[i]) {
      assert i < |s.rows| ==> Coherent(s.rows[i]) && StatusTruth(s.receipts, s.rows[i]);
      if step.Mark? {
        MarkedRowsAreTrue(s, step.w, i);
      } else if step.Receive? {
        ReceivedRowIsTrue(s, step.w, i);
      } else if step.Insert? {
        InsertedRowIsTrue(s, step.h, step.now, i);
      } else {
        OthersKeepRows(s, step);
      }
    }
  }

  lemma InsertedRowIsTrue(s: State, h: nat, now: int, i: nat)
    requires Enabled(s, Insert(h, now)) && i < |DoInsert(s, h, now).rows|
    requires i < |s.rows| ==> Coherent(s.rows[i]) && StatusTruth(s.receipts, s.rows[i])
    ensures Coherent(DoInsert(s, h, now).rows[i]) && StatusTruth(s.receipts, DoInsert(s, h, now).rows[i])
  {
  }

  /** A writer that did not step keeps its truth: its row can only have gained a status. */
  lemma IdleWriterStaysTrue(s: State, step: Step, w: Writer)
    requires WriterTruth(s, w) && Enabled(s, step)
    ensures WriterTruth(Apply(s, step), w)
  {
    ConfirmedIsAbsorbing(s, step);
    ReceiptsStay(s, step);
  }

  lemma SteppingWriterStaysTrue(s: State, step: Step, w: nat)
    requires Enabled(s, step) && w < |s.writers| && WriterTruth(s, s.writers[w])
    ensures w < |Apply(s, step).writers| && WriterTruth(Apply(s, step), Apply(s, step).writers[w])
  {
    var writer, writer' := s.writers[w], Apply(s, step).writers[w];
    IdleWriterStaysTrue(s, step, writer);
    assert writer' == writer.(phase := writer'.phase);
    assert writer' == writer || step in {Observe(w), Mark(w), Receive(w), WriterStops(w)} ||
           writer'.phase.SawError? || writer'.phase.Erring? || writer'.phase.Done?;
  }

  lemma WritersStayTrue(s: State, step: Step)
    requires StatusInv(s) && OwnersMatch(s) && Enabled(s, step)
    ensures forall w :: 0 <= w < |Apply(s, step).writers| ==> WriterTruth(Apply(s, step), Apply(s, step).writers[w])
  {
    var s' := Apply(s, step);
    forall w | 0 <= w < |s'.writers| ensures WriterTruth(s', s'.writers[w]) {
      if w < |s.writers| {
        SteppingWriterStaysTrue(s, step, w);
      } else {
        NewWriterIsTrue(s, step);
      }
    }
  }

  lemma NewWriterIsTrue(s: State, step: Step)
    requires OwnersMatch(s) && Enabled(s, step) && |Apply(s, step).writers| > |s.writers|
    ensures |Apply(s, step).writers| == |s.writers| + 1
    ensures WriterTruth(Apply(s, step), Apply(s, step).writers[|s.writers|])
  {
    if step.StartFinaliser? {
      assert OwnsRow(s.rows, s.handlers[step.h]);
    }
  }

  /** Status safety and receipt truth, over every run: the invariant holds in every reachable state. */
  lemma {:induction false} RunKeepsStatus(s: State, steps: seq<Step>, limit: Limit)
    requires Init(s) && Run(s, steps, limit).Some?
    ensures StatusInv(Run(s, steps, limit).value)
  {
    if steps != [] {
      var n := |steps| - 1;
      var mid := Run(s, steps[..n], limit).value;
      RunKeepsStatus(s, steps[..n], limit);
      RunKeepsLedger(s, steps[..n], limit);
      RowsStayTrue(mid, steps[n]);
      WritersStayTrue(mid, steps[n]);
    }
  }

  // ----- Failed, though the transaction succeeded -----

  /** The finaliser is about to fail its trade for a reason other than the receipt's status. */
  predicate Blames(w: Writer) {
    w.kind == Finaliser && (w.phase.SawError? || w.phase.Erring?)
  }

  predicate MinedWell(s: State, i: nat) {
    && i < |s.rows| && s.rows[i].sellTxHash.Some?
    && s.rows[i].sellTxHash.value in s.receipts && s.receipts[s.rows[i].sellTxHash.value].Succeeded?
  }

  /**
    The steps that turn a trade whose transaction succeeded into a failed one are exactly the marks by
    its own finaliser after an error, while the trade is not confirmed.
   */
  lemma FailedThoughMinedIff(s: State, step: Step, i: nat)
    requires StatusInv(s) && Enabled(s, step) && MinedWell(s, i)
    ensures i < |Apply(s, step).rows|
    ensures s.rows[i].status != Failed && Apply(s, step).rows[i].status == Failed <==>
            step.Mark? && s.writers[step.w].row == i && Blames(s.writers[step.w]) && s.rows[i].status == Submitted
  {
    ConfirmedIsAbsorbing(s, step);
    if step.Mark? {
      assert WriterTruth(s, s.writers[step.w]);
    } else if !step.Insert? && !step.Receive? {
      OthersKeepRows(s, step);
    }
  }

  /** Any finaliser that has not looked yet can do that, whatever its trade's transaction did. */
  lemma AnyFinaliserCanFail(s: State, w: nat, detail: string)
    requires w < |s.writers| && s.writers[w].kind == Finaliser && s.writers[w].phase == Selected
    requires s.writers[w].row < |s.rows| && s.rows[s.writers[w].row].status == Submitted
    ensures Enabled(s, ObserveError(w, detail)) && Enabled(Apply(s, ObserveError(w, detail)), Mark(w))
    ensures
      var after := Apply(Apply(s, ObserveError(w, detail)), Mark(w));
      && after == s.(rows := after.rows, writers := after.writers)
      && |after.rows| == |s.rows| && after.rows[s.writers[w].row].status == Failed
      && after.rows[s.writers[w].row].failureReason == Some(ReceiptLookupError(detail))
      && after.rows[s.writers[w].row].sellTxHash == s.rows[s.writers[w].row].sellTxHash
      && !Enabled(after, StartReconciler(s.writers[w].row))
  {
    hide DoSubmit, DoInsert, DoCredit, DoFinish, Gate, CrashedPhase, Seen;
  }

  /** So can a statement of its own that fails, for as long as it has one left. */
  lemma FailedStatementFails(s: State, w: nat, detail: string)
    requires w < |s.writers| && s.writers[w].kind == Finaliser && s.writers[w].phase != Done
    requires s.writers[w].row < |s.rows| && s.rows[s.writers[w].row].status != Confirmed
    ensures Enabled(s, WriterFails(w, detail)) && Enabled(Apply(s, WriterFails(w, detail)), Mark(w))
    ensures
      var after := Apply(Apply(s, WriterFails(w, detail)), Mark(w));
      && |after.rows| == |s.rows| && after.rows[s.writers[w].row].status == Failed
      && after.rows[s.writers[w].row].failureReason == Some(ReceiptFinalizationError(detail))
  {
    hide DoSubmit, DoInsert, DoCredit, DoFinish, Gate, CrashedPhase, Seen;
  }

  /** No finaliser meets an error of its own; reconcilers may. */
  ghost predicate Undisturbed(s: State, steps: seq<Step>, limit: Limit)
    requires Run(s, steps, limit).Some?
  {
    steps == []
    || (var (mid, last) := (Run(s, steps[..|steps| - 1], limit).value, steps[|steps| - 1]);
        && Undisturbed(s, steps[..|steps| - 1], limit)
        && (last.ObserveError? || last.WriterFails? ==> mid.writers[last.w].kind == Reconciler))
  }

  ghost predicate NobodyBlames(s: State) {
    forall w :: 0 <= w < |s.writers| ==> !Blames(s.writers[w])
  }

  lemma UndisturbedStep(s: State, step: Step)
    requires StatusInv(s) && NobodyBlames(s) && Enabled(s, step)
    requires step.ObserveError? || step.WriterFails? ==> s.writers[step.w].kind == Reconciler
    ensures NobodyBlames(Apply(s, step))
    ensures forall i :: 0 <= i < |Apply(s, step).rows| && Apply(s, step).rows[i].status == Failed ==>
              || (i < |s.rows| && Apply(s, step).rows[i] == s.rows[i])
              || Apply(s, step).rows[i].failureReason == Some(TransactionReverted)
  {
    hide Coherent, StatusTruth, DoSubmit, DoCredit, DoFinish, HasKey, Gate, CrashedPhase;
    if step.Mark? {
      assert WriterTruth(s, s.writers[step.w]);
    } else if step.Receive? {
      assert WriterTruth(s, s.writers[step.w]);
    } else if !step.Insert? {
      OthersKeepRows(s, step);
    }
  }

  /** Where no finaliser meets an error, every trade that fails has a reverted transaction. */
  lemma {:induction false} FailuresAreReverts(s: State, steps: seq<Step>, limit: Limit)
    requires Init(s) && Run(s, steps, limit).Some? && Undisturbed(s, steps, limit)
    ensures NobodyBlames(Run(s, steps, limit).value)
    ensures
      var s' := Run(s, steps, limit).value;
      forall i :: 0 <= i < |s'.rows| && s'.rows[i].status == Failed ==>
        || (i < |s.rows| && s'.rows[i] == s.rows[i])
        || (s'.rows[i].sellTxHash.Some? && s'.rows[i].sellTxHash.value in s'.receipts
            && s'.receipts[s'.rows[i].sellTxHash.value].Revert?)
  {
    RunKeepsStatus(s, steps, limit);
    if steps != [] {
      var n := |steps| - 1;
      var mid := Run(s, steps[..n], limit).value;
      FailuresAreReverts(s, steps[..n], limit);
      RunKeepsStatus(s, steps[..n], limit);
      UndisturbedStep(mid, steps[n]);
      ReceiptsStay(mid, steps[n]);
    }
  }

  /** Once confirmed, confirmed at every later point of the run. */
  lemma {:induction false} ConfirmedForever(s: State, steps: seq<Step>, limit: Limit, n: nat, row: nat)
    requires n <= |steps| && Run(s, steps, limit).Some?
    ensures Run(s, steps[..n], limit).Some?
    ensures
      var early := Run(s, steps[..n], limit).value;
      row < |early.rows| && early.rows[row].status == Confirmed ==>
        row < |Run(s, steps, limit).value.rows| && Run(s, steps, limit).value.rows[row].status == Confirmed
    decreases |steps|
  {
    var last := |steps| - 1;
    if n == |steps| {
      assert steps[..n] == steps;
    } else {
      assert steps[..last][..n] == steps[..n];
      ConfirmedForever(s, steps[..last], limit, n, row);
      ConfirmedIsAbsorbing(Run(s, steps[..last], limit).value, steps[last]);
    }
  }
}
