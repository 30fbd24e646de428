/** What every interleaving keeps true of the ledger: conservation, and one row and one credit per trigger. */
module LedgerSafety {
  import opened Wrappers
  import opened TradeTable
  import opened TradeProtocol
  import opened Sums

  // ----- Invariant -----

  /** The handler made the row of its trigger. */
  predicate Owner(p: Phase) {
    p.Recorded? || p.Credited? || p.Finished? || p.Stopped? || p.Orphaned?
  }

  /** Sells with a row whose session was not credited: between the two statements, or crashed there. */
  ghost function Uncredited(session: string): Handler -> nat {
    (h: Handler) =>
      if h.key.session == session && (h.phase.Recorded? || h.phase.Orphaned?) then h.phase.sell else 0
  }

  /** Sells on chain without a row of their own: not recorded yet, lost in a crash, or duplicates. */
  ghost function Unrecorded(session: string): Handler -> nat {
    (h: Handler) =>
      if h.key.session == session && (h.phase.Sent? || h.phase.Lost? || h.phase.Duplicate?) then h.phase.sell else 0
  }

  ghost predicate BooksOf(s: State, id: string) {
    id in s.sessions ==> Sum(SellOf(id), s.rows) == s.sessions[id].sold + Sum(Uncredited(id), s.handlers)
  }

  ghost predicate ChainOf(s: State, id: string) {
    id in s.submitted ==> s.submitted[id] == Sum(SellOf(id), s.rows) + Sum(Unrecorded(id), s.handlers)
  }

  ghost predicate BooksBalance(s: State) {
    forall id :: BooksOf(s, id) && ChainOf(s, id)
  }

  ghost predicate OwnersMatch(s: State) {
    forall i :: 0 <= i < |s.handlers| && Owner(s.handlers[i].phase) ==> OwnsRow(s.rows, s.handlers[i])
  }

  predicate OwnsRow(rows: Table, h: Handler)
    requires Owner(h.phase)
  {
    && h.phase.row < |rows|
    && rows[h.phase.row].key == h.key
    && rows[h.phase.row].sellAmount == h.phase.sell
    && (h.phase.Recorded? || h.phase.Credited? ==> rows[h.phase.row].sellTxHash == Some(h.phase.tx))
  }

  /** At most one handler owns a row, so at most one ever credits a trigger. */
  ghost predicate OneOwner(s: State) {
    forall i, j :: 0 <= i < j < |s.handlers| && Owner(s.handlers[i].phase) && Owner(s.handlers[j].phase) ==>
      s.handlers[i].key != s.handlers[j].key
  }

  ghost predicate Scoped(s: State) {
    && s.submitted.Keys == s.sessions.Keys
    && forall i :: 0 <= i < |s.handlers| ==> s.handlers[i].key.session in s.sessions
  }

  ghost predicate Structured(s: State) {
    UniqueKeys(s.rows) && Scoped(s) && OwnersMatch(s) && OneOwner(s)
  }

  ghost predicate LedgerInv(s: State) {
    Structured(s) && BooksBalance(s)
  }

  // ----- Preservation -----

  /** A change of one handler's phase moves exactly that handler's weight. */
  lemma PhaseMoves(s: State, h: nat, p: Phase, weight: Handler -> nat)
    requires InPhase(s, h)
    ensures Sum(weight, SetPhase(s, h, p).handlers) + weight(s.handlers[h])
         == Sum(weight, s.handlers) + weight(s.handlers[h].(phase := p))
  {
    SumUpdate(weight, s.handlers, h, s.handlers[h].(phase := p));
  }

  predicate StatusStep(step: Step) {
    step.Mark? || step.Receive?
  }

  /** Every step of a handler after its snapshot, except the INSERT. */
  predicate HandlerStep(step: Step) {
    step.Skip? || step.Submit? || step.Credit? || step.Finish? || step.Crash?
  }

  /** Status steps rewrite one row and leave its key, sell and transaction alone. */
  lemma StatusStepEffect(s: State, step: Step)
    requires Enabled(s, step) && StatusStep(step)
    ensures Apply(s, step) == s.(rows := Apply(s, step).rows, writers := Apply(s, step).writers)
    ensures |Apply(s, step).rows| == |s.rows|
    ensures forall i :: 0 <= i < |s.rows| ==>
              && Apply(s, step).rows[i].key == s.rows[i].key
              && Apply(s, step).rows[i].sellAmount == s.rows[i].sellAmount
              && Apply(s, step).rows[i].sellTxHash == s.rows[i].sellTxHash
              && Apply(s, step).rows[i].executedAt == s.rows[i].executedAt
  {
  }

  lemma {:induction false} SameSellsSameTotal(rows: Table, rows': Table, id: string)
    requires |rows| == |rows'|
    requires forall i :: 0 <= i < |rows| ==> rows[i].key == rows'[i].key && rows[i].sellAmount == rows'[i].sellAmount
    ensures Sum(SellOf(id), rows) == Sum(SellOf(id), rows')
  {
    if rows != [] {
      SameSellsSameTotal(rows[..|rows| - 1], rows'[..|rows| - 1], id);
    }
  }

  lemma StatusStepKeeps(s: State, step: Step)
    requires LedgerInv(s) && Enabled(s, step) && StatusStep(step)
    ensures LedgerInv(Apply(s, step))
  {
    var s' := Apply(s, step);
    StatusStepEffect(s, step);
    forall id ensures BooksOf(s', id) && ChainOf(s', id) {
      SameSellsSameTotal(s.rows, s'.rows, id);
      assert BooksOf(s, id) && ChainOf(s, id);
    }
  }

  lemma SnapshotKeeps(s: State, key: TriggerKey)
    requires LedgerInv(s) && Enabled(s, Snapshot(key))
    ensures LedgerInv(Apply(s, Snapshot(key)))
  {
    var s' := Apply(s, Snapshot(key));
    var h := s'.handlers[|s.handlers|];
    forall id ensures BooksOf(s', id) && ChainOf(s', id) {
      SumAppend(Uncredited(id), s.handlers, h);
      SumAppend(Unrecorded(id), s.handlers, h);
      assert BooksOf(s, id) && ChainOf(s, id);
    }
  }

  /** What a handler step does to the two balances of a session, on the weights of the one handler. */
  lemma HandlerStepEffect(s: State, step: Step, id: string)
    requires Scoped(s) && Enabled(s, step) && HandlerStep(step) && id in s.sessions
    ensures
      var s' := Apply(s, step);
      var (h, h') := (s.handlers[step.h], s'.handlers[step.h]);
      && s'.handlers == SetPhase(s, step.h, h'.phase).handlers
      && s'.rows == s.rows && id in s'.sessions && id in s'.submitted
      && s'.sessions[id].sold + Uncredited(id)(h') == s.sessions[id].sold + Uncredited(id)(h)
      && s'.submitted[id] + Unrecorded(id)(h) == s.submitted[id] + Unrecorded(id)(h')
  {
    hide DoMark, Seen, DoInsert, Gate, Completes;
  }

  lemma HandlerStepBooks(s: State, step: Step, id: string)
    requires Structured(s) && BooksOf(s, id) && ChainOf(s, id) && Enabled(s, step) && HandlerStep(step)
    requires id in s.sessions
    ensures BooksOf(Apply(s, step), id) && ChainOf(Apply(s, step), id)
  {
    HandlerStepEffect(s, step, id);
    var p := Apply(s, step).handlers[step.h].phase;
    PhaseMoves(s, step.h, p, Uncredited(id));
    PhaseMoves(s, step.h, p, Unrecorded(id));
  }

  /** No step adds a session. */
  lemma NoNewSession(s: State, step: Step)
    requires Scoped(s) && Enabled(s, step)
    ensures Apply(s, step).sessions.Keys == s.sessions.Keys && Apply(s, step).submitted.Keys == s.submitted.Keys
  {
    hide DoSubmit, DoInsert, DoCredit, DoFinish, DoMark, Gate, CrashedPhase, Seen, ReceiveRow;
  }

  lemma HandlerStepStructure(s: State, step: Step)
    requires Structured(s) && Enabled(s, step) && HandlerStep(step)
    ensures Structured(Apply(s, step))
  {
    var s' := Apply(s, step);
    assert s'.rows == s.rows && |s'.handlers| == |s.handlers|;
    forall i | 0 <= i < |s.handlers|
      ensures s'.handlers[i].key == s.handlers[i].key
      ensures Owner(s'.handlers[i].phase) ==> Owner(s.handlers[i].phase) && OwnsRow(s.rows, s'.handlers[i])
    {
      if Owner(s.handlers[i].phase) {
        assert OwnsRow(s.rows, s.handlers[i]);
      }
    }
  }

  lemma InsertEffect(s: State, h: nat, now: int, id: string)
    requires Enabled(s, Insert(h, now))
    ensures
      var s' := Apply(s, Insert(h, now));
      var (before, after) := (s.handlers[h], s'.handlers[h]);
      && s'.handlers == SetPhase(s, h, after.phase).handlers
      && s'.sessions == s.sessions && s'.submitted == s.submitted
      && Sum(SellOf(id), s'.rows) + Uncredited(id)(before) == Sum(SellOf(id), s.rows) + Uncredited(id)(after)
      && Sum(SellOf(id), s'.rows) + Unrecorded(id)(after) == Sum(SellOf(id), s.rows) + Unrecorded(id)(before)
  {
    hide Sum, HasKey;
    SumAppend(SellOf(id), s.rows, NewTrade(s.handlers[h].key, PhaseOf(s, h).sell, Some(PhaseOf(s, h).tx), now));
  }

  lemma InsertBooks(s: State, h: nat, now: int, id: string)
    requires BooksOf(s, id) && ChainOf(s, id) && Enabled(s, Insert(h, now))
    ensures BooksOf(Apply(s, Insert(h, now)), id) && ChainOf(Apply(s, Insert(h, now)), id)
  {
    InsertEffect(s, h, now, id);
    var p := Apply(s, Insert(h, now)).handlers[h].phase;
    PhaseMoves(s, h, p, Uncredited(id));
    PhaseMoves(s, h, p, Unrecorded(id));
  }

  lemma InsertStructure(s: State, h: nat, now: int)
    requires Structured(s) && Enabled(s, Insert(h, now))
    ensures Structured(Apply(s, Insert(h, now)))
  {
    var s' := Apply(s, Insert(h, now));
    assert forall i :: 0 <= i < |s.rows| ==> s'.rows[i] == s.rows[i];
    forall i | 0 <= i < |s.handlers| && i != h && Owner(s.handlers[i].phase)
      ensures HasKey(s.rows, s.handlers[i].key) && OwnsRow(s'.rows, s.handlers[i])
    {
      assert OwnsRow(s.rows, s.handlers[i]);
    }
  }

  lemma StepKeeps(s: State, step: Step)
    requires LedgerInv(s) && Enabled(s, step)
    ensures LedgerInv(Apply(s, step))
  {
    var s' := Apply(s, step);
    if StatusStep(step) {
      StatusStepKeeps(s, step);
    } else if HandlerStep(step) {
      HandlerStepStructure(s, step);
      forall id ensures BooksOf(s', id) && ChainOf(s', id) {
        assert BooksOf(s, id) && ChainOf(s, id);
        if id in s.sessions {
          HandlerStepBooks(s, step, id);
        } else {
          NoNewSession(s, step);
        }
      }
    } else if step.Insert? {
      InsertStructure(s, step.h, step.now);
      forall id ensures BooksOf(s', id) && ChainOf(s', id) {
        assert BooksOf(s, id) && ChainOf(s, id);
        InsertBooks(s, step.h, step.now, id);
      }
    } else if step.Snapshot? {
      SnapshotKeeps(s, step.key);
    } else {
      assert s'.rows == s.rows && s'.handlers == s.handlers && s'.submitted == s.submitted;
      forall id ensures BooksOf(s', id) && ChainOf(s', id) {
        assert BooksOf(s, id) && ChainOf(s, id);
      }
    }
  }

  /** The invariant holds in every state a run reaches from balanced books. */
  lemma {:induction false} RunKeepsLedger(s: State, steps: seq<Step>, limit: Limit)
    requires Balanced(s) && Run(s, steps, limit).Some?
    ensures LedgerInv(Run(s, steps, limit).value)
    ensures Run(s, steps, limit).value.sessions.Keys == s.sessions.Keys
  {
    if steps != [] {
      var n := |steps| - 1;
      RunKeepsLedger(s, steps[..n], limit);
      StepKeeps(Run(s, steps[..n], limit).value, steps[n]);
      NoNewSession(Run(s, steps[..n], limit).value, steps[n]);
    }
  }

  /**
    Over every interleaving of handlers, redeliveries and crashes: the recorded sells of a session are
    its amount sold plus the sells stopped between the two statements; what went to the chain is that
    plus the sells without a row; each trigger has one row at most, and one handler at most that made
    it and so can credit it.
   */
  lemma {:induction false} Conservation(s: State, steps: seq<Step>, limit: Limit, session: string)
    requires Balanced(s) && Run(s, steps, limit).Some? && session in s.sessions
    ensures
      var s' := Run(s, steps, limit).value;
      && session in s'.sessions && session in s'.submitted
      && Sum(SellOf(session), s'.rows) == s'.sessions[session].sold + Sum(Uncredited(session), s'.handlers)
      && s'.submitted[session] == Sum(SellOf(session), s'.rows) + Sum(Unrecorded(session), s'.handlers)
      && (forall i, j :: 0 <= i < j < |s'.rows| ==> s'.rows[i].key != s'.rows[j].key)
      && (forall i, j :: 0 <= i < j < |s'.handlers| && Owner(s'.handlers[i].phase) && Owner(s'.handlers[j].phase) ==>
            s'.handlers[i].key != s'.handlers[j].key)
  {
    RunKeepsLedger(s, steps, limit);
    assert BooksOf(Run(s, steps, limit).value, session) && ChainOf(Run(s, steps, limit).value, session);
  }
}
