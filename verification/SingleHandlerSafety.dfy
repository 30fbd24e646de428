/** What one handler at a time guarantees a session: no overselling, and completion by exactly one handler. */
module SingleHandlerSafety {
  import opened Wrappers
  import opened TradeTable
  import opened TradeProtocol
  import opened Sums
  import opened LedgerSafety
  import opened OversellSafety
  import U256

  // ----- Invariant -----

  predicate Open(p: Phase) {
    p.Snapshotted? || p.Sent? || p.Recorded?
  }

  predicate Counted(p: Phase) {
    p.Credited? || p.Finished? || p.Stopped?
  }

  predicate OpenOn(s: State, session: string, i: nat) {
    InPhase(s, i) && s.handlers[i].key.session == session && Open(PhaseOf(s, i))
  }

  predicate CountedOn(s: State, session: string, i: nat) {
    InPhase(s, i) && s.handlers[i].key.session == session && Counted(PhaseOf(s, i))
  }

  /** The handler's credit, by its own snapshot, reaches the total. */
  predicate CompletesOn(s: State, session: string, i: nat) {
    CountedOn(s, session, i) && Completes(PhaseOf(s, i))
  }

  /** A handler in flight saw the current amount sold, and its sell fits what is left. */
  ghost predicate OpenIsCurrent(s: State, session: string, i: nat)
    requires session in s.sessions && OpenOn(s, session, i)
  {
    var (p, now) := (PhaseOf(s, i), s.sessions[session]);
    && p.total == now.total && p.sold == now.sold
    && (!p.Snapshotted? ==> p.sold < now.total && p.sold + p.sell <= now.total)
  }

  /** A credited sell covers an interval of the amount sold that ends by now. */
  ghost predicate CountedIsPast(s: State, session: string, i: nat)
    requires session in s.sessions && CountedOn(s, session, i)
  {
    var (p, now) := (PhaseOf(s, i), s.sessions[session]);
    p.total == now.total && 0 <= p.sold < now.total && p.sold + p.sell <= now.sold
  }

  predicate Apart(p: Phase, q: Phase)
    requires Counted(p) && Counted(q)
  {
    p.sold + p.sell <= q.sold || q.sold + q.sell <= p.sold
  }

  ghost predicate Ranged(s: State, session: string) {
    && session in s.sessions && 0 <= s.sessions[session].sold <= s.sessions[session].total < U256.TWO_256
  }

  ghost predicate SingleInv(s: State, session: string) {
    && Ranged(s, session)
    && (forall i :: OpenOn(s, session, i) ==> OpenIsCurrent(s, session, i))
    && (forall i :: CountedOn(s, session, i) ==> CountedIsPast(s, session, i))
    && (forall i, j :: CountedOn(s, session, i) && CountedOn(s, session, j) && i != j ==>
          Apart(PhaseOf(s, i), PhaseOf(s, j)))
    && (s.sessions[session].sold == s.sessions[session].total ==>
          exists i :: CompletesOn(s, session, i))
  }

  // ----- Preservation -----

  /** Under the limit a handler in flight is alone. */
  lemma OnlyOne(s: State, session: string, i: nat, j: nat)
    requires Within(s, AtMost(session, 1)) && OpenOn(s, session, i) && OpenOn(s, session, j)
    ensures i == j
  {
    if i < j {
      SumAtLeastTwo(InFlight(session), s.handlers, i, j);
    } else if j < i {
      SumAtLeastTwo(InFlight(session), s.handlers, j, i);
    }
  }

  /** Handlers other than the one that steps stay as they are. */
  lemma OthersStay(s: State, step: Step, i: nat)
    requires Enabled(s, step) && InPhase(s, i)
    requires (HandlerStep(step) || step.Insert?) ==> step.h != i
    ensures InPhase(Apply(s, step), i) && Apply(s, step).handlers[i] == s.handlers[i]
  {
  }

  /** The step credits the session, and the amount fits its column. */
  predicate Credits(s: State, step: Step, session: string)
    requires Enabled(s, step)
  {
    && step.Credit? && s.handlers[step.h].key.session == session
    && CreditFits(s.sessions, session, PhaseOf(s, step.h).sell)
  }

  /** Only a credit changes the amount sold. */
  lemma SoldStays(s: State, step: Step, session: string)
    requires Enabled(s, step) && session in s.sessions
    ensures session in Apply(s, step).sessions && Apply(s, step).sessions[session].total == s.sessions[session].total
    ensures Apply(s, step).sessions[session].sold ==
            s.sessions[session].sold + if Credits(s, step, session) then PhaseOf(s, step.h).sell else 0
  {
    hide DoMark, Seen, InsertRow, HasKey, Completes, CrashedPhase, Gate;
  }

  lemma OpenStaysCurrent(s: State, step: Step, session: string, i: nat)
    requires SingleInv(s, session) && Enabled(s, step)
    requires Within(s, AtMost(session, 1)) && Within(Apply(s, step), AtMost(session, 1))
    requires OpenOn(Apply(s, step), session, i)
    ensures session in Apply(s, step).sessions && OpenIsCurrent(Apply(s, step), session, i)
  {
    hide DoMark, Seen, InsertRow, HasKey, Completes;
    SoldStays(s, step, session);
    if i == |s.handlers| {
      assert step.Snapshot?;
    } else if (HandlerStep(step) || step.Insert?) && step.h == i {
      assert OpenOn(s, session, i) && OpenIsCurrent(s, session, i);
      if step.Submit? {
        GateBound(PhaseOf(s, i).total, PhaseOf(s, i).sold, step.buy, step.povBps);
      }
    } else {
      OthersStay(s, step, i);
      assert OpenOn(s, session, i) && OpenIsCurrent(s, session, i);
      if step.Credit? && s.handlers[step.h].key.session == session {
        assert OpenOn(s, session, step.h);
        OnlyOne(s, session, i, step.h);
      }
    }
  }

  /** A handler is counted by its credit and stays so, with the same interval. */
  lemma CountedFrom(s: State, step: Step, session: string, i: nat)
    requires Enabled(s, step) && CountedOn(Apply(s, step), session, i)
    ensures InPhase(s, i)
    ensures CountedOn(s, session, i) || (step == Credit(i) && OpenOn(s, session, i))
    ensures
      var (p, q) := (PhaseOf(s, i), PhaseOf(Apply(s, step), i));
      !p.Snapshotted? && !p.Skipped? && !p.Lost? && !p.Duplicate? && !p.Orphaned?
      && p.total == q.total && p.sold == q.sold && p.sell == q.sell
  {
    hide DoMark, Seen, InsertRow, HasKey, CreditRow, Gate, Completes;
  }

  lemma CountedStaysPast(s: State, step: Step, session: string, i: nat)
    requires SingleInv(s, session) && Enabled(s, step) && CountedOn(Apply(s, step), session, i)
    ensures session in Apply(s, step).sessions && CountedIsPast(Apply(s, step), session, i)
  {
    SoldStays(s, step, session);
    CountedFrom(s, step, session, i);
    if CountedOn(s, session, i) {
      assert CountedIsPast(s, session, i);
    } else {
      assert OpenIsCurrent(s, session, i);
    }
  }

  lemma CountedStayApart(s: State, step: Step, session: string, i: nat, j: nat)
    requires SingleInv(s, session) && Enabled(s, step) && i != j
    requires CountedOn(Apply(s, step), session, i) && CountedOn(Apply(s, step), session, j)
    ensures Apart(PhaseOf(Apply(s, step), i), PhaseOf(Apply(s, step), j))
  {
    CountedFrom(s, step, session, i);
    CountedFrom(s, step, session, j);
    if CountedOn(s, session, i) && CountedOn(s, session, j) {
    } else if CountedOn(s, session, i) {
      assert CountedIsPast(s, session, i) && OpenIsCurrent(s, session, j);
    } else {
      assert CountedIsPast(s, session, j) && OpenIsCurrent(s, session, i);
    }
  }

  lemma CountedStays(s: State, step: Step, session: string, i: nat)
    requires Enabled(s, step) && CountedOn(s, session, i)
    ensures CountedOn(Apply(s, step), session, i)
    ensures Completes(PhaseOf(Apply(s, step), i)) == Completes(PhaseOf(s, i))
  {
    hide DoMark, Seen, InsertRow, HasKey, CreditRow, Gate;
    if !HandlerStep(step) && !step.Insert? {
      OthersStay(s, step, i);
    }
  }

  lemma ReachedBySomeone(s: State, step: Step, session: string)
    requires SingleInv(s, session) && Enabled(s, step)
    ensures session in Apply(s, step).sessions
    ensures Apply(s, step).sessions[session].sold == Apply(s, step).sessions[session].total ==>
              exists i :: CompletesOn(Apply(s, step), session, i)
  {
    var s' := Apply(s, step);
    SoldStays(s, step, session);
    if s'.sessions[session].sold == s'.sessions[session].total {
      if s.sessions[session].sold == s.sessions[session].total {
        var i :| CompletesOn(s, session, i);
        CountedStays(s, step, session, i);
        assert CompletesOn(s', session, i);
      } else {
        assert OpenOn(s, session, step.h) && OpenIsCurrent(s, session, step.h);
        assert CompletesOn(s', session, step.h);
      }
    }
  }

  lemma SingleStepKeeps(s: State, step: Step, session: string)
    requires SingleInv(s, session) && Enabled(s, step)
    requires Within(s, AtMost(session, 1)) && Within(Apply(s, step), AtMost(session, 1))
    ensures SingleInv(Apply(s, step), session)
  {
    var s' := Apply(s, step);
    SoldStays(s, step, session);
    if step.Credit? && s.handlers[step.h].key.session == session {
      assert OpenOn(s, session, step.h) && OpenIsCurrent(s, session, step.h);
    }
    ReachedBySomeone(s, step, session);
    forall i | OpenOn(s', session, i) ensures OpenIsCurrent(s', session, i) {
      OpenStaysCurrent(s, step, session, i);
    }
    forall i | CountedOn(s', session, i) ensures CountedIsPast(s', session, i) {
      CountedStaysPast(s, step, session, i);
    }
    forall i, j | CountedOn(s', session, i) && CountedOn(s', session, j) && i != j
      ensures Apart(PhaseOf(s', i), PhaseOf(s', j))
    {
      CountedStayApart(s, step, session, i, j);
    }
  }

  // ----- Runs -----

  lemma {:induction false} RunKeepsSingle(s: State, steps: seq<Step>, session: string)
    requires Balanced(s) && Ranged(s, session) && s.sessions[session].sold < s.sessions[session].total
    requires Run(s, steps, AtMost(session, 1)).Some?
    ensures SingleInv(Run(s, steps, AtMost(session, 1)).value, session)
    ensures Run(s, steps, AtMost(session, 1)).value.sessions[session].total == s.sessions[session].total
  {
    if steps != [] {
      var n := |steps| - 1;
      RunKeepsSingle(s, steps[..n], session);
      RunPrefix(s, steps, AtMost(session, 1));
      SoldStays(Run(s, steps[..n], AtMost(session, 1)).value, steps[n], session);
      if n > 0 {
        RunPrefix(s, steps[..n], AtMost(session, 1));
      }
      SingleStepKeeps(Run(s, steps[..n], AtMost(session, 1)).value, steps[n], session);
    }
  }

  /** Whoever finished announced the completion exactly when its sell reached the total. */
  ghost predicate AnnouncedIffCompletes(s: State) {
    forall i :: 0 <= i < |s.handlers| && s.handlers[i].phase.Finished? ==>
      (s.handlers[i].phase.announced <==> Completes(s.handlers[i].phase))
  }

  lemma {:induction false} FinishersAnnounce(s: State, steps: seq<Step>, limit: Limit)
    requires Balanced(s) && Run(s, steps, limit).Some?
    ensures AnnouncedIffCompletes(Run(s, steps, limit).value)
  {
    if steps != [] {
      var n := |steps| - 1;
      FinishersAnnounce(s, steps[..n], limit);
      var mid := Run(s, steps[..n], limit).value;
      var s' := Apply(mid, steps[n]);
      hide Apply, Enabled, Completes;
      forall i | 0 <= i < |s'.handlers| && s'.handlers[i].phase.Finished?
        ensures s'.handlers[i].phase.announced <==> Completes(s'.handlers[i].phase)
      {
        FinishedFrom(mid, steps[n], i);
      }
    }
  }

  lemma FinishedFrom(s: State, step: Step, i: nat)
    requires Enabled(s, step) && InPhase(Apply(s, step), i) && PhaseOf(Apply(s, step), i).Finished?
    ensures InPhase(s, i)
    ensures PhaseOf(Apply(s, step), i) == PhaseOf(s, i) ||
            (PhaseOf(Apply(s, step), i).announced <==> Completes(PhaseOf(Apply(s, step), i)))
  {
    hide DoMark, Seen, InsertRow, HasKey, CreditRow, CreditFits, Gate;
  }

  // ----- The status of a session -----

  /** The handler issued the completion update of the session. */
  predicate Announced(s: State, session: string, i: nat) {
    InPhase(s, i) && s.handlers[i].key.session == session && PhaseOf(s, i).Finished? && PhaseOf(s, i).announced
  }

  /** The step is the end of a handler whose sell, by its own snapshot, reaches the session's total. */
  predicate Ends(s: State, step: Step, session: string)
    requires Enabled(s, step)
  {
    step.Finish? && CompletesOn(s, session, step.h)
  }

  /** A session's status changes by an administrator's hand or by a completion, and by nothing else. */
  lemma StatusFollows(s: State, step: Step, session: string)
    requires Enabled(s, step) && session in s.sessions
    ensures session in Apply(s, step).sessions
    ensures Apply(s, step).sessions[session].status ==
            if step.SetSessionStatus? && step.id == session then step.status
            else if Ends(s, step, session) then Completed
            else s.sessions[session].status
  {
    hide DoMark, Seen, InsertRow, HasKey, CrashedPhase, Gate, CreditFits;
  }

  /** A completing handler that ends announces the completion, and the session takes no more events. */
  lemma FinishCompletes(s: State, step: Step, session: string)
    requires Enabled(s, step) && Ends(s, step, session) && session in s.sessions
    ensures Announced(Apply(s, step), session, step.h)
    ensures session in Apply(s, step).sessions && Apply(s, step).sessions[session].status == Completed
    ensures forall key: TriggerKey :: key.session == session ==> !Enabled(Apply(s, step), Snapshot(key))
  {
    StatusFollows(s, step, session);
  }

  /** Once announced, always announced; a new announcement is the handler's end. */
  lemma AnnouncedFrom(s: State, step: Step, session: string, i: nat)
    requires Enabled(s, step) && Announced(Apply(s, step), session, i)
    ensures Announced(s, session, i) || (step == Finish(i) && Ends(s, step, session))
  {
    FinishedFrom(s, step, i);
    hide DoMark, Seen, InsertRow, HasKey, CrashedPhase, Gate, CreditFits, CreditRow;
  }

  /** An administrator set the session's status after the handler's announcement. */
  ghost predicate SetAfter(s: State, steps: seq<Step>, limit: Limit, session: string, i: nat) {
    exists j :: 0 <= j < |steps| && steps[j].SetSessionStatus? && steps[j].id == session
      && Run(s, steps[..j], limit).Some? && Announced(Run(s, steps[..j], limit).value, session, i)
  }

  lemma SetAfterStays(s: State, steps: seq<Step>, limit: Limit, session: string, i: nat)
    requires steps != [] && SetAfter(s, steps[..|steps| - 1], limit, session, i)
    ensures SetAfter(s, steps, limit, session, i)
  {
    var before := steps[..|steps| - 1];
    var j :| 0 <= j < |before| && before[j].SetSessionStatus? && before[j].id == session
      && Run(s, before[..j], limit).Some? && Announced(Run(s, before[..j], limit).value, session, i);
    assert steps[..j] == before[..j] && steps[j] == before[j];
  }

  /**
    In every run a session with an announced completion is completed, and takes no more events, unless an
    administrator set its status afterwards.
   */
  lemma {:induction false} AnnouncedStaysCompleted(s: State, steps: seq<Step>, limit: Limit, session: string, i: nat)
    requires session in s.sessions && s.handlers == [] && Run(s, steps, limit).Some?
    ensures session in Run(s, steps, limit).value.sessions
    ensures
      var s' := Run(s, steps, limit).value;
      Announced(s', session, i) && !SetAfter(s, steps, limit, session, i) ==>
        && s'.sessions[session].status == Completed
        && forall key: TriggerKey :: key.session == session ==> !Enabled(s', Snapshot(key))
  {
    if steps != [] {
      hide Apply, Announced, Ends, SetAfter;
      var n := |steps| - 1;
      var mid := Run(s, steps[..n], limit).value;
      AnnouncedStaysCompleted(s, steps[..n], limit, session, i);
      StatusFollows(mid, steps[n], session);
      if Announced(Apply(mid, steps[n]), session, i) && !SetAfter(s, steps, limit, session, i) {
        AnnouncedFrom(mid, steps[n], session, i);
        if Announced(mid, session, i) {
          if SetAfter(s, steps[..n], limit, session, i) {
            SetAfterStays(s, steps, limit, session, i);
          }
          SetNow(s, steps, limit, session, i);
        }
      }
    }
  }

  lemma SetNow(s: State, steps: seq<Step>, limit: Limit, session: string, i: nat)
    requires steps != [] && Run(s, steps[..|steps| - 1], limit).Some?
    requires Announced(Run(s, steps[..|steps| - 1], limit).value, session, i)
    requires !SetAfter(s, steps, limit, session, i)
    ensures !(steps[|steps| - 1].SetSessionStatus? && steps[|steps| - 1].id == session)
  {
  }

  // ----- Completion -----

  /** The handler's completing sell is credited, and the completion is announced, still to be, or lost in a crash. */
  predicate Announces(p: Phase) {
    p.Credited? || p.Stopped? || (p.Finished? && p.announced)
  }

  /**
    One handler at a time: the session is never oversold; it is sold out exactly when some credited
    handler completes it; that handler is unique, and issues the completion update unless it stops first;
    from then on the session is completed until an administrator sets its status.
   */
  lemma {:induction false} CompletionIsExact(s: State, steps: seq<Step>, session: string)
    requires Balanced(s) && Ranged(s, session) && s.sessions[session].sold < s.sessions[session].total
    requires Run(s, steps, AtMost(session, 1)).Some?
    ensures
      var s' := Run(s, steps, AtMost(session, 1)).value;
      && session in s'.sessions && s'.sessions[session].sold <= s.sessions[session].total
      && (s'.sessions[session].sold == s.sessions[session].total <==> exists i :: CompletesOn(s', session, i))
      && (forall i, j :: CompletesOn(s', session, i) && CompletesOn(s', session, j) ==> i == j)
      && (forall i :: CompletesOn(s', session, i) ==> Announces(PhaseOf(s', i)))
      && (forall i: nat :: InPhase(s', i) && s'.handlers[i].key.session == session && PhaseOf(s', i).Finished? ==>
            (PhaseOf(s', i).announced <==> CompletesOn(s', session, i)))
      && (forall i: nat :: Announced(s', session, i) && !SetAfter(s, steps, AtMost(session, 1), session, i) ==>
            s'.sessions[session].status == Completed)
  {
    RunKeepsSingle(s, steps, session);
    FinishersAnnounce(s, steps, AtMost(session, 1));
    var s' := Run(s, steps, AtMost(session, 1)).value;
    assert forall i :: CountedOn(s', session, i) ==> CountedIsPast(s', session, i);
    forall i: nat | Announced(s', session, i) && !SetAfter(s, steps, AtMost(session, 1), session, i)
      ensures s'.sessions[session].status == Completed
    {
      AnnouncedStaysCompleted(s, steps, AtMost(session, 1), session, i);
    }
  }

  /** After the total is reached no handler of the session is past its gate, so no trade follows. */
  lemma NoTradeOnceSoldOut(s: State, step: Step, session: string)
    requires SingleInv(s, session) && Enabled(s, step) && s.sessions[session].sold == s.sessions[session].total
    ensures Apply(s, step).sessions[session].sold == s.sessions[session].sold
    ensures forall i :: |s.rows| <= i < |Apply(s, step).rows| ==> Apply(s, step).rows[i].key.session != session
    ensures |s.rows| <= |Apply(s, step).rows|
    ensures forall i :: 0 <= i < |s.rows| ==> Apply(s, step).rows[i].key == s.rows[i].key
  {
    SoldStays(s, step, session);
    assert forall i :: OpenOn(s, session, i) ==> OpenIsCurrent(s, session, i);
    assert step.Insert? || step.Credit? ==>
        s.handlers[step.h].key.session == session ==> OpenOn(s, session, step.h);
  }

  lemma {:induction false} NoTradeAfterTotal(early: State, steps: seq<Step>, session: string)
    requires SingleInv(early, session) && early.sessions[session].sold == early.sessions[session].total
    requires Run(early, steps, AtMost(session, 1)).Some?
    ensures
      var late := Run(early, steps, AtMost(session, 1)).value;
      && SingleInv(late, session) && late.sessions[session].sold == late.sessions[session].total
      && |early.rows| <= |late.rows|
      && forall i :: |early.rows| <= i < |late.rows| ==> late.rows[i].key.session != session
  {
    if steps != [] {
      var n := |steps| - 1;
      NoTradeAfterTotal(early, steps[..n], session);
      RunPrefix(early, steps, AtMost(session, 1));
      if n > 0 {
        RunPrefix(early, steps[..n], AtMost(session, 1));
      }
      var mid := Run(early, steps[..n], AtMost(session, 1)).value;
      NoTradeOnceSoldOut(mid, steps[n], session);
      SoldStays(mid, steps[n], session);
      SingleStepKeeps(mid, steps[n], session);
    }
  }

  /** With one handler at a time, a session that has sold its total records no further trade, ever. */
  lemma {:induction false} SoldOutIsFinal(s: State, before: seq<Step>, after: seq<Step>, session: string)
    requires Balanced(s) && Ranged(s, session) && s.sessions[session].sold < s.sessions[session].total
    requires Run(s, before, AtMost(session, 1)).Some?
    requires Run(Run(s, before, AtMost(session, 1)).value, after, AtMost(session, 1)).Some?
    ensures
      var early := Run(s, before, AtMost(session, 1)).value;
      var late := Run(early, after, AtMost(session, 1)).value;
      session in early.sessions && early.sessions[session].sold == s.sessions[session].total ==>
        && |early.rows| <= |late.rows|
        && forall i :: |early.rows| <= i < |late.rows| ==> late.rows[i].key.session != session
  {
    RunKeepsSingle(s, before, session);
    var early := Run(s, before, AtMost(session, 1)).value;
    if early.sessions[session].sold == s.sessions[session].total {
      NoTradeAfterTotal(early, after, session);
    }
  }
}
