/** The completion of a session: what its announcement means, and when somebody is there to make it. */
module CompletionSafety {
  import opened Wrappers
  import opened TradeTable
  import opened TradeProtocol
  import opened Sums
  import opened LedgerSafety
  import opened OversellSafety
  import opened SingleHandlerSafety
  import opened ReachableRuns
  import opened OversellExact
  import U256

  // ----- Handlers and the amount sold -----

  /** A handler past the gate saw the session open. */
  predicate SawOpen(p: Phase)
    requires Open(p) || Counted(p)
  {
    U256.FromNumeric(p.sold) < U256.FromNumeric(p.total)
  }

  /** A handler in flight saw an amount sold between `low` and the present one, which holds every credited sell. */
  ghost predicate InOrder(s: State, session: string, low: int, i: nat)
    requires session in s.sessions
  {
    && (OpenOn(s, session, i) ==>
          var (p, now) := (PhaseOf(s, i), s.sessions[session]);
          p.total == now.total && low <= p.sold <= now.sold && (p.Snapshotted? || SawOpen(p)))
    && (CountedOn(s, session, i) ==>
          var (p, now) := (PhaseOf(s, i), s.sessions[session]);
          p.total == now.total && low <= p.sold && p.sold + p.sell <= now.sold && SawOpen(p))
  }

  ghost predicate AllInOrder(s: State, session: string, low: int) {
    && session in s.sessions && low <= s.sessions[session].sold
    && forall i: nat :: InOrder(s, session, low, i)
  }

  /** A handler in flight is new, or was in flight with the same snapshot; past the gate it saw the session open. */
  lemma OpenFrom(s: State, step: Step, session: string, i: nat)
    requires Enabled(s, step) && session in s.sessions && OpenOn(Apply(s, step), session, i)
    ensures
      var q := PhaseOf(Apply(s, step), i);
      || q == Snapshotted(s.sessions[session].total, s.sessions[session].sold)
      || (OpenOn(s, session, i)
          && q.total == PhaseOf(s, i).total && q.sold == PhaseOf(s, i).sold
          && (q.Snapshotted? || SawOpen(q) || !PhaseOf(s, i).Snapshotted?))
  {
    hide DoMark, Seen, InsertRow, HasKey, CreditRow, CreditFits, Completes;
    if !HandlerStep(step) && !step.Insert? && InPhase(s, i) {
      OthersStay(s, step, i);
    }
  }

  lemma StaysInOrder(s: State, step: Step, session: string, low: int, i: nat)
    requires AllInOrder(s, session, low) && Enabled(s, step)
    ensures session in Apply(s, step).sessions && InOrder(Apply(s, step), session, low, i)
  {
    hide Apply, Completes, CreditFits;
    SoldStays(s, step, session);
    assert InOrder(s, session, low, i);
    if OpenOn(Apply(s, step), session, i) {
      OpenFrom(s, step, session, i);
    } else if CountedOn(Apply(s, step), session, i) {
      CountedFrom(s, step, session, i);
      if !CountedOn(s, session, i) {
        CreditedIfFits(s, step, session);
      }
    }
  }

  lemma {:induction false} RunInOrder(s: State, steps: seq<Step>, limit: Limit, session: string)
    requires Balanced(s) && session in s.sessions && Run(s, steps, limit).Some?
    ensures AllInOrder(Run(s, steps, limit).value, session, s.sessions[session].sold)
    ensures Run(s, steps, limit).value.sessions[session].total == s.sessions[session].total
  {
    if steps != [] {
      hide Apply, Enabled, InOrder;
      var n := |steps| - 1;
      RunInOrder(s, steps[..n], limit, session);
      var mid := Run(s, steps[..n], limit).value;
      SoldStays(mid, steps[n], session);
      forall i: nat ensures InOrder(Apply(mid, steps[n]), session, s.sessions[session].sold, i) {
        StaysInOrder(mid, steps[n], session, s.sessions[session].sold, i);
      }
    }
  }

  // ----- What an announcement means -----

  predicate SoldOut(s: State, session: string) {
    session in s.sessions && s.sessions[session].sold >= s.sessions[session].total
  }

  /** However many handlers run, a completion is announced only for a session that has sold its total. */
  lemma {:induction false} AnnouncedMeansSold(s: State, steps: seq<Step>, limit: Limit, session: string, i: nat)
    requires Balanced(s) && session in s.sessions && 0 <= s.sessions[session].sold && Run(s, steps, limit).Some?
    ensures
      var s' := Run(s, steps, limit).value;
      && session in s'.sessions
      && (Announced(s', session, i) ==> s'.sessions[session].sold >= s'.sessions[session].total)
  {
    RunInOrder(s, steps, limit, session);
    FinishersAnnounce(s, steps, limit);
    var s' := Run(s, steps, limit).value;
    assert InOrder(s', session, s.sessions[session].sold, i);
  }

  // ----- Who announces it -----

  /** In every state of every run that has sold the total, somebody's credited sell completes the session. */
  ghost predicate CompletionNoticed(s: State, session: string, k: nat) {
    forall t :: Reach(s, session, k, t) && SoldOut(t, session) ==> exists i :: CompletesOn(t, session, i)
  }

  /** With one unit left, whoever sells it saw that, and completes the session. */
  lemma OneUnitStep(s: State, step: Step, session: string, low: nat)
    requires AllInOrder(s, session, low) && Enabled(s, step)
    requires s.sessions[session].total == low + 1 < U256.TWO_256
    requires s.sessions[session].sold > low ==> exists i :: CompletesOn(s, session, i)
    ensures session in Apply(s, step).sessions
    ensures Apply(s, step).sessions[session].sold > low ==> exists i :: CompletesOn(Apply(s, step), session, i)
  {
    hide Apply, Enabled;
    SoldStays(s, step, session);
    var s' := Apply(s, step);
    if s'.sessions[session].sold > low {
      if s.sessions[session].sold > low {
        var i :| CompletesOn(s, session, i);
        CountedStays(s, step, session, i);
        assert CompletesOn(s', session, i);
      } else {
        CreditCounts(s, step, session);
        assert InOrder(s, session, low, step.h);
        assert CompletesOn(s', session, step.h);
      }
    }
  }

  lemma CreditCounts(s: State, step: Step, session: string)
    requires Enabled(s, step) && Credits(s, step, session)
    ensures OpenOn(s, session, step.h) && CountedOn(Apply(s, step), session, step.h)
    ensures
      var (p, q) := (PhaseOf(s, step.h), PhaseOf(Apply(s, step), step.h));
      p.Recorded? && q.total == p.total && q.sold == p.sold && q.sell == p.sell
  {
  }

  lemma {:induction false} OneUnitNoticed(s: State, steps: seq<Step>, limit: Limit, session: string)
    requires Balanced(s) && session in s.sessions && 0 <= s.sessions[session].sold && Run(s, steps, limit).Some?
    requires s.sessions[session].total == s.sessions[session].sold + 1 < U256.TWO_256
    ensures session in Run(s, steps, limit).value.sessions
    ensures Run(s, steps, limit).value.sessions[session].sold > s.sessions[session].sold ==>
              exists i :: CompletesOn(Run(s, steps, limit).value, session, i)
  {
    if steps != [] {
      hide Apply, Enabled, AllInOrder, CompletesOn;
      var n := |steps| - 1;
      OneUnitNoticed(s, steps[..n], limit, session);
      RunInOrder(s, steps[..n], limit, session);
      OneUnitStep(Run(s, steps[..n], limit).value, steps[n], session, s.sessions[session].sold);
    }
  }

  /** Two handlers that see two units left sell one each, and neither completes the session. */
  lemma CompletionMissed(s: State, session: string, k: nat) returns (t: State)
    requires Balanced(s) && PartSold(s, session) && k >= 2
    requires s.sessions[session].total - s.sessions[session].sold >= 2
    ensures Reach(s, session, k, t) && session in t.sessions
    ensures t.sessions[session].sold == t.sessions[session].total && Nobody(t, session)
  {
    hide Reach, Idle, Balanced, Nobody;
    var r := Fresh(s, session);
    t := Started(s, session, k);
    t := Climb(s, k, t, r, r.total - 2);
    var r' := r.(sold := r.total - 2, quiet := r.quiet && (r.sold == r.total - 2 || r.total - 2 < r.total));
    t := Burst(s, k, t, r', 2, 1);
    IdleMeans(t, Risen(r', 2, 1));
  }

  /** Exactly when handlers run one at a time, or one unit is left to sell, is every completion noticed by somebody. */
  lemma {:induction false} CompletionNoticedIff(s: State, session: string, k: nat)
    requires Balanced(s) && PartSold(s, session) && s.sessions[session].sold < s.sessions[session].total && k >= 1
    ensures CompletionNoticed(s, session, k) <==>
            k == 1 || s.sessions[session].total - s.sessions[session].sold == 1
  {
    hide Balanced, Run, CompletesOn;
    if k == 1 || s.sessions[session].total - s.sessions[session].sold == 1 {
      forall t | Reach(s, session, k, t) && SoldOut(t, session)
        ensures exists i :: CompletesOn(t, session, i)
      {
        var steps :| Run(s, steps, AtMost(session, k)) == Some(t);
        RunInOrder(s, steps, AtMost(session, k), session);
        if k == 1 {
          CompletionIsExact(s, steps, session);
        } else {
          OneUnitNoticed(s, steps, AtMost(session, k), session);
        }
      }
    } else {
      var t := CompletionMissed(s, session, k);
      assert forall i: nat :: !CompletesOn(t, session, i);
    }
  }
}
