/** Building runs: what any session can be brought to, by handlers that take their snapshots together. */
module ReachableRuns {
  import opened Wrappers
  import opened TradeTable
  import opened TradeProtocol
  import opened Sums
  import opened LedgerSafety
  import opened OversellSafety
  import opened SingleHandlerSafety
  import U256

  ghost predicate Reach(start: State, session: string, k: nat, s: State) {
    exists steps :: Run(start, steps, AtMost(session, k)) == Some(s)
  }

  lemma ReachStep(start: State, session: string, k: nat, s: State, step: Step)
    requires Reach(start, session, k, s) && Enabled(s, step) && Within(Apply(s, step), AtMost(session, k))
    ensures Reach(start, session, k, Apply(s, step))
  {
    var steps :| Run(start, steps, AtMost(session, k)) == Some(s);
    assert (steps + [step])[..|steps|] == steps;
    assert Run(start, steps + [step], AtMost(session, k)) == Some(Apply(s, step));
  }

  // ----- Totals over the handlers -----

  ghost function OrphanCount(session: string): Handler -> nat {
    (h: Handler) => if h.key.session == session && h.phase.Orphaned? then 1 else 0
  }

  /** Handlers in flight, sells pending, credits lost, and sells without a credit. */
  datatype Tally = Tally(flight: nat, pending: nat, orphans: nat, uncredited: nat)

  ghost function TallyOf(handlers: seq<Handler>, session: string): Tally {
    Tally(Sum(InFlight(session), handlers), Sum(PendingSell(session), handlers),
          Sum(OrphanCount(session), handlers), Sum(Uncredited(session), handlers))
  }

  lemma TallyMoves(s: State, h: nat, p: Phase, session: string)
    requires InPhase(s, h)
    ensures
      var (a, b) := (TallyOf(s.handlers, session), TallyOf(SetPhase(s, h, p).handlers, session));
      var (old', new') := (s.handlers[h], s.handlers[h].(phase := p));
      && b.flight + InFlight(session)(old') == a.flight + InFlight(session)(new')
      && b.pending + PendingSell(session)(old') == a.pending + PendingSell(session)(new')
      && b.orphans + OrphanCount(session)(old') == a.orphans + OrphanCount(session)(new')
      && b.uncredited + Uncredited(session)(old') == a.uncredited + Uncredited(session)(new')
  {
    PhaseMoves(s, h, p, InFlight(session));
    PhaseMoves(s, h, p, PendingSell(session));
    PhaseMoves(s, h, p, OrphanCount(session));
    PhaseMoves(s, h, p, Uncredited(session));
  }

  lemma TallySnapshot(handlers: seq<Handler>, h: Handler)
    requires h.phase.Snapshotted?
    ensures
      var a := TallyOf(handlers, h.key.session);
      TallyOf(handlers + [h], h.key.session) == a.(flight := a.flight + 1)
  {
    SumAppend(InFlight(h.key.session), handlers, h);
    SumAppend(PendingSell(h.key.session), handlers, h);
    SumAppend(OrphanCount(h.key.session), handlers, h);
    SumAppend(Uncredited(h.key.session), handlers, h);
  }

  // ----- Handlers in a line -----

  /**
    The handlers from `lo` to the last are in flight, all with the same snapshot and with unused keys.
    While `quiet`, no credited handler completes the session.
   */
  datatype Line = Line(session: string, total: U256.Word, seen: int, sold: int, base: int,
                       lo: nat, hi: nat, tally: Tally, quiet: bool)

  function KeyAt(l: Line, h: nat): TriggerKey {
    TriggerKey(l.session, "", "", l.base + h)
  }

  ghost predicate Nobody(s: State, session: string) {
    forall i: nat :: !CompletesOn(s, session, i)
  }

  /** The session's row and totals, and the handlers behind the first of the line. */
  ghost predicate Behind(s: State, l: Line) {
    && l.session in s.sessions && s.sessions[l.session] == Session(l.total, l.sold, Active) && l.session in s.submitted
    && l.lo <= l.hi == |s.handlers|
    && (forall h :: l.lo < h < l.hi ==> s.handlers[h] == Handler(KeyAt(l, h), Snapshotted(l.total, l.seen)))
    && TallyOf(s.handlers, l.session) == l.tally && l.tally.flight == l.hi - l.lo
    && (l.quiet ==> Nobody(s, l.session))
  }

  ghost predicate KeysBelow(rows: Table, session: string, index: int) {
    forall i :: 0 <= i < |rows| && rows[i].key.session == session ==> rows[i].key.logIndex < index
  }

  ghost predicate Lined(s: State, l: Line) {
    && Behind(s, l) && KeysBelow(s.rows, l.session, l.base + l.lo)
    && (l.lo < l.hi ==> s.handlers[l.lo] == Handler(KeyAt(l, l.lo), Snapshotted(l.total, l.seen)))
  }

  /** The first of the line is on its way and the others wait. */
  ghost predicate Stage(s: State, l: Line, p: Phase) {
    && Behind(s, l) && l.lo < l.hi && s.handlers[l.lo] == Handler(KeyAt(l, l.lo), p)
    && KeysBelow(s.rows, l.session, l.base + l.lo + if p.Recorded? then 1 else 0)
  }

  function Joined(l: Line): Line {
    l.(hi := l.hi + 1, tally := l.tally.(flight := l.tally.flight + 1))
  }

  function Pending(l: Line, sell: nat): Line {
    l.(tally := l.tally.(pending := l.tally.pending + sell))
  }

  function Inserted(l: Line, sell: nat): Line {
    l.(tally := l.tally.(pending := l.tally.pending + sell, uncredited := l.tally.uncredited + sell))
  }

  function Sold(l: Line, sell: nat): Line
    requires l.tally.flight > 0
  {
    l.(lo := l.lo + 1, sold := l.sold + sell, tally := l.tally.(flight := l.tally.flight - 1),
       quiet := l.quiet && 0 <= l.seen && l.seen + sell < l.total)
  }

  function Forgone(l: Line, sell: nat): Line
    requires l.tally.flight > 0
  {
    l.(lo := l.lo + 1,
       tally := Tally(l.tally.flight - 1, l.tally.pending, l.tally.orphans + 1, l.tally.uncredited + sell))
  }

  lemma SnapLines(s: State, l: Line)
    requires Lined(s, l) && l.seen == l.sold
    ensures Enabled(s, Snapshot(KeyAt(l, l.hi)))
    ensures Lined(Apply(s, Snapshot(KeyAt(l, l.hi))), Joined(l))
  {
    hide DoSubmit, DoInsert, DoCredit, DoFinish, DoMark, Seen, CrashedPhase, Gate, TallyOf, Completes;
    var h := Handler(KeyAt(l, l.hi), Snapshotted(l.total, l.sold));
    TallySnapshot(s.handlers, h);
    assert Apply(s, Snapshot(KeyAt(l, l.hi))) == s.(handlers := s.handlers + [h]);
    if l.quiet {
      StillNobody(s, Snapshot(KeyAt(l, l.hi)), l.session);
    }
  }

  /** A buy that makes a handler sell exactly `sell`. */
  lemma AnySell(total: U256.Word, seen: int, sell: nat)
    requires 1 <= sell <= MAX_SELL && sell <= Remaining(total, seen)
    ensures sell * 10_000 <= U256.MAX && Gate(total, seen, sell, 10_000) == Some(sell)
  {
    assert U256.WrappingMul(sell, 10_000) == sell * 10_000;
  }

  lemma SendStage(s: State, l: Line, sell: nat)
    requires Lined(s, l) && l.lo < l.hi && 1 <= sell <= MAX_SELL && sell <= Remaining(l.total, l.seen)
    ensures sell * 10_000 <= U256.MAX && Enabled(s, Submit(l.lo, sell, 10_000, ""))
    ensures Stage(Apply(s, Submit(l.lo, sell, 10_000, "")), Pending(l, sell), Sent(l.total, l.seen, sell, ""))
  {
    hide Gate, Remaining, DoInsert, DoCredit, DoFinish, DoMark, Seen, CrashedPhase, TallyOf, Completes;
    AnySell(l.total, l.seen, sell);
    TallyMoves(s, l.lo, Sent(l.total, l.seen, sell, ""), l.session);
    if l.quiet {
      StillNobody(s, Submit(l.lo, sell, 10_000, ""), l.session);
    }
  }

  lemma StillNobody(s: State, step: Step, session: string)
    requires Enabled(s, step) && Nobody(s, session)
    requires step.Credit? ==> !Credits(s, step, session) || !CompletesOn(Apply(s, step), session, step.h)
    ensures Nobody(Apply(s, step), session)
  {
    hide Apply, Completes, CreditFits;
    forall i: nat ensures !CompletesOn(Apply(s, step), session, i) {
      if CountedOn(Apply(s, step), session, i) {
        CountedFrom(s, step, session, i);
        if CountedOn(s, session, i) {
          CountedStays(s, step, session, i);
          assert !CompletesOn(s, session, i);
        } else {
          CreditedIfFits(s, step, session);
        }
      }
    }
  }

  lemma CreditedIfFits(s: State, step: Step, session: string)
    requires Enabled(s, step) && step.Credit? && CountedOn(Apply(s, step), session, step.h)
    ensures Credits(s, step, session)
  {
  }

  lemma InsertStage(s: State, l: Line, sell: nat)
    requires Stage(s, Pending(l, sell), Sent(l.total, l.seen, sell, ""))
    ensures Enabled(s, Insert(l.lo, 0))
    ensures Stage(Apply(s, Insert(l.lo, 0)), Inserted(l, sell), Recorded(l.total, l.seen, sell, "", |s.rows|))
  {
    hide Gate, DoSubmit, DoCredit, DoFinish, DoMark, Seen, CrashedPhase, TallyOf, Completes;
    assert !HasKey(s.rows, KeyAt(l, l.lo));
    TallyMoves(s, l.lo, Recorded(l.total, l.seen, sell, "", |s.rows|), l.session);
    if l.quiet {
      StillNobody(s, Insert(l.lo, 0), l.session);
    }
  }

  lemma CreditStage(s: State, l: Line, sell: nat, row: nat)
    requires Stage(s, Inserted(l, sell), Recorded(l.total, l.seen, sell, "", row)) && l.sold + sell < NUMERIC_LIMIT
    ensures Enabled(s, Credit(l.lo)) && l.tally.flight > 0
    ensures Lined(Apply(s, Credit(l.lo)), Sold(l, sell))
  {
    hide Gate, DoSubmit, DoInsert, DoFinish, DoMark, Seen, CrashedPhase, TallyOf;
    var done := Credited(l.total, l.seen, sell, "", row);
    TallyMoves(s, l.lo, done, l.session);
    assert Apply(s, Credit(l.lo)) ==
           SetPhase(s, l.lo, done).(sessions := s.sessions[l.session := Session(l.total, l.sold + sell, Active)]);
    if Sold(l, sell).quiet {
      StillNobody(s, Credit(l.lo), l.session);
    }
  }

  /** A stop between the INSERT and the UPDATE. */
  lemma LoseStage(s: State, l: Line, sell: nat, row: nat)
    requires Stage(s, Inserted(l, sell), Recorded(l.total, l.seen, sell, "", row))
    ensures Enabled(s, Crash(l.lo)) && l.tally.flight > 0
    ensures Lined(Apply(s, Crash(l.lo)), Forgone(l, sell))
  {
    hide Gate, DoSubmit, DoInsert, DoCredit, DoFinish, DoMark, Seen, TallyOf, Completes;
    TallyMoves(s, l.lo, Orphaned(sell, row), l.session);
    assert Apply(s, Crash(l.lo)) == SetPhase(s, l.lo, Orphaned(sell, row));
    if l.quiet {
      StillNobody(s, Crash(l.lo), l.session);
    }
  }

  lemma BehindWithin(s: State, l: Line, k: nat)
    requires Behind(s, l) && l.hi - l.lo <= k
    ensures Within(s, AtMost(l.session, k))
  {
  }

  lemma Snap(start: State, k: nat, s: State, l: Line) returns (t: State)
    requires Reach(start, l.session, k, s) && Lined(s, l) && l.seen == l.sold && l.hi - l.lo < k
    ensures Reach(start, l.session, k, t) && Lined(t, Joined(l))
  {
    hide Reach, Behind, Within, Enabled, Apply, KeysBelow;
    SnapLines(s, l);
    t := Apply(s, Snapshot(KeyAt(l, l.hi)));
    BehindWithin(t, Joined(l), k);
    ReachStep(start, l.session, k, s, Snapshot(KeyAt(l, l.hi)));
  }

  /** The first of the line sends its sell and records it. */
  lemma RecordFirst(start: State, k: nat, s: State, l: Line, sell: nat) returns (t: State, row: nat)
    requires Reach(start, l.session, k, s) && Lined(s, l) && l.lo < l.hi && l.hi - l.lo <= k
    requires 1 <= sell <= MAX_SELL && sell <= Remaining(l.total, l.seen)
    ensures Reach(start, l.session, k, t) && Stage(t, Inserted(l, sell), Recorded(l.total, l.seen, sell, "", row))
  {
    hide Reach, Lined, Behind, Within, Remaining, Enabled, Apply, KeysBelow;
    SendStage(s, l, sell);
    var u := Apply(s, Submit(l.lo, sell, 10_000, ""));
    BehindWithin(u, Pending(l, sell), k);
    ReachStep(start, l.session, k, s, Submit(l.lo, sell, 10_000, ""));
    InsertStage(u, l, sell);
    t, row := Apply(u, Insert(l.lo, 0)), |u.rows|;
    BehindWithin(t, Inserted(l, sell), k);
    ReachStep(start, l.session, k, u, Insert(l.lo, 0));
  }

  lemma SellFirst(start: State, k: nat, s: State, l: Line, sell: nat) returns (t: State)
    requires Reach(start, l.session, k, s) && Lined(s, l) && l.lo < l.hi && l.hi - l.lo <= k
    requires 1 <= sell <= MAX_SELL && sell <= Remaining(l.total, l.seen) && l.sold + sell < NUMERIC_LIMIT
    ensures l.tally.flight > 0 && Reach(start, l.session, k, t) && Lined(t, Sold(l, sell))
  {
    hide Reach, Behind, Stage, Within, Remaining, Enabled, Apply, KeysBelow;
    var u, row := RecordFirst(start, k, s, l, sell);
    CreditStage(u, l, sell, row);
    t := Apply(u, Credit(l.lo));
    BehindWithin(t, Sold(l, sell), k);
    ReachStep(start, l.session, k, u, Credit(l.lo));
  }

  lemma LoseFirst(start: State, k: nat, s: State, l: Line, sell: nat) returns (t: State)
    requires Reach(start, l.session, k, s) && Lined(s, l) && l.lo < l.hi && l.hi - l.lo <= k
    requires 1 <= sell <= MAX_SELL && sell <= Remaining(l.total, l.seen)
    ensures l.tally.flight > 0 && Reach(start, l.session, k, t) && Lined(t, Forgone(l, sell))
  {
    hide Reach, Behind, Stage, Within, Remaining, Enabled, Apply, KeysBelow;
    var u, row := RecordFirst(start, k, s, l, sell);
    LoseStage(u, l, sell, row);
    t := Apply(u, Crash(l.lo));
    BehindWithin(t, Forgone(l, sell), k);
    ReachStep(start, l.session, k, u, Crash(l.lo));
  }

  // ----- Bursts -----

  lemma {:induction false} SnapMany(start: State, k: nat, s: State, l: Line, count: nat) returns (t: State)
    requires Reach(start, l.session, k, s) && Lined(s, l) && l.seen == l.sold && l.lo <= l.hi
             && l.hi - l.lo + count <= k
    ensures Reach(start, l.session, k, t)
    ensures Lined(t, l.(hi := l.hi + count, tally := l.tally.(flight := l.tally.flight + count)))
    decreases count
  {
    hide Reach, Lined;
    t := s;
    if count > 0 {
      t := Snap(start, k, s, l);
      t := SnapMany(start, k, t, Joined(l), count - 1);
    }
  }

  /** The line when all of it has sold. */
  function AllSold(l: Line, sell: nat): Line
    requires l.lo <= l.hi
  {
    l.(lo := l.hi, sold := l.sold + (l.hi - l.lo) * sell, tally := l.tally.(flight := 0),
       quiet := l.quiet && (l.lo == l.hi || (0 <= l.seen && l.seen + sell < l.total)))
  }

  lemma {:induction false} SellMany(start: State, k: nat, s: State, l: Line, sell: nat) returns (t: State)
    requires Reach(start, l.session, k, s) && Lined(s, l) && l.lo <= l.hi && l.hi - l.lo <= k
             && l.tally.flight == l.hi - l.lo
    requires 1 <= sell <= MAX_SELL && sell <= Remaining(l.total, l.seen)
    requires l.sold + (l.hi - l.lo) * sell < NUMERIC_LIMIT
    ensures Reach(start, l.session, k, t) && Lined(t, AllSold(l, sell))
    decreases l.hi - l.lo
  {
    hide Reach, Lined, Remaining;
    t := s;
    if l.lo < l.hi {
      OneMoreSell(l.hi - l.lo - 1, sell);
      t := SellFirst(start, k, s, l, sell);
      t := SellMany(start, k, t, Sold(l, sell), sell);
    } else {
      assert (l.hi - l.lo) * sell == 0;
      assert l == AllSold(l, sell);
    }
  }

  lemma OneMoreSell(count: nat, sell: nat)
    ensures (count + 1) * sell == sell + count * sell && count * sell >= 0
  {
  }

  // ----- Sessions at rest -----

  /** Nobody is in flight; this much is sold, and this much recorded without a credit. */
  datatype Rest = Rest(session: string, total: U256.Word, sold: int, base: int, orphans: nat, uncredited: nat,
                       quiet: bool)

  ghost predicate Idle(s: State, r: Rest) {
    Lined(s, Line(r.session, r.total, r.sold, r.sold, r.base, |s.handlers|, |s.handlers|,
                  Tally(0, 0, r.orphans, r.uncredited), r.quiet))
  }

  /** At rest the session has sold what it says, and nothing is pending. */
  lemma IdleMeans(s: State, r: Rest)
    requires Idle(s, r)
    ensures r.session in s.sessions && s.sessions[r.session].sold == r.sold && s.sessions[r.session].total == r.total
    ensures TallyOf(s.handlers, r.session) == Tally(0, 0, r.orphans, r.uncredited)
    ensures r.quiet ==> Nobody(s, r.session)
    ensures Idle(s, r.(quiet := false))
  {
  }

  /** After `count` sells of the same size from one amount sold. */
  function Risen(r: Rest, count: nat, sell: nat): Rest {
    r.(sold := r.sold + count * sell, quiet := r.quiet && (count == 0 || (0 <= r.sold && r.sold + sell < r.total)))
  }

  /** `count` handlers take their snapshots together, and each then sells the same amount. */
  lemma Burst(start: State, k: nat, s: State, r: Rest, count: nat, sell: nat) returns (t: State)
    requires Reach(start, r.session, k, s) && Idle(s, r) && count <= k
    requires 1 <= sell <= MAX_SELL && sell <= Remaining(r.total, r.sold) && r.sold + count * sell < NUMERIC_LIMIT
    ensures Reach(start, r.session, k, t) && Idle(t, Risen(r, count, sell))
  {
    hide Reach, Remaining, Behind, KeysBelow;
    var n := |s.handlers|;
    var l := Line(r.session, r.total, r.sold, r.sold, r.base, n, n, Tally(0, 0, r.orphans, r.uncredited), r.quiet);
    var u := SnapMany(start, k, s, l, count);
    t := SellMany(start, k, u, l.(hi := n + count, tally := l.tally.(flight := count)), sell);
    LinedEnds(t, AllSold(l.(hi := n + count, tally := l.tally.(flight := count)), sell));
  }

  lemma LinedEnds(s: State, l: Line)
    requires Lined(s, l)
    ensures l.hi == |s.handlers|
    ensures l.lo == l.hi ==> Lined(s, l.(seen := l.sold))
  {
  }

  /** One handler records a sell and stops before its credit. */
  lemma Forgo(start: State, k: nat, s: State, r: Rest, sell: nat) returns (t: State)
    requires Reach(start, r.session, k, s) && Idle(s, r) && k >= 1
    requires 1 <= sell <= MAX_SELL && sell <= Remaining(r.total, r.sold)
    ensures Reach(start, r.session, k, t) && Idle(t, r.(orphans := r.orphans + 1, uncredited := r.uncredited + sell))
  {
    hide Reach, Remaining, Behind, KeysBelow;
    var n := |s.handlers|;
    var l := Line(r.session, r.total, r.sold, r.sold, r.base, n, n, Tally(0, 0, r.orphans, r.uncredited), r.quiet);
    var u := Snap(start, k, s, l);
    t := LoseFirst(start, k, u, Joined(l), sell);
    LinedEnds(t, Forgone(Joined(l), sell));
  }

  /** One handler after the other, the amount sold can be brought up to any amount within the total. */
  lemma {:induction false} Climb(start: State, k: nat, s: State, r: Rest, target: int) returns (t: State)
    requires Reach(start, r.session, k, s) && Idle(s, r) && k >= 1 && 0 <= r.sold <= target <= r.total
    ensures Reach(start, r.session, k, t)
    ensures Idle(t, r.(sold := target, quiet := r.quiet && (r.sold == target || target < r.total)))
    decreases target - r.sold
  {
    hide Reach, Idle;
    t := s;
    if r.sold < target {
      var sell := Least(MAX_SELL, target - r.sold);
      assert 1 * sell == sell;
      t := Burst(start, k, s, r, 1, sell);
      t := Climb(start, k, t, Risen(r, 1, sell), target);
    }
  }

  /** Past 256 bits the gate is open again, and the amount sold grows up to the limit of its column. */
  lemma {:induction false} Runaway(start: State, k: nat, s: State, r: Rest, target: int) returns (t: State)
    requires Reach(start, r.session, k, s) && Idle(s, r) && k >= 1 && r.total > 0
    requires U256.TWO_256 <= r.sold <= target < NUMERIC_LIMIT
    ensures Reach(start, r.session, k, t) && Idle(t, r.(sold := target, quiet := false))
    decreases target - r.sold
  {
    hide Reach, Idle;
    t := s;
    if r.sold < target {
      assert Remaining(r.total, r.sold) == r.total;
      t := Burst(start, k, s, r, 1, 1);
      t := Runaway(start, k, t, Risen(r, 1, 1), target);
    } else {
      IdleMeans(s, r);
    }
  }

  // ----- Everybody pending -----

  /** The handlers from `mid` on hold snapshots; those before them have recorded `pending` without a credit. */
  ghost predicate Waiting(s: State, l: Line, mid: nat, pending: nat) {
    && l.session in s.sessions && s.sessions[l.session] == Session(l.total, l.sold, Active) && l.session in s.submitted
    && mid <= l.hi == |s.handlers|
    && (forall h :: mid <= h < l.hi ==> s.handlers[h] == Handler(KeyAt(l, h), Snapshotted(l.total, l.seen)))
    && KeysBelow(s.rows, l.session, l.base + mid)
    && TallyOf(s.handlers, l.session) == l.tally.(pending := pending, uncredited := l.tally.uncredited + pending)
  }

  /** The first of those has sent its sell. */
  ghost predicate Sending(s: State, l: Line, mid: nat, pending: nat, sell: nat) {
    && l.session in s.sessions && s.sessions[l.session] == Session(l.total, l.sold, Active) && l.session in s.submitted
    && mid < l.hi == |s.handlers| && s.handlers[mid] == Handler(KeyAt(l, mid), Sent(l.total, l.seen, sell, ""))
    && (forall h :: mid < h < l.hi ==> s.handlers[h] == Handler(KeyAt(l, h), Snapshotted(l.total, l.seen)))
    && KeysBelow(s.rows, l.session, l.base + mid)
    && TallyOf(s.handlers, l.session) ==
       l.tally.(pending := pending + sell, uncredited := l.tally.uncredited + pending)
  }

  lemma SendWaiting(s: State, l: Line, mid: nat, pending: nat, sell: nat)
    requires Waiting(s, l, mid, pending) && mid < l.hi
    requires 1 <= sell <= MAX_SELL && sell <= Remaining(l.total, l.seen)
    ensures sell * 10_000 <= U256.MAX && Enabled(s, Submit(mid, sell, 10_000, ""))
    ensures Sending(Apply(s, Submit(mid, sell, 10_000, "")), l, mid, pending, sell)
  {
    hide Gate, Remaining, DoInsert, DoCredit, DoFinish, DoMark, Seen, CrashedPhase, TallyOf;
    AnySell(l.total, l.seen, sell);
    TallyMoves(s, mid, Sent(l.total, l.seen, sell, ""), l.session);
  }

  lemma InsertWaiting(s: State, l: Line, mid: nat, pending: nat, sell: nat)
    requires Sending(s, l, mid, pending, sell)
    ensures Enabled(s, Insert(mid, 0)) && Waiting(Apply(s, Insert(mid, 0)), l, mid + 1, pending + sell)
  {
    hide Gate, DoSubmit, DoCredit, DoFinish, DoMark, Seen, CrashedPhase, TallyOf;
    assert !HasKey(s.rows, KeyAt(l, mid));
    TallyMoves(s, mid, Recorded(l.total, l.seen, sell, "", |s.rows|), l.session);
  }

  lemma WaitingWithin(s: State, l: Line, mid: nat, pending: nat, k: nat)
    requires Waiting(s, l, mid, pending) || exists sell :: Sending(s, l, mid, pending, sell)
    requires l.tally.flight <= k
    ensures Within(s, AtMost(l.session, k))
  {
  }

  function Piled(pending: nat, count: nat, sell: nat): nat {
    pending + count * sell
  }

  lemma {:induction false} RecordMany(start: State, k: nat, s: State, l: Line, mid: nat, pending: nat, sell: nat)
    returns (t: State)
    requires Reach(start, l.session, k, s) && Waiting(s, l, mid, pending) && mid <= l.hi && l.tally.flight <= k
    requires 1 <= sell <= MAX_SELL && sell <= Remaining(l.total, l.seen)
    ensures Reach(start, l.session, k, t) && Waiting(t, l, l.hi, Piled(pending, l.hi - mid, sell))
    decreases l.hi - mid
  {
    hide Reach, Waiting, Sending, Remaining, Enabled, Apply, Within;
    t := s;
    if mid < l.hi {
      SendWaiting(s, l, mid, pending, sell);
      var u := Apply(s, Submit(mid, sell, 10_000, ""));
      WaitingWithin(u, l, mid, pending, k);
      ReachStep(start, l.session, k, s, Submit(mid, sell, 10_000, ""));
      InsertWaiting(u, l, mid, pending, sell);
      t := Apply(u, Insert(mid, 0));
      WaitingWithin(t, l, mid + 1, pending + sell, k);
      ReachStep(start, l.session, k, u, Insert(mid, 0));
      OneMoreSell(l.hi - mid - 1, sell);
      t := RecordMany(start, k, t, l, mid + 1, pending + sell, sell);
    } else {
      assert (l.hi - mid) * sell == 0;
    }
  }

  /** k handlers take their snapshots together, send their sells and record them, and none is credited yet. */
  lemma RecordTogether(start: State, k: nat, s: State, r: Rest, sell: nat) returns (t: State)
    requires Reach(start, r.session, k, s) && Idle(s, r)
    requires 1 <= sell <= MAX_SELL && sell <= Remaining(r.total, r.sold)
    ensures Reach(start, r.session, k, t)
    ensures r.session in t.sessions && t.sessions[r.session].sold == r.sold
    ensures TallyOf(t.handlers, r.session) == Tally(k, Piled(0, k, sell), r.orphans, Piled(r.uncredited, k, sell))
  {
    hide Reach, Remaining;
    var n := |s.handlers|;
    var l := Line(r.session, r.total, r.sold, r.sold, r.base, n, n, Tally(0, 0, r.orphans, r.uncredited), r.quiet);
    var u := SnapMany(start, k, s, l, k);
    var l' := l.(hi := n + k, tally := l.tally.(flight := k));
    LinedWaits(u, l');
    t := RecordMany(start, k, u, l', n, 0, sell);
  }

  lemma LinedWaits(s: State, l: Line)
    requires Lined(s, l) && l.tally.pending == 0
    ensures Waiting(s, l, l.lo, 0)
  {
  }

  // ----- The start -----

  function FreshIndex(rows: Table): (r: int)
    ensures forall i :: 0 <= i < |rows| ==> rows[i].key.logIndex < r
  {
    if rows == [] then 0
    else
      var most := FreshIndex(rows[..|rows| - 1]);
      var last := rows[|rows| - 1].key.logIndex;
      assert forall i :: 0 <= i < |rows| - 1 ==> rows[i] == rows[..|rows| - 1][i];
      if last < most then most else last + 1
  }

  /** The session before any handler has started, once it is active. */
  ghost function Fresh(s: State, session: string): Rest
    requires session in s.sessions && 0 <= s.sessions[session].total < U256.TWO_256
  {
    Rest(session, s.sessions[session].total, s.sessions[session].sold, FreshIndex(s.rows), 0, 0, true)
  }

  lemma Started(s: State, session: string, k: nat) returns (t: State)
    requires Balanced(s) && session in s.sessions && 0 <= s.sessions[session].total < U256.TWO_256
    ensures Reach(s, session, k, t) && Idle(t, Fresh(s, session))
  {
    assert Run(s, [], AtMost(session, k)) == Some(s);
    t := Apply(s, SetSessionStatus(session, Active));
    ReachStep(s, session, k, s, SetSessionStatus(session, Active));
  }
}
