/**
  Everything that touches the trade ledger, as an interleaving of single SQL statements: any number of
  event handlers (replicas, redeliveries and duplicate triggers alike), the finaliser of each recorded
  trade, the reconcilers, crashes at every point, and receipts appearing on chain.
 */
module TradeProtocol {
  import opened Wrappers
  import opened TradeTable
  import opened Sums
  import U256

  /** 3. of `process_swap_event`: buy * pov, in wrapping 256-bit arithmetic, over 10000. */
  function PovSell(buy: U256.Word, povBps: U256.Word): U256.Word {
    U256.WrappingMul(buy, povBps) / 10_000
  }

  /** What a session snapshot still allows to be sold. */
  function Remaining(total: int, sold: int): U256.Word {
    U256.SaturatingSub(U256.FromNumeric(total), U256.FromNumeric(sold))
  }

  /** The sell amount, or None when the session is sold out. */
  function Gate(total: int, sold: int, buy: U256.Word, povBps: U256.Word): Option<U256.Word> {
    if Remaining(total, sold) == 0 then None else Some(U256.Min(PovSell(buy, povBps), Remaining(total, sold)))
  }

  // ----- State -----

  /**
    Where a handler stands with one session. `total` and `sold` are its snapshot. The last six
    phases are final; they record what became of the sell.
   */
  datatype Phase =
    | Snapshotted(total: int, sold: int)
    | Sent(total: int, sold: int, sell: nat, tx: string)
    | Recorded(total: int, sold: int, sell: nat, tx: string, row: nat)
    | Credited(total: int, sold: int, sell: nat, tx: string, row: nat)
    | Finished(total: int, sold: int, sell: nat, row: nat, announced: bool)   // completion UPDATE issued?
    | Stopped(total: int, sold: int, sell: nat, row: nat)   // credited, and never got to the end
    | Skipped
    | Duplicate(sell: nat)
    | Lost(sell: nat)
    | Orphaned(sell: nat, row: nat)

  datatype Handler = Handler(key: TriggerKey, phase: Phase)

  datatype WriterKind = Finaliser | Reconciler

  datatype WriterPhase =
    | Selected
    | SawMined(received: Option<nat>)
    | SawReverted
    | SawError(detail: string)
    | Receiving(amount: nat)
    | Erring(detail: string)
    | Done

  /** A task that sets the status of one trade from its receipt. */
  datatype Writer = Writer(kind: WriterKind, row: nat, tx: string, phase: WriterPhase)

  datatype Receipt = Succeeded(received: Option<nat>) | Revert

  datatype State = State(
    rows: Table,
    sessions: Sessions,
    handlers: seq<Handler>,
    writers: seq<Writer>,
    receipts: map<string, Receipt>,
    submitted: map<string, nat>)   // per session: amount sent to the chain

  datatype Step =
    | Snapshot(key: TriggerKey)
    | Skip(h: nat)
    | Submit(h: nat, buy: U256.Word, povBps: U256.Word, tx: string)
    | Insert(h: nat, now: int)
    | Credit(h: nat)
    | Finish(h: nat)
    | Crash(h: nat)
    | SetSessionStatus(id: string, status: SessionStatus)
    | Mine(tx: string, receipt: Receipt)
    | StartFinaliser(h: nat)
    | StartReconciler(row: nat)
    | Observe(w: nat)
    | ObserveError(w: nat, detail: string)
    | Mark(w: nat)
    | Receive(w: nat)
    | WriterFails(w: nat, detail: string)
    | WriterStops(w: nat)

  // ----- Steps -----

  predicate InPhase(s: State, h: nat) {
    h < |s.handlers|
  }

  function PhaseOf(s: State, h: nat): Phase
    requires InPhase(s, h)
  {
    s.handlers[h].phase
  }

  predicate Live(p: Phase) {
    p.Snapshotted? || p.Sent? || p.Recorded? || p.Credited?
  }

  predicate Enabled(s: State, step: Step) {
    match step
    case Snapshot(key) => key.session in s.sessions && s.sessions[key.session].status == Active
    case Skip(h) => InPhase(s, h) && PhaseOf(s, h).Snapshotted?
    case Submit(h, buy, povBps, tx) =>
      && InPhase(s, h) && PhaseOf(s, h).Snapshotted?
      && Gate(PhaseOf(s, h).total, PhaseOf(s, h).sold, buy, povBps).Some?
      && s.handlers[h].key.session in s.submitted
    case Insert(h, _) => InPhase(s, h) && PhaseOf(s, h).Sent?
    case Credit(h) => InPhase(s, h) && PhaseOf(s, h).Recorded?
    case Finish(h) => InPhase(s, h) && PhaseOf(s, h).Credited?
    case Crash(h) => InPhase(s, h) && Live(PhaseOf(s, h))
    case SetSessionStatus(id, _) => id in s.sessions
    case Mine(tx, _) => tx !in s.receipts
    case StartFinaliser(h) => InPhase(s, h) && PhaseOf(s, h).Credited?
    case StartReconciler(row) =>
      && row < |s.rows| && s.rows[row].status == Submitted
      && s.rows[row].sellTxHash.Some? && s.rows[row].sellTxHash.value != ""
    case Observe(w) => w < |s.writers| && s.writers[w].phase == Selected && s.writers[w].tx in s.receipts
    case ObserveError(w, _) => w < |s.writers| && s.writers[w].phase == Selected
    case Mark(w) =>
      w < |s.writers| &&
      var p := s.writers[w].phase; p.SawMined? || p.SawReverted? || p.SawError? || p.Erring?
    case Receive(w) => w < |s.writers| && s.writers[w].phase.Receiving?
    case WriterFails(w, _) => w < |s.writers| && s.writers[w].phase != Done
    case WriterStops(w) => w < |s.writers|
  }

  function SetPhase(s: State, h: nat, p: Phase): State
    requires InPhase(s, h)
  {
    s.(handlers := s.handlers[h := s.handlers[h].(phase := p)])
  }

  function SetWriter(s: State, w: nat, p: WriterPhase): State
    requires w < |s.writers|
  {
    s.(writers := s.writers[w := s.writers[w].(phase := p)])
  }

  /** 6. The transaction is signed and sent before anything is recorded. */
  function DoSubmit(s: State, h: nat, sell: nat, tx: string): (r: State)
    requires InPhase(s, h) && PhaseOf(s, h).Snapshotted? && s.handlers[h].key.session in s.submitted
    ensures r == s.(handlers := r.handlers, submitted := r.submitted) && r.submitted.Keys == s.submitted.Keys
  {
    var p := PhaseOf(s, h);
    var id := s.handlers[h].key.session;
    SetPhase(s, h, Sent(p.total, p.sold, sell, tx)).(submitted := s.submitted[id := s.submitted[id] + sell])
  }

  /** The INSERT of `record_trade`; on a conflict the handler has nothing left to do. */
  function DoInsert(s: State, h: nat, now: int): (r: State)
    requires InPhase(s, h) && PhaseOf(s, h).Sent?
    ensures r == s.(handlers := r.handlers, rows := r.rows)
  {
    var p := PhaseOf(s, h);
    var trade := NewTrade(s.handlers[h].key, p.sell, Some(p.tx), now);
    if HasKey(s.rows, trade.key) then
      SetPhase(s, h, Duplicate(p.sell))
    else
      SetPhase(s, h, Recorded(p.total, p.sold, p.sell, p.tx, |s.rows|)).(rows := InsertRow(s.rows, trade))
  }

  /** The UPDATE of `record_trade`, a statement of its own; when it fails so does the handler. */
  function DoCredit(s: State, h: nat): (r: State)
    requires InPhase(s, h) && PhaseOf(s, h).Recorded?
    ensures r == s.(handlers := r.handlers, sessions := r.sessions) && r.sessions.Keys == s.sessions.Keys
  {
    var (p, id) := (PhaseOf(s, h), s.handlers[h].key.session);
    if CreditFits(s.sessions, id, p.sell) then
      SetPhase(s, h, Credited(p.total, p.sold, p.sell, p.tx, p.row)).(sessions := CreditRow(s.sessions, id, p.sell))
    else
      SetPhase(s, h, Orphaned(p.sell, p.row))
  }

  /** 9. A handler declares the session sold out from its own snapshot. */
  predicate Completes(p: Phase)
    requires p.Credited? || p.Finished? || p.Stopped?
  {
    U256.FromNumeric(p.sold) + p.sell >= U256.FromNumeric(p.total)
  }

  function DoFinish(s: State, h: nat): (r: State)
    requires InPhase(s, h) && PhaseOf(s, h).Credited?
    ensures r == s.(handlers := r.handlers, sessions := r.sessions) && r.sessions.Keys == s.sessions.Keys
  {
    var p := PhaseOf(s, h);
    var id := s.handlers[h].key.session;
    var done := SetPhase(s, h, Finished(p.total, p.sold, p.sell, p.row, Completes(p)));
    if Completes(p) && id in s.sessions then
      done.(sessions := s.sessions[id := s.sessions[id].(status := Completed)])
    else
      done
  }

  function CrashedPhase(p: Phase): Phase
    requires Live(p)
  {
    match p
    case Snapshotted(_, _) => Skipped
    case Sent(_, _, sell, _) => Lost(sell)
    case Recorded(_, _, sell, _, row) => Orphaned(sell, row)
    case Credited(total, sold, sell, _, row) => Stopped(total, sold, sell, row)
  }

  /** A writer's next statement: confirm, or fail with the reason it has. */
  function DoMark(s: State, w: nat): (r: State)
    requires Enabled(s, Mark(w))
    ensures r == s.(rows := r.rows, writers := r.writers) && |r.rows| == |s.rows| && |r.writers| == |s.writers|
  {
    var writer := s.writers[w];
    match writer.phase
    case SawMined(Some(amount)) => SetWriter(s, w, Receiving(amount)).(rows := ConfirmRow(s.rows, writer.row))
    case SawMined(None) => SetWriter(s, w, Done).(rows := ConfirmRow(s.rows, writer.row))
    case SawReverted => SetWriter(s, w, Done).(rows := FailRow(s.rows, writer.row, TransactionReverted))
    case SawError(detail) =>
      if writer.kind == Finaliser then
        SetWriter(s, w, Done).(rows := FailRow(s.rows, writer.row, ReceiptLookupError(detail)))
      else
        SetWriter(s, w, Done)
    case Erring(detail) => SetWriter(s, w, Done).(rows := FailRow(s.rows, writer.row, ReceiptFinalizationError(detail)))
  }

  function Seen(receipt: Receipt): WriterPhase {
    match receipt
    case Succeeded(received) => SawMined(received)
    case Revert => SawReverted
  }

  function Apply(s: State, step: Step): State
    requires Enabled(s, step)
  {
    match step
    case Snapshot(key) =>
      var session := s.sessions[key.session];
      s.(handlers := s.handlers + [Handler(key, Snapshotted(session.total, session.sold))])
    case Skip(h) => SetPhase(s, h, Skipped)
    case Submit(h, buy, povBps, tx) =>
      DoSubmit(s, h, Gate(PhaseOf(s, h).total, PhaseOf(s, h).sold, buy, povBps).value, tx)
    case Insert(h, now) => DoInsert(s, h, now)
    case Credit(h) => DoCredit(s, h)
    case Finish(h) => DoFinish(s, h)
    case Crash(h) => SetPhase(s, h, CrashedPhase(PhaseOf(s, h)))
    case SetSessionStatus(id, status) => s.(sessions := s.sessions[id := s.sessions[id].(status := status)])
    case Mine(tx, receipt) => s.(receipts := s.receipts[tx := receipt])
    case StartFinaliser(h) =>
      s.(writers := s.writers + [Writer(Finaliser, PhaseOf(s, h).row, PhaseOf(s, h).tx, Selected)])
    case StartReconciler(row) =>
      s.(writers := s.writers + [Writer(Reconciler, row, s.rows[row].sellTxHash.value, Selected)])
    case Observe(w) => SetWriter(s, w, Seen(s.receipts[s.writers[w].tx]))
    case ObserveError(w, detail) => SetWriter(s, w, SawError(detail))
    case Mark(w) => DoMark(s, w)
    case Receive(w) =>
      SetWriter(s, w, Done).(rows := ReceiveRow(s.rows, s.writers[w].row, s.writers[w].phase.amount))
    case WriterFails(w, detail) => SetWriter(s, w, if s.writers[w].kind == Finaliser then Erring(detail) else Done)
    case WriterStops(w) => SetWriter(s, w, Done)
  }

  // ----- Runs -----

  /** A limit on how many handlers are between their snapshot and their credit on one session. */
  datatype Limit = Unlimited | AtMost(session: string, handlers: nat)

  ghost function InFlight(session: string): Handler -> nat {
    (h: Handler) =>
      if h.key.session == session && (h.phase.Snapshotted? || h.phase.Sent? || h.phase.Recorded?) then 1 else 0
  }

  ghost predicate Within(s: State, limit: Limit) {
    limit.AtMost? ==> Sum(InFlight(limit.session), s.handlers) <= limit.handlers
  }

  /** The state after the given steps, if every one was enabled and the limit was kept throughout. */
  ghost function Run(s: State, steps: seq<Step>, limit: Limit): Option<State> {
    if steps == [] then
      if Within(s, limit) then Some(s) else None
    else
      match Run(s, steps[..|steps| - 1], limit)
      case None => None
      case Some(mid) =>
        var last := steps[|steps| - 1];
        if Enabled(mid, last) && Within(Apply(mid, last), limit) then Some(Apply(mid, last)) else None
  }

  /** No handler or writer has started, and the books balance, as the idempotency migration leaves them. */
  ghost predicate Balanced(s: State) {
    && s.handlers == [] && s.writers == []
    && UniqueKeys(s.rows)
    && s.submitted.Keys == s.sessions.Keys
    && (forall id :: id in s.sessions ==> s.sessions[id].sold == Sum(SellOf(id), s.rows) == s.submitted[id])
    && (forall i :: 0 <= i < |s.rows| ==> s.rows[i].key.session in s.sessions)
  }

  /** What is more, every trade's status is coherent and true; rows older than failure reasons need not be. */
  ghost predicate Init(s: State) {
    Balanced(s) && AllCoherent(s.rows) && forall i :: 0 <= i < |s.rows| ==> StatusTruth(s.receipts, s.rows[i])
  }

  /** A confirmed trade has a successful receipt, and a trade failed as reverted a reverted one. */
  predicate StatusTruth(receipts: map<string, Receipt>, t: Trade) {
    && (t.status == Confirmed ==>
          && t.sellTxHash.Some? && t.sellTxHash.value in receipts
          && receipts[t.sellTxHash.value].Succeeded?
          && (t.finalReceived.Some? ==> t.finalReceived == receipts[t.sellTxHash.value].received))
    && (t.failureReason == Some(TransactionReverted) ==>
          t.sellTxHash.Some? && t.sellTxHash.value in receipts && receipts[t.sellTxHash.value].Revert?)
  }
}
