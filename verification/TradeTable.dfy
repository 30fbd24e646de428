/** The trades and sessions tables, and the SQL statements the execution engine runs on them. */
module TradeTable {
  import opened Wrappers
  import opened Ascii
  import opened Sums
  import U256

  /** `failure_reason`; the engine writes these three and no others. */
  datatype Reason = TransactionReverted | ReceiptLookupError(detail: string) | ReceiptFinalizationError(detail: string)

  datatype TradeStatus = Submitted | Confirmed | Failed

  /** The idempotency key: the unique index on the trades table. */
  datatype TriggerKey = TriggerKey(session: string, txHash: string, pool: string, logIndex: int)

  datatype Trade = Trade(
    key: TriggerKey,
    sellAmount: nat,
    sellTxHash: Option<string>,
    executedAt: int,
    status: TradeStatus,
    failureReason: Option<Reason>,
    finalReceived: Option<nat>)

  datatype SessionStatus = Active | Completed | Inactive

  datatype Session = Session(total: int, sold: int, status: SessionStatus)

  type Table = seq<Trade>
  type Sessions = map<string, Session>

  function NewTrade(key: TriggerKey, sell: nat, tx: Option<string>, now: int): Trade {
    Trade(key, sell, tx, now, Submitted, None, None)
  }

  predicate HasKey(rows: Table, key: TriggerKey) {
    exists i :: 0 <= i < |rows| && rows[i].key == key
  }

  /** What the unique index guarantees. */
  ghost predicate UniqueKeys(rows: Table) {
    forall i, j :: 0 <= i < j < |rows| ==> rows[i].key != rows[j].key
  }

  /** INSERT … ON CONFLICT DO NOTHING. */
  function InsertRow(rows: Table, trade: Trade): Table {
    if HasKey(rows, trade.key) then rows else rows + [trade]
  }

  /** The columns of amounts are NUMERIC(78, 0): a statement that would exceed them fails. */
  const NUMERIC_LIMIT: nat :=
    1_000_000_000_000_000_000_000_000_000_000_000_000_000_000_000_000_000_000_000_000_000_000_000_000_000_000

  predicate CreditFits(sessions: Sessions, id: string, amount: nat) {
    id in sessions ==> sessions[id].sold + amount < NUMERIC_LIMIT
  }

  /** UPDATE sessions SET amount_sold = amount_sold + amount, when it fits. */
  function CreditRow(sessions: Sessions, id: string, amount: nat): Sessions {
    if id in sessions then sessions[id := sessions[id].(sold := sessions[id].sold + amount)] else sessions
  }

  /** UPDATE trades SET status = 'confirmed', failure_reason = NULL. */
  function ConfirmRow(rows: Table, id: nat): Table {
    if id < |rows| then rows[id := rows[id].(status := Confirmed, failureReason := None)] else rows
  }

  /** UPDATE trades SET status = 'failed' … AND status <> 'confirmed'. */
  function FailRow(rows: Table, id: nat, reason: Reason): Table {
    if id < |rows| && rows[id].status != Confirmed then
      rows[id := rows[id].(status := Failed, failureReason := Some(reason))]
    else
      rows
  }

  /** UPDATE trades SET final_received. */
  function ReceiveRow(rows: Table, id: nat, amount: nat): Table {
    if id < |rows| then rows[id := rows[id].(finalReceived := Some(amount))] else rows
  }

  /** What one receipt query answers. */
  datatype Lookup = Pending | Mined(received: Option<nat>) | Reverted | Unreachable(detail: string)

  /** The statements a receipt makes the engine run, confirmation before the received amount. */
  function Settle(rows: Table, id: nat, lookup: Lookup): Table {
    match lookup
    case Mined(Some(amount)) => ReceiveRow(ConfirmRow(rows, id), id, amount)
    case Mined(None) => ConfirmRow(rows, id)
    case Reverted => FailRow(rows, id, TransactionReverted)
    case Pending => rows
    case Unreachable(_) => rows
  }

  /** The trade status conditions every reader of the table relies on. */
  predicate Coherent(t: Trade) {
    && (t.status == Confirmed ==> t.failureReason == None)
    && (t.status == Failed <==> t.failureReason.Some?)
    && (t.finalReceived.Some? ==> t.status == Confirmed)
  }

  ghost predicate AllCoherent(rows: Table) {
    forall i :: 0 <= i < |rows| ==> Coherent(rows[i])
  }

  /** Of a confirmation and a failure of one trade the confirmation wins, whichever statement comes first. */
  lemma ConfirmationWins(rows: Table, id: nat, reason: Reason)
    ensures FailRow(ConfirmRow(rows, id), id, reason) == ConfirmRow(rows, id)
    ensures ConfirmRow(FailRow(rows, id, reason), id) == ConfirmRow(rows, id)
  {
    if id < |rows| {
      var (failed, confirmed) := (FailRow(rows, id, reason), ConfirmRow(rows, id));
      assert ConfirmRow(failed, id) == confirmed && FailRow(confirmed, id, reason) == confirmed;
    }
  }

  /** Statements about different trades can be run in either order. */
  lemma StatementsCommute(rows: Table, i: nat, j: nat, reason: Reason, amount: nat)
    requires i != j
    ensures FailRow(ConfirmRow(rows, i), j, reason) == ConfirmRow(FailRow(rows, j, reason), i)
    ensures ReceiveRow(ConfirmRow(rows, i), j, amount) == ConfirmRow(ReceiveRow(rows, j, amount), i)
    ensures ReceiveRow(FailRow(rows, i, reason), j, amount) == FailRow(ReceiveRow(rows, j, amount), i, reason)
  {
    if i < |rows| && j < |rows| {
      assert FailRow(ConfirmRow(rows, i), j, reason) == ConfirmRow(FailRow(rows, j, reason), i);
      assert ReceiveRow(ConfirmRow(rows, i), j, amount) == ConfirmRow(ReceiveRow(rows, j, amount), i);
      assert ReceiveRow(FailRow(rows, i, reason), j, amount) == FailRow(ReceiveRow(rows, j, amount), i, reason);
    }
  }

  /**
    Storing the received amount keeps coherent rows coherent exactly when the trade is confirmed, which is
    why the confirmation comes first.
   */
  lemma ReceiveAfterConfirmIff(rows: Table, id: nat, amount: nat)
    requires AllCoherent(rows)
    ensures AllCoherent(ReceiveRow(rows, id, amount)) <==> id >= |rows| || rows[id].status == Confirmed
  {
    if id < |rows| && AllCoherent(ReceiveRow(rows, id, amount)) {
      assert Coherent(ReceiveRow(rows, id, amount)[id]);
    }
  }

  // ----- Column totals -----

  ghost function SellOf(session: string): Trade -> nat {
    (t: Trade) => if t.key.session == session then t.sellAmount else 0
  }

  ghost function ReceivedOf(session: string): Trade -> nat {
    (t: Trade) => if t.key.session == session && t.finalReceived.Some? then t.finalReceived.value else 0
  }

  ghost function ConfirmedReceivedOf(session: string): Trade -> nat {
    (t: Trade) =>
      if t.key.session == session && t.status == Confirmed && t.finalReceived.Some? then t.finalReceived.value else 0
  }

  /** On coherent rows the total the gateway reports, which filters on 'confirmed', misses nothing. */
  lemma {:induction false} ConfirmedTotalIsTotal(rows: Table, session: string)
    requires AllCoherent(rows)
    ensures Sum(ConfirmedReceivedOf(session), rows) == Sum(ReceivedOf(session), rows)
  {
    if rows != [] {
      ConfirmedTotalIsTotal(rows[..|rows| - 1], session);
      assert Coherent(rows[|rows| - 1]);
    }
  }

  /** The index of the row with the given key. */
  function RowOf(rows: Table, key: TriggerKey): (i: nat)
    requires HasKey(rows, key)
    ensures i < |rows| && rows[i].key == key
  {
    if rows[|rows| - 1].key == key then |rows| - 1 else RowOf(rows[..|rows| - 1], key)
  }

  /** The reply that ends the finaliser's polling: the first one that is not 'no receipt yet'. */
  function FirstDecisive(polls: seq<Lookup>): (r: Lookup)
    ensures r == Pending <==> forall i :: 0 <= i < |polls| ==> polls[i] == Pending
    ensures r != Pending ==>
              exists i :: 0 <= i < |polls| && polls[i] == r && forall j :: 0 <= j < i ==> polls[j] == Pending
  {
    if polls == [] then Pending
    else if polls[0] != Pending then polls[0]
    else
      var later := FirstDecisive(polls[1..]);
      assert later != Pending ==>
          exists i :: 0 <= i < |polls| && polls[i] == later && forall j :: 0 <= j < i ==> polls[j] == Pending by {
        if later != Pending {
          var i :| 0 <= i < |polls| - 1 && polls[1..][i] == later
            && forall j :: 0 <= j < i ==> polls[1..][j] == Pending;
          assert polls[i + 1] == later;
          assert forall j :: 1 <= j < i + 1 ==> polls[j] == polls[1..][j - 1];
        }
      }
      later
  }

  datatype Finalization = Finalization(status: TradeStatus, reason: Option<Reason>, received: Option<nat>)

  function FinalizationOf(lookup: Lookup): Finalization {
    match lookup
    case Pending => Finalization(Submitted, None, None)
    case Mined(received) => Finalization(Confirmed, None, received)
    case Reverted => Finalization(Failed, Some(TransactionReverted), None)
    case Unreachable(detail) => Finalization(Failed, Some(ReceiptLookupError(detail)), None)
  }

  /** The finaliser, unlike the reconciler, fails the trade when the receipt cannot be read. */
  function FinalizeRow(rows: Table, id: nat, lookup: Lookup): Table {
    if lookup.Unreachable? then FailRow(rows, id, ReceiptLookupError(lookup.detail)) else Settle(rows, id, lookup)
  }

  /** The rows but the one with the given index are the same. */
  ghost predicate OthersSame(rows: Table, rows': Table, id: nat) {
    |rows'| == |rows| && forall i :: 0 <= i < |rows| && i != id ==> rows'[i] == rows[i]
  }

  /** What the finaliser leaves of its trade, and what it replies. */
  lemma FinalizedTells(rows: Table, id: nat, lookup: Lookup)
    ensures OthersSame(rows, FinalizeRow(rows, id, lookup), id)
    ensures id < |rows| ==>
              var (t, t', reply) := (rows[id], FinalizeRow(rows, id, lookup)[id], FinalizationOf(lookup));
              match lookup
              case Pending => t' == t && reply == Finalization(Submitted, None, None)
              case Mined(received) =>
                && t' == t.(status := Confirmed, failureReason := None, finalReceived := t'.finalReceived)
                && t'.finalReceived == (if received.Some? then received else t.finalReceived)
                && reply == Finalization(Confirmed, None, received)
              case Reverted =>
                && (t.status == Confirmed ==> t' == t)
                && (t.status != Confirmed ==>
                      t' == t.(status := TradeStatus.Failed, failureReason := Some(TransactionReverted)))
                && reply == Finalization(TradeStatus.Failed, Some(TransactionReverted), None)
              case Unreachable(detail) =>
                && (t.status == Confirmed ==> t' == t)
                && (t.status != Confirmed ==>
                      t' == t.(status := TradeStatus.Failed, failureReason := Some(ReceiptLookupError(detail))))
                && reply == Finalization(TradeStatus.Failed, Some(ReceiptLookupError(detail)), None)
  {
  }

  /**
    The reply tells what is in the table exactly where no one else has decided the trade differently: it
    was submitted, or failed and the receipt is there after all, or confirmed and this receipt says so too.
   */
  lemma {:induction false} ReplyIsRowIff(rows: Table, id: nat, lookup: Lookup)
    requires id < |rows| && Coherent(rows[id])
    ensures
      var (t, t', reply) := (rows[id], FinalizeRow(rows, id, lookup)[id], FinalizationOf(lookup));
      (reply == Finalization(t'.status, t'.failureReason, t'.finalReceived) <==>
        match t.status
        case Submitted => true
        case Failed => !lookup.Pending?
        case Confirmed => lookup.Mined? && (lookup.received.Some? || t.finalReceived == None))
  {
    FinalizedTells(rows, id, lookup);
  }

  /** What `record_trade` answers; its error leaves the row that was inserted. */
  datatype Recording = Inserted(id: nat) | Existing(id: nat) | CreditFailed(id: nat)

  class TradeStore {
    var trades: Table
    var sessions: Sessions

    constructor (initial: Sessions)
      ensures trades == [] && sessions == initial
    {
      trades := [];
      sessions := initial;
    }

    /**
      Inserts the trade and credits the session, the second only when the first made a row. When the
      credit does not fit its column the row stays and the caller gets the error.
     */
    method RecordTrade(key: TriggerKey, sell: nat, tx: Option<string>, now: int) returns (recorded: Recording)
      modifies this
      ensures recorded.Existing? <==> HasKey(old(trades), key)
      ensures recorded.CreditFailed? <==> !HasKey(old(trades), key) && !CreditFits(old(sessions), key.session, sell)
      ensures trades == InsertRow(old(trades), NewTrade(key, sell, tx, now))
      ensures sessions == if recorded.Inserted? then CreditRow(old(sessions), key.session, sell) else old(sessions)
      ensures recorded.id < |trades| && trades[recorded.id].key == key
      ensures !recorded.Existing? ==>
                && recorded.id == |old(trades)| && trades[..recorded.id] == old(trades)
                && trades[recorded.id] == Trade(key, sell, tx, now, Submitted, None, None)
      ensures old(UniqueKeys(trades)) ==> UniqueKeys(trades)
      ensures old(AllCoherent(trades)) ==> AllCoherent(trades)
    {
      if HasKey(trades, key) {
        return Existing(RowOf(trades, key));
      }
      trades := trades + [NewTrade(key, sell, tx, now)];
      var id := |trades| - 1;
      if key.session in sessions {
        var session := sessions[key.session];
        if session.sold + sell >= NUMERIC_LIMIT {
          return CreditFailed(id);
        }
        sessions := sessions[key.session := session.(sold := session.sold + sell)];
      }
      recorded := Inserted(id);
    }

    method MarkConfirmed(id: nat)
      modifies this`trades
      ensures trades == ConfirmRow(old(trades), id)
      ensures old(AllCoherent(trades)) ==> AllCoherent(trades)
    {
      if id < |trades| {
        trades := trades[id := trades[id].(status := Confirmed, failureReason := None)];
      }
    }

    method MarkFailed(id: nat, reason: Reason)
      modifies this`trades
      ensures trades == FailRow(old(trades), id, reason)
      ensures old(AllCoherent(trades)) ==> AllCoherent(trades)
      ensures forall i :: 0 <= i < |trades| && old(trades[i]).status == Confirmed ==> trades[i] == old(trades[i])
    {
      if id < |trades| && trades[id].status != Confirmed {
        trades := trades[id := trades[id].(status := Failed, failureReason := Some(reason))];
      }
    }

    method UpdateReceived(id: nat, amount: nat)
      modifies this`trades
      ensures trades == ReceiveRow(old(trades), id, amount)
      ensures old(AllCoherent(trades)) ==>
                (AllCoherent(trades) <==> id >= |trades| || trades[id].status == Confirmed)
    {
      if id < |trades| {
        trades := trades[id := trades[id].(finalReceived := Some(amount))];
      }
    }

    /** Polls for the receipt; `polls` are the answers up to the 60-second deadline. */
    method FinalizeFromReceipt(id: nat, tx: Option<string>, polls: seq<Lookup>) returns (result: Finalization)
      modifies this`trades
      ensures tx.None? || Trim(tx.value) == "" ==> trades == old(trades) && result == FinalizationOf(Pending)
      ensures tx.Some? && Trim(tx.value) != "" ==>
                && trades == FinalizeRow(old(trades), id, FirstDecisive(polls))
                && result == FinalizationOf(FirstDecisive(polls))
      ensures OthersSame(old(trades), trades, id)
      ensures id < |trades| && old(trades[id]).status == Submitted && Coherent(old(trades[id])) ==>
                result == Finalization(trades[id].status, trades[id].failureReason, trades[id].finalReceived)
      ensures old(AllCoherent(trades)) ==> AllCoherent(trades)
    {
      if id < |trades| && Coherent(trades[id]) {
        ReplyIsRowIff(trades, id, FirstDecisive(polls));
      }
      FinalizedTells(trades, id, FirstDecisive(polls));
      if tx.None? || Trim(tx.value) == "" {
        return FinalizationOf(Pending);
      }
      var i := 0;
      while i < |polls|
        invariant i <= |polls| && trades == old(trades)
        invariant FirstDecisive(polls) == FirstDecisive(polls[i..])
      {
        match polls[i]
        case Mined(received) =>
          MarkConfirmed(id);
          if received.Some? {
            UpdateReceived(id, received.value);
          }
          return FinalizationOf(polls[i]);
        case Reverted =>
          MarkFailed(id, TransactionReverted);
          return FinalizationOf(polls[i]);
        case Unreachable(detail) =>
          MarkFailed(id, ReceiptLookupError(detail));
          return FinalizationOf(polls[i]);
        case Pending =>
          i := i + 1;
      }
      return FinalizationOf(Pending);
    }
  }
}
