/** The frontend's live store: sessions updated message by message, and what duplicates and reordering leave of them. */
module LiveStore {
  import opened Wrappers

  /** An amount text: one BigInt reads, the empty one as zero, or one at which it throws. */
  datatype Numeral = Whole(n: int) | Unreadable(text: string)

  datatype Trade = Trade(id: string, sell: Numeral, status: string, received: string, txHash: string)

  datatype LiveData = LiveData(amountSold: Numeral, remaining: Numeral, valueUsd: string, status: string,
                               recentTrades: seq<Trade>)

  datatype Message =
    | SessionUpdate(session: string, amountSold: Numeral, remaining: Numeral, valueUsd: string, status: string)
    | TradeCompleted(session: string, trade: Trade)
    | OtherMessage(session: string)

  /** A seed names the fields it knows. */
  datatype Seed = Seed(amountSold: Option<Numeral>, remaining: Option<Numeral>, valueUsd: Option<string>,
                       status: Option<string>, recentTrades: Option<seq<Trade>>)

  type Sessions = map<string, LiveData>

  function Without(trades: seq<Trade>, id: string): (r: seq<Trade>)
    ensures forall t :: t in r <==> t in trades && t.id != id
    ensures |r| <= |trades|
    ensures |r| == |trades| <==> forall i :: 0 <= i < |trades| ==> trades[i].id != id
  {
    if trades == [] then []
    else if trades[0].id == id then Without(trades[1..], id)
    else [trades[0]] + Without(trades[1..], id)
  }

  /** BigInt addition; a text it cannot read leaves the old one. */
  function Added(sold: Numeral, sell: Numeral): Numeral {
    if sold.Whole? && sell.Whole? then Whole(sold.n + sell.n) else sold
  }

  function Subtracted(remaining: Numeral, sell: Numeral): Numeral {
    if remaining.Whole? && sell.Whole? then (if remaining.n > sell.n then Whole(remaining.n - sell.n) else Whole(0))
    else remaining
  }

  const UNKNOWN: LiveData := LiveData(Whole(0), Whole(0), "0", "active", [])

  function Existing(sessions: Sessions, session: string): LiveData {
    if session in sessions then sessions[session] else UNKNOWN
  }

  function WithTrade(data: LiveData, trade: Trade): LiveData {
    var others := Without(data.recentTrades, trade.id);
    if |others| != |data.recentTrades| then data.(recentTrades := [trade] + others)
    else
      data.(amountSold := Added(data.amountSold, trade.sell), remaining := Subtracted(data.remaining, trade.sell),
            recentTrades := [trade] + others)
  }

  function Updated(sessions: Sessions, msg: Message): Sessions {
    match msg
    case SessionUpdate(id, amountSold, remaining, valueUsd, status) =>
      sessions[id := LiveData(amountSold, remaining, valueUsd, status, Existing(sessions, id).recentTrades)]
    case TradeCompleted(id, trade) => sessions[id := WithTrade(Existing(sessions, id), trade)]
    case OtherMessage(_) => sessions
  }

  function Or<T>(given: Option<T>, known: T): T {
    if given.Some? then given.value else known
  }

  function Seeded(sessions: Sessions, id: string, seed: Seed): Sessions {
    var known := if id in sessions then sessions[id] else UNKNOWN.(valueUsd := "0.00", status := "pending");
    sessions[id := LiveData(Or(seed.amountSold, known.amountSold), Or(seed.remaining, known.remaining),
                            Or(seed.valueUsd, known.valueUsd), Or(seed.status, known.status),
                            Or(seed.recentTrades, known.recentTrades))]
  }

  function AllUpdated(sessions: Sessions, msgs: seq<Message>): Sessions {
    if msgs == [] then sessions else Updated(AllUpdated(sessions, msgs[..|msgs| - 1]), msgs[|msgs| - 1])
  }

  // ----- Totals over sets of trades -----

  type Sells = map<string, nat>

  ghost function Total(ids: set<string>, sellOf: Sells): nat
    requires ids <= sellOf.Keys
  {
    if ids == {} then 0
    else
      var id :| id in ids;
      sellOf[id] + Total(ids - {id}, sellOf)
  }

  lemma {:induction false} TotalAdds(ids: set<string>, id: string, sellOf: Sells)
    requires id in ids && ids <= sellOf.Keys
    ensures Total(ids, sellOf) == sellOf[id] + Total(ids - {id}, sellOf)
  {
    var first :| first in ids && Total(ids, sellOf) == sellOf[first] + Total(ids - {first}, sellOf);
    if first != id {
      TotalAdds(ids - {first}, id, sellOf);
      TotalAdds(ids - {id}, first, sellOf);
      assert ids - {first} - {id} == ids - {id} - {first};
    }
  }

  // ----- Convergence -----

  ghost predicate DistinctIds(trades: seq<Trade>) {
    forall i, j :: 0 <= i < j < |trades| ==> trades[i].id != trades[j].id
  }

  ghost function Ids(trades: seq<Trade>): set<string> {
    set i | 0 <= i < |trades| :: trades[i].id
  }

  /** The trades a session hears of. */
  ghost function Heard(msgs: seq<Message>, session: string): set<string> {
    set i | 0 <= i < |msgs| && msgs[i].TradeCompleted? && msgs[i].session == session :: msgs[i].trade.id
  }

  predicate SellsAsSaid(trade: Trade, sellOf: Sells) {
    if trade.id in sellOf then trade.sell == Whole(sellOf[trade.id]) else trade.sell.Unreadable?
  }

  /**
    Only trade messages reach the session, and every message about one trade names the same sell:
    the one in the map, or for a trade that is not in it one that cannot be read.
   */
  ghost predicate Consistent(msgs: seq<Message>, session: string, sellOf: Sells) {
    forall i :: 0 <= i < |msgs| && msgs[i].session == session && !msgs[i].OtherMessage? ==>
      && msgs[i].TradeCompleted?
      && SellsAsSaid(msgs[i].trade, sellOf)
  }

  /** The trades that count: heard of, not known before, and with an amount that can be read. */
  ghost function Counted(base: LiveData, msgs: seq<Message>, session: string, sellOf: Sells): set<string> {
    (Heard(msgs, session) - Ids(base.recentTrades)) * sellOf.Keys
  }

  /** The amount with the counted trades' sells added; a text that cannot be read stays. */
  ghost function Raised(sold: Numeral, counted: set<string>, sellOf: Sells): Numeral
    requires counted <= sellOf.Keys
  {
    if sold.Whole? then Whole(sold.n + Total(counted, sellOf)) else sold
  }

  /** The amount with them subtracted, never below zero. */
  ghost function Lowered(remaining: Numeral, counted: set<string>, sellOf: Sells): Numeral
    requires counted <= sellOf.Keys
  {
    if remaining.Whole? && counted != {} then Whole(Floored(remaining.n - Total(counted, sellOf))) else remaining
  }

  /** What the session must show, stated without any order. */
  ghost predicate Shows(base: LiveData, now: LiveData, heard: set<string>, counted: set<string>, sellOf: Sells)
    requires counted <= sellOf.Keys
  {
    && now.amountSold == Raised(base.amountSold, counted, sellOf)
    && now.remaining == Lowered(base.remaining, counted, sellOf)
    && Ids(now.recentTrades) == Ids(base.recentTrades) + heard
    && (DistinctIds(base.recentTrades) ==> DistinctIds(now.recentTrades))
    && now.status == base.status && now.valueUsd == base.valueUsd
  }

  function Floored(n: int): int {
    if n > 0 then n else 0
  }

  lemma {:induction false} WithoutStaysDistinct(trades: seq<Trade>, id: string)
    requires DistinctIds(trades)
    ensures DistinctIds(Without(trades, id))
  {
    if trades != [] {
      WithoutStaysDistinct(trades[1..], id);
      assert forall t :: t in trades[1..] ==> t.id != trades[0].id;
    }
  }

  lemma {:induction false} IdsWithout(trades: seq<Trade>, id: string)
    ensures Ids(Without(trades, id)) == Ids(trades) - {id}
  {
    if trades != [] {
      IdsWithout(trades[1..], id);
      assert Ids(trades) == {trades[0].id} + Ids(trades[1..]);
      if trades[0].id != id {
        IdsCons(trades[0], Without(trades[1..], id));
      }
    }
  }

  lemma IdsCons(t: Trade, rest: seq<Trade>)
    ensures Ids([t] + rest) == {t.id} + Ids(rest)
  {
    var all := [t] + rest;
    assert all[0] == t;
    forall id | id in Ids(rest) ensures id in Ids(all) {
      var i :| 0 <= i < |rest| && rest[i].id == id;
      assert all[i + 1].id == id;
    }
  }

  /** One more trade: a known one changes no amount, a new one is counted once. */
  lemma WithTradeEffect(data: LiveData, trade: Trade)
    ensures
      var next := WithTrade(data, trade);
      && Ids(next.recentTrades) == Ids(data.recentTrades) + {trade.id}
      && (DistinctIds(data.recentTrades) ==> DistinctIds(next.recentTrades))
      && next.status == data.status && next.valueUsd == data.valueUsd
      && (trade.id in Ids(data.recentTrades) ==> next.amountSold == data.amountSold && next.remaining == data.remaining)
      && (trade.id !in Ids(data.recentTrades) ==>
            && next.amountSold == Added(data.amountSold, trade.sell)
            && next.remaining == Subtracted(data.remaining, trade.sell))
  {
    var others := Without(data.recentTrades, trade.id);
    IdsWithout(data.recentTrades, trade.id);
    IdsCons(trade, others);
    if DistinctIds(data.recentTrades) {
      WithoutStaysDistinct(data.recentTrades, trade.id);
    }
  }

  lemma HeardMore(msgs: seq<Message>, session: string)
    requires msgs != []
    ensures
      var last := msgs[|msgs| - 1];
      Heard(msgs, session) == Heard(msgs[..|msgs| - 1], session) +
        if last.TradeCompleted? && last.session == session then {last.trade.id} else {}
  {
    var n := |msgs| - 1;
    assert forall i :: 0 <= i < n ==> msgs[..n][i] == msgs[i];
  }

  /** Subtracting one sell at a time, never below zero, is subtracting their sum. */
  lemma ShowsOneMore(base: LiveData, before: LiveData, trade: Trade, heard: set<string>, sellOf: Sells)
    requires Shows(base, before, heard, (heard - Ids(base.recentTrades)) * sellOf.Keys, sellOf)
    requires SellsAsSaid(trade, sellOf)
    ensures Shows(base, WithTrade(before, trade), heard + {trade.id},
                  (heard + {trade.id} - Ids(base.recentTrades)) * sellOf.Keys, sellOf)
  {
    hide WithTrade, DistinctIds;
    WithTradeEffect(before, trade);
    var known := Ids(base.recentTrades);
    var (counted, counted') := ((heard - known) * sellOf.Keys, (heard + {trade.id} - known) * sellOf.Keys);
    if trade.id in known + heard || trade.id !in sellOf {
      assert counted' == counted;
    } else {
      assert counted' - {trade.id} == counted && trade.id in counted';
      TotalAdds(counted', trade.id, sellOf);
    }
  }

  /**
    From any state of the store, after any sequence of trade messages, the session shows the base plus
    each new trade once, however often and in whatever order it was told; and its trades stay distinct.
   */
  lemma {:induction false} EachTradeOnce(sessions: Sessions, msgs: seq<Message>, session: string, sellOf: Sells)
    requires Consistent(msgs, session, sellOf)
    ensures
      var (base, now) := (Existing(sessions, session), Existing(AllUpdated(sessions, msgs), session));
      Shows(base, now, Heard(msgs, session), Counted(base, msgs, session, sellOf), sellOf)
  {
    var base := Existing(sessions, session);
    if msgs == [] {
      assert Counted(base, msgs, session, sellOf) == {};
    } else {
      var n := |msgs| - 1;
      assert forall i :: 0 <= i < n ==> msgs[..n][i] == msgs[i];
      EachTradeOnce(sessions, msgs[..n], session, sellOf);
      HeardMore(msgs, session);
      if msgs[n].session == session && msgs[n].TradeCompleted? {
        ShowsOneMore(base, Existing(AllUpdated(sessions, msgs[..n]), session), msgs[n].trade,
                     Heard(msgs[..n], session), sellOf);
      } else {
        assert Heard(msgs, session) == Heard(msgs[..n], session);
      }
    }
  }

  ghost predicate SameMessages(a: seq<Message>, b: seq<Message>) {
    forall m :: m in a <==> m in b
  }

  /** Two clients that heard the same messages, repeated and ordered differently, show the same amounts and trades. */
  lemma Converges(sessions: Sessions, a: seq<Message>, b: seq<Message>, session: string, sellOf: Sells)
    requires SameMessages(a, b) && Consistent(a, session, sellOf)
    ensures
      var (x, y) := (Existing(AllUpdated(sessions, a), session), Existing(AllUpdated(sessions, b), session));
      && x.amountSold == y.amountSold && x.remaining == y.remaining
      && Ids(x.recentTrades) == Ids(y.recentTrades)
  {
    hide Consistent, Heard, Ids, AllUpdated, Existing, Total, DistinctIds;
    SameAreConsistent(a, b, session, sellOf);
    HeardSubset(a, b, session);
    HeardSubset(b, a, session);
    assert Heard(a, session) == Heard(b, session);
    EachTradeOnce(sessions, a, session, sellOf);
    EachTradeOnce(sessions, b, session, sellOf);
  }

  lemma SameAreConsistent(a: seq<Message>, b: seq<Message>, session: string, sellOf: Sells)
    requires SameMessages(a, b) && Consistent(a, session, sellOf)
    ensures Consistent(b, session, sellOf)
  {
    forall i | 0 <= i < |b| && b[i].session == session && !b[i].OtherMessage?
      ensures b[i].TradeCompleted?
      ensures SellsAsSaid(b[i].trade, sellOf)
    {
      assert b[i] in a;
      var j :| 0 <= j < |a| && a[j] == b[i];
    }
  }

  lemma HeardSubset(a: seq<Message>, b: seq<Message>, session: string)
    requires forall m :: m in a ==> m in b
    ensures Heard(a, session) <= Heard(b, session)
  {
    forall id | id in Heard(a, session) ensures id in Heard(b, session) {
      var i :| 0 <= i < |a| && a[i].TradeCompleted? && a[i].session == session && a[i].trade.id == id;
      assert a[i] in b;
      var j :| 0 <= j < |b| && b[j] == a[i];
    }
  }

  /** A session nobody mentions keeps its data exactly, whatever the others hear. */
  lemma {:induction false} OthersUntouched(sessions: Sessions, msgs: seq<Message>, session: string)
    requires forall i :: 0 <= i < |msgs| ==> msgs[i].session != session
    ensures session in AllUpdated(sessions, msgs) <==> session in sessions
    ensures session in sessions ==> AllUpdated(sessions, msgs)[session] == sessions[session]
  {
    if msgs != [] {
      OthersUntouched(sessions, msgs[..|msgs| - 1], session);
    }
  }

  // ----- The trade a row shows -----

  /** What the last message about a trade said. */
  function LastWord(msgs: seq<Message>, session: string, id: string): Option<Trade> {
    if msgs == [] then None
    else
      var last := msgs[|msgs| - 1];
      if last.TradeCompleted? && last.session == session && last.trade.id == id then Some(last.trade)
      else LastWord(msgs[..|msgs| - 1], session, id)
  }

  /** Every row is the last word on its trade, or was there before; session updates change no row. */
  lemma {:induction false} RowsAreLastWords(sessions: Sessions, msgs: seq<Message>, session: string, t: Trade)
    ensures
      var (base, now) := (Existing(sessions, session), Existing(AllUpdated(sessions, msgs), session));
      t in now.recentTrades <==>
        match LastWord(msgs, session, t.id)
        case Some(word) => t == word
        case None => t in base.recentTrades
  {
    if msgs != [] {
      RowsAreLastWords(sessions, msgs[..|msgs| - 1], session, t);
    }
  }

  lemma {:induction false} LastWordWasHeard(msgs: seq<Message>, session: string, id: string)
    ensures LastWord(msgs, session, id) == None ==>
            forall m :: m in msgs && m.TradeCompleted? && m.session == session ==> m.trade.id != id
    ensures LastWord(msgs, session, id).Some? ==> TradeCompleted(session, LastWord(msgs, session, id).value) in msgs
    ensures LastWord(msgs, session, id).Some? ==> LastWord(msgs, session, id).value.id == id
  {
    if msgs != [] {
      var n := |msgs| - 1;
      LastWordWasHeard(msgs[..n], session, id);
      assert msgs == msgs[..n] + [msgs[n]];
    }
  }

  /** When messages about one trade all say the same, the clients show the very same rows. */
  lemma RowsConverge(sessions: Sessions, a: seq<Message>, b: seq<Message>, session: string, t: Trade)
    requires SameMessages(a, b)
    requires forall v, w ::
               TradeCompleted(session, v) in a && TradeCompleted(session, w) in a && v.id == w.id ==> v == w
    ensures t in Existing(AllUpdated(sessions, a), session).recentTrades <==>
            t in Existing(AllUpdated(sessions, b), session).recentTrades
  {
    LastWordWasHeard(a, session, t.id);
    LastWordWasHeard(b, session, t.id);
    RowsAreLastWords(sessions, a, session, t);
    RowsAreLastWords(sessions, b, session, t);
    var (v, w) := (LastWord(a, session, t.id), LastWord(b, session, t.id));
    assert v.Some? ==> TradeCompleted(session, v.value) in b;
    assert w.Some? ==> TradeCompleted(session, w.value) in a;
  }

  // ----- Session updates -----

  lemma {:induction false} AllUpdatedInTwo(sessions: Sessions, a: seq<Message>, b: seq<Message>)
    ensures AllUpdated(sessions, a + b) == AllUpdated(AllUpdated(sessions, a), b)
  {
    if b == [] {
      assert a + b == a;
    } else {
      var n := |b| - 1;
      AllUpdatedInTwo(sessions, a, b[..n]);
      assert (a + b)[..|a + b| - 1] == a + b[..n];
    }
  }

  /** Whatever is heard, session updates included, a session knows the trades it knew and those it heard of. */
  lemma {:induction false} KnownAfter(sessions: Sessions, msgs: seq<Message>, session: string)
    ensures Ids(Existing(AllUpdated(sessions, msgs), session).recentTrades) ==
            Ids(Existing(sessions, session).recentTrades) + Heard(msgs, session)
  {
    if msgs != [] {
      var n := |msgs| - 1;
      KnownAfter(sessions, msgs[..n], session);
      HeardMore(msgs, session);
      if msgs[n].TradeCompleted? && msgs[n].session == session {
        WithTradeEffect(Existing(AllUpdated(sessions, msgs[..n]), session), msgs[n].trade);
      }
    }
  }

  /**
    After a session update the server's amounts are shown, with each trade heard since counted once,
    except those known before the update: whatever else was heard or shown before makes no difference.
   */
  lemma {:induction false} ShownAfterUpdate(sessions: Sessions, before: seq<Message>, update: Message,
                                            after: seq<Message>, sellOf: Sells)
    requires update.SessionUpdate? && Consistent(after, update.session, sellOf)
    ensures
      var now := Existing(AllUpdated(sessions, before + [update] + after), update.session);
      var known := Ids(Existing(sessions, update.session).recentTrades) + Heard(before, update.session);
      var counted := (Heard(after, update.session) - known) * sellOf.Keys;
      && now.amountSold == Raised(update.amountSold, counted, sellOf)
      && now.remaining == Lowered(update.remaining, counted, sellOf)
      && now.status == update.status && now.valueUsd == update.valueUsd
  {
    hide Consistent, Heard, Ids, Total, DistinctIds;
    var middle := AllUpdated(sessions, before + [update]);
    assert (before + [update])[..|before|] == before;
    AllUpdatedInTwo(sessions, before + [update], after);
    KnownAfter(sessions, before, update.session);
    EachTradeOnce(middle, after, update.session, sellOf);
  }

  /**
    An update that already includes a trade, followed by that trade's own message, shows the trade once
    exactly when its message had also come before the update (or it sells nothing).
   */
  lemma {:induction false} CountedOnceIff(sessions: Sessions, update: Message, trade: Trade, sold: nat, sell: nat)
    requires update.SessionUpdate? && update.amountSold == Whole(sold + sell) && trade.sell == Whole(sell)
    ensures
      var now := Existing(AllUpdated(sessions, [update, TradeCompleted(update.session, trade)]), update.session);
      now.amountSold == Whole(sold + sell) <==>
        trade.id in Ids(Existing(sessions, update.session).recentTrades) || sell == 0
  {
    var msgs := [update, TradeCompleted(update.session, trade)];
    assert msgs[..1] == [update] && msgs[..1][..0] == [];
    var after := Updated(sessions, update);
    assert AllUpdated(sessions, msgs[..1]) == after;
    WithTradeEffect(Existing(after, update.session), trade);
  }

  // ----- Seeds and fresh stores -----

  /** What a session shows before anything is known of it. */
  lemma {:induction false} FreshStoreShows(msgs: seq<Message>, session: string, sellOf: Sells)
    requires Consistent(msgs, session, sellOf)
    ensures
      var now := Existing(AllUpdated(map[], msgs), session);
      var counted := Heard(msgs, session) * sellOf.Keys;
      && now.amountSold == Whole(Total(counted, sellOf)) && now.remaining == Whole(0)
      && now.status == "active" && now.valueUsd == "0"
      && Ids(now.recentTrades) == Heard(msgs, session) && DistinctIds(now.recentTrades)
  {
    EachTradeOnce(map[], msgs, session, sellOf);
    assert Heard(msgs, session) - Ids([]) == Heard(msgs, session);
  }

  /** The fields a seed names are shown, the others stay, and a session not known before starts pending and empty. */
  lemma SeededShows(sessions: Sessions, id: string, seed: Seed)
    ensures
      var now := Existing(Seeded(sessions, id, seed), id);
      var known := id in sessions;
      && (seed.amountSold == Some(now.amountSold)
          || (seed.amountSold == None && now.amountSold == if known then sessions[id].amountSold else Whole(0)))
      && (seed.remaining == Some(now.remaining)
          || (seed.remaining == None && now.remaining == if known then sessions[id].remaining else Whole(0)))
      && (seed.valueUsd == Some(now.valueUsd)
          || (seed.valueUsd == None && now.valueUsd == if known then sessions[id].valueUsd else "0.00"))
      && (seed.status == Some(now.status)
          || (seed.status == None && now.status == if known then sessions[id].status else "pending"))
      && (seed.recentTrades == Some(now.recentTrades)
          || (seed.recentTrades == None && now.recentTrades == if known then sessions[id].recentTrades else []))
    ensures Seeded(sessions, id, seed).Keys == sessions.Keys + {id}
    ensures forall other :: other in sessions && other != id ==> Seeded(sessions, id, seed)[other] == sessions[other]
  {
  }

  function First<T>(a: Option<T>, b: Option<T>): Option<T> {
    if a.Some? then a else b
  }

  /** Two seeds of one session are one, the later taking precedence field by field; of two sessions they commute. */
  lemma SeedTwice(sessions: Sessions, id: string, a: Seed, id': string, b: Seed)
    ensures id == id' ==>
              Seeded(Seeded(sessions, id, a), id, b) ==
              Seeded(sessions, id, Seed(First(b.amountSold, a.amountSold), First(b.remaining, a.remaining),
                                        First(b.valueUsd, a.valueUsd), First(b.status, a.status),
                                        First(b.recentTrades, a.recentTrades)))
    ensures id != id' ==> Seeded(Seeded(sessions, id, a), id', b) == Seeded(Seeded(sessions, id', b), id, a)
  {
  }

  /** From a seed with both amounts on, trade messages are counted once each, except the trades it was seeded with. */
  lemma {:induction false} SeededThenHeard(sessions: Sessions, id: string, seed: Seed, msgs: seq<Message>,
                                           sellOf: Sells)
    requires Consistent(msgs, id, sellOf) && seed.recentTrades.Some?
    requires seed.amountSold.Some? && seed.remaining.Some?
    ensures
      var now := Existing(AllUpdated(Seeded(sessions, id, seed), msgs), id);
      var counted := (Heard(msgs, id) - Ids(seed.recentTrades.value)) * sellOf.Keys;
      && now.amountSold == Raised(seed.amountSold.value, counted, sellOf)
      && now.remaining == Lowered(seed.remaining.value, counted, sellOf)
      && Ids(now.recentTrades) == Ids(seed.recentTrades.value) + Heard(msgs, id)
  {
    EachTradeOnce(Seeded(sessions, id, seed), msgs, id, sellOf);
  }

  // ----- The store -----

  ghost predicate AllDistinct(sessions: Sessions) {
    forall id :: id in sessions ==> DistinctIds(sessions[id].recentTrades)
  }

  class Store {
    var sessions: Sessions

    constructor ()
      ensures sessions == map[]
    {
      sessions := map[];
    }

    /** One message: no other session changes, a trade joins the ids once, and ids stay distinct. */
    method UpdateSession(msg: Message)
      modifies this
      ensures sessions == Updated(old(sessions), msg)
      ensures forall id :: id != msg.session ==> (id in sessions <==> id in old(sessions))
      ensures forall id :: id != msg.session && id in sessions ==> sessions[id] == old(sessions)[id]
      ensures Ids(Existing(sessions, msg.session).recentTrades) ==
              Ids(Existing(old(sessions), msg.session).recentTrades)
              + if msg.TradeCompleted? then {msg.trade.id} else {}
      ensures old(AllDistinct(sessions)) ==> AllDistinct(sessions)
    {
      if msg.TradeCompleted? {
        WithTradeEffect(Existing(sessions, msg.session), msg.trade);
      }
      if msg.SessionUpdate? {
        var trades := if msg.session in sessions then sessions[msg.session].recentTrades else [];
        sessions := sessions[msg.session := LiveData(msg.amountSold, msg.remaining, msg.valueUsd, msg.status, trades)];
      }
      if msg.TradeCompleted? {
        var existing := Existing(sessions, msg.session);
        var trade := msg.trade;
        var dedupedTrades := Without(existing.recentTrades, trade.id);
        var isDuplicate := |dedupedTrades| != |existing.recentTrades|;
        var nextAmountSold, nextRemaining := existing.amountSold, existing.remaining;
        if !isDuplicate {
          nextAmountSold := Added(existing.amountSold, trade.sell);
          nextRemaining := Subtracted(existing.remaining, trade.sell);
        }
        sessions := sessions[msg.session :=
          existing.(amountSold := nextAmountSold, remaining := nextRemaining, recentTrades := [trade] + dedupedTrades)];
      }
    }

    /** A seed keeps the fields it does not name, the other sessions, and with distinct trades the ids distinct. */
    method SeedSession(id: string, seed: Seed)
      modifies this
      ensures sessions == Seeded(old(sessions), id, seed)
      ensures sessions.Keys == old(sessions).Keys + {id}
      ensures forall other :: other in old(sessions) && other != id ==> sessions[other] == old(sessions)[other]
      ensures old(AllDistinct(sessions)) && (seed.recentTrades.Some? ==> DistinctIds(seed.recentTrades.value)) ==>
                AllDistinct(sessions)
    {
      var known := if id in sessions then sessions[id] else LiveData(Whole(0), Whole(0), "0.00", "pending", []);
      sessions := sessions[id := LiveData(Or(seed.amountSold, known.amountSold), Or(seed.remaining, known.remaining),
                                          Or(seed.valueUsd, known.valueUsd), Or(seed.status, known.status),
                                          Or(seed.recentTrades, known.recentTrades))];
    }

    method Reset()
      modifies this
      ensures sessions == map[]
    {
      sessions := map[];
    }

    /** The socket's messages, one after the other. */
    method UpdateAll(msgs: seq<Message>)
      modifies this
      ensures sessions == AllUpdated(old(sessions), msgs)
      ensures old(AllDistinct(sessions)) ==> AllDistinct(sessions)
    {
      for i := 0 to |msgs|
        invariant sessions == AllUpdated(old(sessions), msgs[..i])
        invariant old(AllDistinct(sessions)) ==> AllDistinct(sessions)
      {
        assert msgs[..i + 1][..i] == msgs[..i];
        UpdateSession(msgs[i]);
      }
      assert msgs[..|msgs|] == msgs;
    }
  }
}
