/** The indexer's block pipeline: one poller, a bounded queue, and workers that drain it. */
module BlockPipeline {
  import opened Wrappers

  /** The blocks after `start`, the first `count` of them. */
  function Blocks(start: nat, count: nat): (r: seq<nat>)
    ensures |r| == count && forall i :: 0 <= i < count ==> r[i] == start + 1 + i
  {
    seq(count, i requires 0 <= i < count => start + 1 + i)
  }

  // ----- The poll loop alone -----

  function HighestHead(start: nat, replies: seq<Option<nat>>): (r: nat)
    ensures r >= start
  {
    if replies == [] then start
    else
      var (most, last) := (HighestHead(start, replies[..|replies| - 1]), replies[|replies| - 1]);
      if last.Some? && last.value > most then last.value else most
  }

  class Poller {
    const start: nat
    var lastEnqueued: nat
    var channel: seq<nat>   // every block sent so far

    ghost predicate Valid()
      reads this
    {
      start <= lastEnqueued && channel == Blocks(start, lastEnqueued - start)
    }

    constructor (head: nat)
      ensures Valid() && start == lastEnqueued == head
    {
      start, lastEnqueued, channel := head, head, [];
    }

    /** One round: a head below the last one, or an error, sends nothing. */
    method Poll(reply: Option<nat>)
      requires Valid()
      modifies this
      ensures Valid()
      ensures lastEnqueued == if reply.Some? && reply.value > old(lastEnqueued) then reply.value else old(lastEnqueued)
    {
      if reply.Some? && reply.value > lastEnqueued {
        for block := lastEnqueued + 1 to reply.value + 1
          invariant lastEnqueued == old(lastEnqueued) && channel == Blocks(start, block - 1 - start)
        {
          channel := channel + [block];
        }
        lastEnqueued := reply.value;
      }
    }

    /** For every sequence of replies the blocks sent are consecutive, up to the highest head reported. */
    method PollAll(replies: seq<Option<nat>>)
      requires Valid() && lastEnqueued == start
      modifies this
      ensures Valid()
      ensures lastEnqueued == HighestHead(start, replies)
      ensures channel == Blocks(start, HighestHead(start, replies) - start)
    {
      for i := 0 to |replies|
        invariant Valid() && lastEnqueued == HighestHead(start, replies[..i])
      {
        assert replies[..i + 1][..i] == replies[..i];
        Poll(replies[i]);
      }
      assert replies[..|replies|] == replies;
    }
  }

  // ----- Poller, queue and workers interleaved -----

  /** `cursor` to `goal` is the range the poller is sending; it is idle when the range is used up. */
  datatype Pipeline = Pipeline(
    start: nat, lastEnqueued: nat, cursor: nat, goal: nat,
    capacity: nat, queue: seq<nat>,
    busy: seq<Option<nat>>,
    sent: seq<nat>, taken: seq<(nat, nat)>)   // histories: blocks, and worker with block

  datatype Event =
    | Head(latest: nat)
    | HeadError
    | Send
    | Take(worker: nat)
    | Finish(worker: nat)

  predicate Sending(p: Pipeline) {
    p.cursor <= p.goal
  }

  /** A full queue blocks the poller; an empty one blocks the workers. */
  predicate Possible(p: Pipeline, e: Event) {
    match e
    case Head(_) => !Sending(p)
    case HeadError => !Sending(p)
    case Send => Sending(p) && |p.queue| < p.capacity
    case Take(w) => w < |p.busy| && p.busy[w] == None && p.queue != []
    case Finish(w) => w < |p.busy| && p.busy[w].Some?
  }

  function After(p: Pipeline, e: Event): Pipeline
    requires Possible(p, e)
  {
    match e
    case Head(latest) => if latest > p.lastEnqueued then p.(cursor := p.lastEnqueued + 1, goal := latest) else p
    case HeadError => p
    case Send =>
      p.(queue := p.queue + [p.cursor], sent := p.sent + [p.cursor], cursor := p.cursor + 1,
         lastEnqueued := if p.cursor == p.goal then p.goal else p.lastEnqueued)
    case Take(w) =>
      p.(queue := p.queue[1..], busy := p.busy[w := Some(p.queue[0])], taken := p.taken + [(w, p.queue[0])])
    case Finish(w) => p.(busy := p.busy[w := None])
  }

  function Started(start: nat, capacity: nat, workers: nat): Pipeline {
    Pipeline(start, start, start + 1, start, capacity, [], seq(workers, _ => None), [], [])
  }

  ghost function Schedule(p: Pipeline, events: seq<Event>): Option<Pipeline> {
    if events == [] then Some(p)
    else
      match Schedule(p, events[..|events| - 1])
      case None => None
      case Some(mid) =>
        var last := events[|events| - 1];
        if Possible(mid, last) then Some(After(mid, last)) else None
  }

  function BlocksTaken(taken: seq<(nat, nat)>): seq<nat> {
    seq(|taken|, i requires 0 <= i < |taken| => taken[i].1)
  }

  ghost predicate PipelineInv(p: Pipeline) {
    && p.start <= p.lastEnqueued
    && p.cursor == p.start + 1 + |p.sent|
    && (if Sending(p) then p.lastEnqueued < p.cursor else p.cursor == p.lastEnqueued + 1)
    && p.sent == Blocks(p.start, |p.sent|)
    && BlocksTaken(p.taken) + p.queue == p.sent
    && |p.queue| <= p.capacity
    && (forall w :: 0 <= w < |p.busy| && p.busy[w].Some? ==> (w, p.busy[w].value) in p.taken)
  }

  lemma EventKeeps(p: Pipeline, e: Event)
    requires PipelineInv(p) && Possible(p, e)
    ensures PipelineInv(After(p, e))
    ensures After(p, e).start == p.start && After(p, e).capacity == p.capacity && |After(p, e).busy| == |p.busy|
  {
    var p' := After(p, e);
    if e.Take? {
      assert BlocksTaken(p'.taken) == BlocksTaken(p.taken) + [p.queue[0]];
      assert p.queue == [p.queue[0]] + p'.queue;
      assert p'.taken[|p.taken|] == (e.worker, p.queue[0]);
      forall w | 0 <= w < |p'.busy| && p'.busy[w].Some? ensures (w, p'.busy[w].value) in p'.taken {
        if w != e.worker {
          assert (w, p.busy[w].value) in p.taken;
        }
      }
    } else if e.Send? {
      assert BlocksTaken(p.taken) + p'.queue == p.sent + [p.cursor];
    }
  }

  lemma {:induction false} ScheduleKeeps(start: nat, capacity: nat, workers: nat, events: seq<Event>)
    requires Schedule(Started(start, capacity, workers), events).Some?
    ensures
      var p := Schedule(Started(start, capacity, workers), events).value;
      PipelineInv(p) && p.start == start && p.capacity == capacity && |p.busy| == workers
  {
    if events != [] {
      var n := |events| - 1;
      ScheduleKeeps(start, capacity, workers, events[..n]);
      EventKeeps(Schedule(Started(start, capacity, workers), events[..n]).value, events[n]);
    }
  }

  /**
    Under any schedule of the poller and the workers: the blocks sent are start+1, start+2, … without
    gap or repeat, those taken followed by those queued are those sent, and no block is taken twice.
   */
  lemma {:induction false} EveryBlockOnce(start: nat, capacity: nat, workers: nat, events: seq<Event>)
    requires Schedule(Started(start, capacity, workers), events).Some?
    ensures
      var p := Schedule(Started(start, capacity, workers), events).value;
      && p.sent == Blocks(start, |p.sent|)
      && BlocksTaken(p.taken) + p.queue == p.sent && |p.queue| <= capacity
      && (forall i, j :: 0 <= i < j < |p.taken| ==> p.taken[i].1 != p.taken[j].1)
  {
    ScheduleKeeps(start, capacity, workers, events);
    var p := Schedule(Started(start, capacity, workers), events).value;
    forall i, j | 0 <= i < j < |p.taken| ensures p.taken[i].1 != p.taken[j].1 {
      assert p.sent[i] == BlocksTaken(p.taken)[i] && p.sent[j] == BlocksTaken(p.taken)[j];
    }
  }

  // ----- The heads reported -----

  /** The replies to the poller in a schedule: heads, and None for each error. */
  function Replies(events: seq<Event>): seq<Option<nat>> {
    if events == [] then []
    else
      var (before, last) := (Replies(events[..|events| - 1]), events[|events| - 1]);
      match last
      case Head(latest) => before + [Some(latest)]
      case HeadError => before + [None]
      case _ => before
  }

  /** An idle poller has queued up to the highest head; a sending one is on its way to it, and heard it last. */
  ghost predicate FollowsHeads(p: Pipeline, replies: seq<Option<nat>>) {
    if Sending(p) then
      p.goal == HighestHead(p.start, replies) && replies != [] && replies[|replies| - 1] == Some(p.goal)
    else
      p.lastEnqueued == HighestHead(p.start, replies)
  }

  lemma HigherHead(start: nat, replies: seq<Option<nat>>, reply: Option<nat>)
    ensures HighestHead(start, replies + [reply]) ==
            if reply.Some? && reply.value > HighestHead(start, replies) then reply.value
            else HighestHead(start, replies)
  {
    assert (replies + [reply])[..|replies|] == replies;
  }

  /** No reply names a higher head, and one of them names it, unless nothing came up. */
  lemma {:induction false} HighestIsHighest(start: nat, replies: seq<Option<nat>>)
    ensures forall i :: 0 <= i < |replies| && replies[i].Some? ==> replies[i].value <= HighestHead(start, replies)
    ensures HighestHead(start, replies) == start || Some(HighestHead(start, replies)) in replies
  {
    if replies != [] {
      HighestIsHighest(start, replies[..|replies| - 1]);
    }
  }

  lemma FollowsStep(p: Pipeline, e: Event, replies: seq<Option<nat>>)
    requires PipelineInv(p) && Possible(p, e) && FollowsHeads(p, replies)
    ensures
      match e
      case Head(latest) => FollowsHeads(After(p, e), replies + [Some(latest)])
      case HeadError => FollowsHeads(After(p, e), replies + [None])
      case _ => FollowsHeads(After(p, e), replies)
  {
    match e
    case Head(latest) => HigherHead(p.start, replies, Some(latest));
    case HeadError => HigherHead(p.start, replies, None);
    case _ =>
  }

  lemma {:induction false} ScheduleFollows(start: nat, capacity: nat, workers: nat, events: seq<Event>)
    requires Schedule(Started(start, capacity, workers), events).Some?
    ensures FollowsHeads(Schedule(Started(start, capacity, workers), events).value, Replies(events))
  {
    if events != [] {
      hide FollowsHeads;
      var n := |events| - 1;
      ScheduleKeeps(start, capacity, workers, events[..n]);
      ScheduleFollows(start, capacity, workers, events[..n]);
      FollowsStep(Schedule(Started(start, capacity, workers), events[..n]).value, events[n], Replies(events[..n]));
    }
  }

  /**
    Under any schedule: while the poller is sending, its goal is the head it heard last and the highest so
    far; when it is idle it has sent every block up to the highest head; and with the queue empty too the
    blocks taken are exactly those.
   */
  lemma {:induction false} IdleMeansDone(start: nat, capacity: nat, workers: nat, events: seq<Event>)
    requires Schedule(Started(start, capacity, workers), events).Some?
    ensures
      var p := Schedule(Started(start, capacity, workers), events).value;
      var highest := HighestHead(start, Replies(events));
      && (Sending(p) ==>
            p.goal == highest && Replies(events) != [] && Replies(events)[|Replies(events)| - 1] == Some(highest))
      && (!Sending(p) ==> p.lastEnqueued == highest && p.sent == Blocks(start, highest - start))
      && (!Sending(p) && p.queue == [] ==> BlocksTaken(p.taken) == Blocks(start, highest - start))
  {
    ScheduleKeeps(start, capacity, workers, events);
    ScheduleFollows(start, capacity, workers, events);
    HighestIsHighest(start, Replies(events));
    var p := Schedule(Started(start, capacity, workers), events).value;
    assert BlocksTaken(p.taken) + [] == BlocksTaken(p.taken);
  }

  // ----- Progress -----

  /** The pipeline cannot jam: with room for one block, work left over and a worker idle, something can move. */
  lemma {:induction false} NeverJams(start: nat, capacity: nat, workers: nat, events: seq<Event>, w: nat)
    requires Schedule(Started(start, capacity, workers), events).Some? && capacity >= 1
    requires
      var p := Schedule(Started(start, capacity, workers), events).value;
      w < |p.busy| && p.busy[w] == None && (Sending(p) || p.queue != [])
    ensures
      var p := Schedule(Started(start, capacity, workers), events).value;
      Possible(p, Send) || Possible(p, Take(w))
  {
    ScheduleKeeps(start, capacity, workers, events);
  }

  function BusyCount(busy: seq<Option<nat>>): nat {
    if busy == [] then 0 else BusyCount(busy[..|busy| - 1]) + if busy[|busy| - 1].Some? then 1 else 0
  }

  lemma {:induction false} BusyChanges(busy: seq<Option<nat>>, w: nat, b: Option<nat>)
    requires w < |busy|
    ensures BusyCount(busy[w := b]) + (if busy[w].Some? then 1 else 0) == BusyCount(busy) + if b.Some? then 1 else 0
  {
    var n := |busy| - 1;
    if w == n {
      assert busy[w := b][..n] == busy[..n];
    } else {
      BusyChanges(busy[..n], w, b);
      assert busy[w := b][..n] == busy[..n][w := b];
    }
  }

  lemma {:induction false} SomeBusy(busy: seq<Option<nat>>)
    ensures BusyCount(busy) == 0 <==> forall w :: 0 <= w < |busy| ==> busy[w] == None
  {
    if busy != [] {
      SomeBusy(busy[..|busy| - 1]);
    }
  }

  /** Every block has to be sent, taken and finished: the moves that are left. */
  function MovesLeft(p: Pipeline): nat {
    3 * (if Sending(p) then p.goal + 1 - p.cursor else 0) + 2 * |p.queue| + BusyCount(p.busy)
  }

  /** Each move of the poller or a worker is one of them, and while any is left one is possible. */
  lemma {:induction false} EachMoveCounts(start: nat, capacity: nat, workers: nat, events: seq<Event>, e: Event)
    requires Schedule(Started(start, capacity, workers), events).Some? && capacity >= 1 && workers >= 1
    ensures
      var p := Schedule(Started(start, capacity, workers), events).value;
      && ((e.Send? || e.Take? || e.Finish?) && Possible(p, e) ==> MovesLeft(After(p, e)) == MovesLeft(p) - 1)
      && (MovesLeft(p) > 0 <==> Possible(p, Send) || exists w :: Possible(p, Take(w)) || Possible(p, Finish(w)))
  {
    ScheduleKeeps(start, capacity, workers, events);
    var p := Schedule(Started(start, capacity, workers), events).value;
    if Possible(p, e) {
      match e
      case Take(w) => BusyChanges(p.busy, w, Some(p.queue[0]));
      case Finish(w) => BusyChanges(p.busy, w, None);
      case _ =>
    }
    SomeMove(p);
  }

  lemma SomeMove(p: Pipeline)
    requires |p.queue| <= p.capacity && p.capacity >= 1 && |p.busy| >= 1
    ensures MovesLeft(p) > 0 <==> Possible(p, Send) || exists w :: Possible(p, Take(w)) || Possible(p, Finish(w))
  {
    SomeBusy(p.busy);
    if BusyCount(p.busy) > 0 {
      var w :| 0 <= w < |p.busy| && p.busy[w].Some?;
      assert Possible(p, Finish(w));
    } else if p.queue != [] {
      assert Possible(p, Take(0));
    }
  }

  lemma {:induction false} MovesCount(start: nat, capacity: nat, workers: nat, events: seq<Event>, more: seq<Event>)
    requires Schedule(Started(start, capacity, workers), events + more).Some? && capacity >= 1 && workers >= 1
    requires forall e :: e in more ==> e.Send? || e.Take? || e.Finish?
    ensures Schedule(Started(start, capacity, workers), events).Some?
    ensures MovesLeft(Schedule(Started(start, capacity, workers), events + more).value) + |more| ==
            MovesLeft(Schedule(Started(start, capacity, workers), events).value)
    decreases |more|
  {
    hide MovesLeft, Possible, After;
    if more == [] {
      assert events + more == events;
    } else {
      var (n, before) := (|more| - 1, events + more[..|more| - 1]);
      assert (events + more)[..|events + more| - 1] == before && (events + more)[|events + more| - 1] == more[n];
      assert more[n] in more;
      MovesCount(start, capacity, workers, events, more[..n]);
      EachMoveCounts(start, capacity, workers, before, more[n]);
    }
  }

  lemma NothingLeft(start: nat, capacity: nat, workers: nat, events: seq<Event>)
    requires Schedule(Started(start, capacity, workers), events).Some?
    ensures
      var p := Schedule(Started(start, capacity, workers), events).value;
      MovesLeft(p) == 0 ==>
        && BlocksTaken(p.taken) == Blocks(start, HighestHead(start, Replies(events)) - start)
        && forall w :: 0 <= w < |p.busy| ==> p.busy[w] == None
  {
    var p := Schedule(Started(start, capacity, workers), events).value;
    IdleMeansDone(start, capacity, workers, events);
    SomeBusy(p.busy);
  }

  lemma {:induction false} RepliesStay(events: seq<Event>, more: seq<Event>)
    requires forall e :: e in more ==> e.Send? || e.Take? || e.Finish?
    ensures Replies(events + more) == Replies(events)
  {
    if more == [] {
      assert events + more == events;
    } else {
      var n := |more| - 1;
      assert more[n] in more;
      assert (events + more)[..|events + more| - 1] == events + more[..n];
      RepliesStay(events, more[..n]);
    }
  }

  /** So once heads stop coming the blocks are worked off, in exactly that many moves, whatever their order. */
  lemma {:induction false} WorkedOff(start: nat, capacity: nat, workers: nat, events: seq<Event>, more: seq<Event>)
    requires Schedule(Started(start, capacity, workers), events + more).Some? && capacity >= 1 && workers >= 1
    requires forall e :: e in more ==> e.Send? || e.Take? || e.Finish?
    ensures Schedule(Started(start, capacity, workers), events).Some?
    ensures
      var (p, q) := (Schedule(Started(start, capacity, workers), events).value,
                     Schedule(Started(start, capacity, workers), events + more).value);
      && |more| <= MovesLeft(p)
      && (|more| == MovesLeft(p) ==>
            && BlocksTaken(q.taken) == Blocks(start, HighestHead(start, Replies(events)) - start)
            && forall w :: 0 <= w < |q.busy| ==> q.busy[w] == None)
  {
    hide *;
    MovesCount(start, capacity, workers, events, more);
    RepliesStay(events, more);
    NothingLeft(start, capacity, workers, events + more);
  }
}
