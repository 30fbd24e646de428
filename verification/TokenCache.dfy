/** The indexer's cache of each pool's two tokens, shared by its workers, and what it does to direction. */
module TokenCache {
  import opened Wrappers
  import opened Bytes
  import opened SwapLog

  /** An absent pool has never been asked for; `None` marks one whose calls failed. */
  type Entries = map<Address, Option<Pair>>

  type Tokens = map<Address, Pair>

  /** The event's sides, from the pair the cache or the chain gave. */
  function Resolved(log: Log, dex: Dex, entry: Option<Pair>): Result<Sides, ResolveError> {
    match entry
    case None => Failure(NotAPool)
    case Some(pair) => SidesOf(log, dex, pair)
  }

  /** Every pair in the cache is the pool's own. */
  ghost predicate True(entries: Entries, tokens: Tokens) {
    forall pool :: pool in entries && entries[pool].Some? ==> pool in tokens && entries[pool].value == tokens[pool]
  }

  /** A contract that answers names its own tokens; any call may fail. */
  predicate HonestAnswer(pool: Address, answer: Option<Pair>, tokens: Tokens) {
    answer.Some? ==> pool in tokens && tokens[pool] == answer.value
  }

  /** The event trades the pool's tokens in the direction the engine derives from its flag. */
  predicate AsTheEngine(log: Log, sides: Sides, tokens: Tokens) {
    && Parse(log).Some? && log.address in tokens
    && sides.tokenOut == EngineTokenOut(Parse(log).value, tokens[log.address])
    && sides.tokenIn == (if Parse(log).value.token0IsInput then tokens[log.address].0 else tokens[log.address].1)
  }

  class Cache {
    var entries: Entries

    constructor ()
      ensures entries == map[]
    {
      entries := map[];
    }

    /**
      `resolve_tokens_for_event`; `answer` is what the pool's contract says if it has to be asked. Asking
      adds one entry and changes none; with true entries and an honest answer a parsed event gets the
      engine's direction, and fails only on a pool whose calls failed.
     */
    method Resolve(log: Log, dex: Dex, answer: Option<Pair>, ghost tokens: Tokens)
      returns (r: Result<Sides, ResolveError>)
      modifies this
      ensures entries.Keys == old(entries).Keys + {log.address}
      ensures forall pool :: pool in old(entries) ==> entries[pool] == old(entries)[pool]
      ensures log.address !in old(entries) ==> entries[log.address] == answer
      ensures r == Resolved(log, dex, entries[log.address])
      ensures old(True(entries, tokens)) && HonestAnswer(log.address, answer, tokens) ==> True(entries, tokens)
      ensures
        old(True(entries, tokens)) && HonestAnswer(log.address, answer, tokens)
        && Parse(log).Some? && dex == Parse(log).value.dex ==>
          match r
          case Success(sides) => AsTheEngine(log, sides, tokens)
          case Failure(error) => error == NotAPool && entries[log.address] == None
    {
      var pair: Pair;
      if log.address in entries {
        match entries[log.address] {
          case Some(known) => pair := known;
          case None => return Failure(NotAPool);
        }
      } else {
        entries := entries[log.address := answer];
        match answer {
          case Some(told) => pair := told;
          case None => return Failure(NotAPool);
        }
      }
      r := SidesOf(log, dex, pair);
      if Parse(log).Some? {
        DirectionsAgree(log, pair);
      }
    }
  }

  // ----- Workers asking at the same time -----

  /** An event as a worker left it. */
  datatype Outcome = Outcome(log: Log, result: Result<Sides, ResolveError>)

  /**
    `asking` holds the logs whose pools' contracts are being called, by worker: no lock is held
    meanwhile. `done` is the history of events, resolved or skipped.
   */
  datatype State = State(entries: Entries, asking: map<nat, Log>, done: seq<Outcome>)

  datatype Move =
    | Look(worker: nat, log: Log)
    | Answer(worker: nat, answer: Option<Pair>)

  /** Only events that parse come here. */
  predicate Possible(s: State, m: Move) {
    match m
    case Look(w, log) => w !in s.asking && Parse(log).Some?
    case Answer(w, _) => w in s.asking && Parse(s.asking[w]).Some?
  }

  function Settle(s: State, log: Log, entry: Option<Pair>): State
    requires Parse(log).Some?
  {
    s.(done := s.done + [Outcome(log, Resolved(log, Parse(log).value.dex, entry))])
  }

  /** A worker that asked goes on with its own answer, whatever the cache says by then. */
  function After(s: State, m: Move): State
    requires Possible(s, m)
  {
    match m
    case Look(w, log) =>
      if log.address in s.entries then Settle(s, log, s.entries[log.address]) else s.(asking := s.asking[w := log])
    case Answer(w, answer) =>
      var log := s.asking[w];
      Settle(s.(entries := s.entries[log.address := answer], asking := s.asking - {w}), log, answer)
  }

  ghost function Run(s: State, moves: seq<Move>): Option<State> {
    if moves == [] then Some(s)
    else
      match Run(s, moves[..|moves| - 1])
      case None => None
      case Some(mid) =>
        var last := moves[|moves| - 1];
        if Possible(mid, last) then Some(After(mid, last)) else None
  }

  ghost predicate Honest(s: State, moves: seq<Move>, tokens: Tokens)
    requires Run(s, moves).Some?
  {
    moves == []
    || (var (before, last) := (Run(s, moves[..|moves| - 1]).value, moves[|moves| - 1]);
        && Honest(s, moves[..|moves| - 1], tokens)
        && (last.Answer? ==> HonestAnswer(before.asking[last.worker].address, last.answer, tokens)))
  }

  const EMPTY: State := State(map[], map[], [])

  ghost predicate AllAsTheEngine(done: seq<Outcome>, tokens: Tokens) {
    forall i :: 0 <= i < |done| ==>
      match done[i].result
      case Success(sides) => AsTheEngine(done[i].log, sides, tokens)
      case Failure(error) => error == NotAPool
  }

  lemma SettledAsTheEngine(s: State, log: Log, entry: Option<Pair>, tokens: Tokens)
    requires Parse(log).Some? && AllAsTheEngine(s.done, tokens) && HonestAnswer(log.address, entry, tokens)
    ensures AllAsTheEngine(Settle(s, log, entry).done, tokens)
  {
    if entry.Some? {
      DirectionsAgree(log, entry.value);
    }
  }

  /**
    However the workers interleave and whichever calls fail: the cached pairs are the pools' own, and
    every event that resolves, from the cache or from a worker's own answer, gets the tokens in the
    direction the engine derives from its flag. The others fail as on no pool, never as too short.
   */
  lemma {:induction false} ResolvedAsTheEngineDoes(moves: seq<Move>, tokens: Tokens)
    requires Run(EMPTY, moves).Some? && Honest(EMPTY, moves, tokens)
    ensures True(Run(EMPTY, moves).value.entries, tokens)
    ensures AllAsTheEngine(Run(EMPTY, moves).value.done, tokens)
  {
    if moves != [] {
      hide Parse, Resolved, AsTheEngine;
      var n := |moves| - 1;
      var mid := Run(EMPTY, moves[..n]).value;
      ResolvedAsTheEngineDoes(moves[..n], tokens);
      match moves[n]
      case Look(w, log) =>
        if log.address in mid.entries {
          SettledAsTheEngine(mid, log, mid.entries[log.address], tokens);
        }
      case Answer(w, answer) =>
        SettledAsTheEngine(mid, mid.asking[w], answer, tokens);
    }
  }

  // ----- How entries change -----

  ghost predicate AskedFor(s: State, pool: Address) {
    exists w :: w in s.asking && s.asking[w].address == pool
  }

  /** Once a pool has an entry and nobody is asking for it, no run changes that entry. */
  lemma {:induction false} SettledForever(s: State, moves: seq<Move>, pool: Address)
    requires Run(s, moves).Some? && pool in s.entries && !AskedFor(s, pool)
    ensures
      var s' := Run(s, moves).value;
      pool in s'.entries && s'.entries[pool] == s.entries[pool] && !AskedFor(s', pool)
  {
    if moves != [] {
      hide Parse, Resolved;
      SettledForever(s, moves[..|moves| - 1], pool);
    }
  }

  /** The run gives the pool another entry. */
  ghost predicate Changes(s: State, moves: seq<Move>, pool: Address)
    requires pool in s.entries
  {
    && Run(s, moves).Some? && pool in Run(s, moves).value.entries
    && Run(s, moves).value.entries[pool] != s.entries[pool]
  }

  /**
    A pool's entry can still change exactly while some worker is asking for it; if the pool is real, by
    honest answers. One failed call then replaces a good pair, and once nobody asks it silences the pool for good.
   */
  lemma {:induction false} CanChangeIff(s: State, pool: Address, tokens: Tokens)
    requires pool in s.entries && forall w :: w in s.asking ==> Parse(s.asking[w]).Some?
    ensures (exists moves :: Changes(s, moves, pool)) <==> AskedFor(s, pool)
    ensures AskedFor(s, pool) && pool in tokens ==> exists moves :: Changes(s, moves, pool) && Honest(s, moves, tokens)
  {
    hide Parse, Resolved;
    if AskedFor(s, pool) {
      var w :| w in s.asking && s.asking[w].address == pool;
      var other := if pool in tokens then tokens[pool] else (pool, pool);
      var moves := [Answer(w, if s.entries[pool].Some? then None else Some(other))];
      assert moves[..0] == [] && Run(s, moves[..0]) == Some(s);
      assert Run(s, moves) == Some(After(s, moves[0]));
      assert Honest(s, moves[..0], tokens) && (pool in tokens ==> Honest(s, moves, tokens));
      assert Changes(s, moves, pool);
    } else {
      forall moves | Run(s, moves).Some? ensures !Changes(s, moves, pool) {
        SettledForever(s, moves, pool);
      }
    }
  }

  /** Such a state is reached: two workers ask for one pool, and the failure comes second. */
  lemma FailureReplacesAnswer(log: Log, pair: Pair)
    requires Parse(log).Some?
    ensures
      var moves := [Look(0, log), Look(1, log), Answer(0, Some(pair)), Answer(1, None)];
      && Run(EMPTY, moves[..3]).Some? && Run(EMPTY, moves[..3]).value.entries == map[log.address := Some(pair)]
      && Run(EMPTY, moves).Some? && Run(EMPTY, moves).value.entries == map[log.address := None]
      && Run(EMPTY, moves).value.asking == map[]
  {
    hide Parse, Resolved;
    var moves := [Look(0, log), Look(1, log), Answer(0, Some(pair)), Answer(1, None)];
    assert moves[..4] == moves;
    assert moves[..3][..2] == moves[..2] && moves[..2][..1] == moves[..1] && moves[..1][..0] == [];
    assert Run(EMPTY, moves[..1]) == Some(State(map[], map[0 := log], []));
    assert Run(EMPTY, moves[..2]) == Some(State(map[], map[0 := log, 1 := log], []));
    assert map[0 := log, 1 := log] - {0} == map[1 := log];
    var entries: Entries := map[log.address := Some(pair)];
    assert EMPTY.entries[log.address := Some(pair)] == entries;
    var third := Run(EMPTY, moves[..3]).value;
    assert third.entries == entries && third.asking == map[1 := log];
    assert map[1 := log] - {1} == map[];
    assert entries[log.address := None] == map[log.address := None];
  }
}
