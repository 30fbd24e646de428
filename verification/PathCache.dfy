/** The cache in front of `compute_pool_path`, and how far its replies agree with a fresh computation. */
module PathCache {
  import opened Wrappers
  import opened Ascii
  import opened Routing

  /** A request after native tokens were normalised. */
  datatype Request = Request(chain: string, pool: Pool, sell: string, target: string)

  /** The key leaves out the pool's tokens and fee. */
  datatype CacheKey = CacheKey(chain: string, pool: string, sell: string, target: string)

  datatype Cached = Cached(path: Option<Path>, insertedAt: nat)   // milliseconds

  const TTL_SECS: nat := 300

  function KeyOf(r: Request): CacheKey {
    CacheKey(Lower(r.chain), Lower(r.pool.address), Lower(r.sell), Lower(r.target))
  }

  /** The key tells requests apart by these four texts, whatever their case. */
  lemma KeyIff(r: Request, w: Request)
    ensures KeyOf(r) == KeyOf(w) <==>
            SameText(r.chain, w.chain) && SameText(r.pool.address, w.pool.address)
            && SameText(r.sell, w.sell) && SameText(r.target, w.target)
  {
  }

  /** What a request gets when it is computed on the pools discovered for its target. */
  function Computed(r: Request, discovered: seq<Pool>): Option<Path> {
    match BuildPath(r.pool, r.sell, r.target, discovered)
    case None => None
    case Some(path) => Some(path.(rank := 1))
  }

  /** It is the built path and the first of its kind, or nothing where no walk exists. */
  lemma ComputedIsBuilt(r: Request, discovered: seq<Pool>)
    requires !SameText(r.sell, r.target)
    ensures Computed(r, discovered) == None <==>
            !exists route, tokens :: Through(r.pool, discovered, route) && IsWalk(route, tokens, r.sell, r.target)
    ensures Computed(r, discovered).Some? ==>
              var path := Computed(r, discovered).value;
              && path.rank == 1
              && exists route :: Through(r.pool, discovered, route) && path.hops == Addresses(route)
                   && IsWalk(route, path.hopTokens, r.sell, r.target) && path.fee == TotalFee(route)
  {
    NoPathIffNoWalk(r.pool, r.sell, r.target, discovered);
    if Computed(r, discovered).Some? {
      PathIsWalk(r.pool, r.sell, r.target, discovered);
      var route := RouteOf(r.pool, r.sell, r.target, discovered);
      assert Through(r.pool, discovered, route);
    }
  }

  predicate FreshAt(insertedAt: nat, now: nat) {
    now < insertedAt || (now - insertedAt) / 1_000 < TTL_SECS
  }

  /** A past computation whose result was stored. */
  datatype Write = Write(request: Request, discovered: seq<Pool>, at: nat)

  /** The cached entry is the result of a past write under the same key. */
  predicate Explains(w: Write, key: CacheKey, entry: Cached) {
    KeyOf(w.request) == key && w.at == entry.insertedAt && entry.path == Computed(w.request, w.discovered)
  }

  /**
    What the answer depends on beyond the key: on which token the pool gives for the sold one, unless
    that is the target itself, and on the pool's fee.
   */
  predicate Alike(r: Request, w: Request) {
    match (OtherToken(r.sell, r.pool.token0, r.pool.token1), OtherToken(w.sell, w.pool.token0, w.pool.token1))
    case (None, None) => true
    case (Some(a), Some(b)) =>
      FeeOf(r.pool.feeTier) == FeeOf(w.pool.feeTier) && (SameText(r.sell, r.target) || SameText(a, b))
    case _ => false
  }

  /** A pool trades the sold token directly for the target exactly when that is the other token, or the sold one. */
  lemma DirectIff(r: Request)
    requires OtherToken(r.sell, r.pool.token0, r.pool.token1).Some?
    ensures SameText(r.pool.token0, r.target) || SameText(r.pool.token1, r.target) <==>
            SameText(r.sell, r.target) || SameText(OtherToken(r.sell, r.pool.token0, r.pool.token1).value, r.target)
  {
  }

  lemma AlikeSamePath(r: Request, w: Request, discovered: seq<Pool>)
    requires KeyOf(r) == KeyOf(w) && Alike(r, w)
    ensures SamePath(Computed(r, discovered), Computed(w, discovered))
  {
    hide CheapestBridge, FeeOf, Lower;
    var (o, o') := (OtherToken(r.sell, r.pool.token0, r.pool.token1), OtherToken(w.sell, w.pool.token0, w.pool.token1));
    if o.Some? {
      DirectIff(r);
      DirectIff(w);
      if SameText(o.value, o'.value) {
        BridgeIgnoresCase(discovered, o.value, r.target, o'.value, w.target);
      }
    }
  }

  ghost predicate AgreeAlways(r: Request, w: Request) {
    forall discovered :: SamePath(Computed(r, discovered), Computed(w, discovered))
  }

  /** A pool between a token and the target makes a path for that token, and for no other. */
  lemma BridgeTells(r: Request, w: Request)
    requires KeyOf(r) == KeyOf(w) && !SameText(r.sell, r.target)
    requires OtherToken(r.sell, r.pool.token0, r.pool.token1).Some?
    requires !Alike(r, w)
    ensures !AgreeAlways(r, w)
  {
    var (o, o') := (OtherToken(r.sell, r.pool.token0, r.pool.token1), OtherToken(w.sell, w.pool.token0, w.pool.token1));
    var bridge := Pool("", o.value, r.target, 0);
    DirectIff(r);
    if o'.Some? {
      DirectIff(w);
    }
    assert Pairs(bridge, o.value, r.target);
    OneBridge(bridge, o.value, r.target);
    if o'.Some? {
      OneBridge(bridge, o'.value, w.target);
    }
    assert !SamePath(Computed(r, [bridge]), Computed(w, [bridge])) || !SamePath(Computed(r, []), Computed(w, []));
  }

  lemma OneBridge(bridge: Pool, other: string, target: string)
    ensures CheapestBridge([bridge], other, target) == if Pairs(bridge, other, target) then Some(bridge) else None
    ensures CheapestBridge([], other, target) == None
  {
    assert [bridge][..0] == [];
  }

  /**
    Two requests under one key agree, up to case, on every list of discovered pools exactly when they are
    alike: swapped tokens and the fees 0 and 3000 are alike, other tokens or fees are not.
   */
  lemma {:induction false} AgreeAlwaysIff(r: Request, w: Request)
    requires KeyOf(r) == KeyOf(w)
    ensures AgreeAlways(r, w) <==> Alike(r, w)
  {
    var (o, o') := (OtherToken(r.sell, r.pool.token0, r.pool.token1), OtherToken(w.sell, w.pool.token0, w.pool.token1));
    if Alike(r, w) {
      forall discovered ensures SamePath(Computed(r, discovered), Computed(w, discovered)) {
        AlikeSamePath(r, w, discovered);
      }
    } else if SameText(r.sell, r.target) {
      assert !SamePath(Computed(r, []), Computed(w, []));
    } else if o.Some? {
      BridgeTells(r, w);
    } else {
      BridgeTells(w, r);
      assert exists discovered :: !SamePath(Computed(w, discovered), Computed(r, discovered));
      var discovered :| !SamePath(Computed(w, discovered), Computed(r, discovered));
      assert !SamePath(Computed(r, discovered), Computed(w, discovered));
    }
  }

  /** A pool's address fixes its tokens, whatever their order, and its fee: then the requests are alike. */
  lemma SamePoolIsAlike(r: Request, w: Request)
    requires KeyOf(r) == KeyOf(w) && FeeOf(r.pool.feeTier) == FeeOf(w.pool.feeTier)
    requires Pairs(r.pool, w.pool.token0, w.pool.token1)
    ensures Alike(r, w)
  {
  }

  datatype Reply = SellTokenNotInPool | DiscoveryFailed | Answer(path: Option<Path>)

  class Cache {
    var entries: map<CacheKey, Cached>
    ghost var log: seq<Write>

    ghost predicate Valid()
      reads this
    {
      forall key :: key in entries ==> exists i :: 0 <= i < |log| && Explains(log[i], key, entries[key])
    }

    constructor ()
      ensures Valid() && entries == map[] && log == []
    {
      entries, log := map[], [];
    }

    /** The read lock's part: a hit is the result of a write of the same key less than 300000 milliseconds ago. */
    method Lookup(r: Request, now: nat) returns (hit: Option<Cached>)
      requires Valid()
      ensures hit.Some? <==> KeyOf(r) in entries && now < entries[KeyOf(r)].insertedAt + 300_000
      ensures hit.Some? ==> hit.value == entries[KeyOf(r)]
      ensures hit.Some? ==>
                exists i :: 0 <= i < |log| && Explains(log[i], KeyOf(r), hit.value) && now < log[i].at + 300_000
    {
      hit := None;
      if KeyOf(r) in entries {
        var entry := entries[KeyOf(r)];
        if FreshAt(entry.insertedAt, now) {
          hit := Some(entry);
        }
      }
    }

    /** The cache has a path under the request's key that is less than 300000 milliseconds old. */
    ghost predicate Holds(r: Request, now: nat)
      reads this
    {
      KeyOf(r) in entries && now < entries[KeyOf(r)].insertedAt + 300_000
    }

    /** The write lock's part, which may follow other requests' reads and writes. */
    method Store(r: Request, discovered: seq<Pool>, now: nat) returns (path: Option<Path>)
      requires Valid()
      modifies this
      ensures Valid()
      ensures path == Computed(r, discovered)
      ensures entries == old(entries)[KeyOf(r) := Cached(path, now)]
      ensures log == old(log) + [Write(r, discovered, now)]
    {
      path := Computed(r, discovered);
      log := log + [Write(r, discovered, now)];
      ghost var before := entries;
      entries := entries[KeyOf(r) := Cached(path, now)];
      assert Explains(log[|log| - 1], KeyOf(r), entries[KeyOf(r)]);
      forall key | key in before && key != KeyOf(r)
        ensures exists i :: 0 <= i < |log| && Explains(log[i], key, entries[key])
      {
        var i :| 0 <= i < |old(log)| && Explains(old(log)[i], key, before[key]);
        assert log[i] == old(log)[i];
      }
    }

    /**
      `compute_pool_path`. Every answer is the result of a computation, its own or a stored one, under
      the same key and less than 300 seconds old; when that computation's request was alike the answer is
      what the request itself computes on those pools, up to the case of addresses.
     */
    method ComputePoolPath(r: Request, discovery: Option<seq<Pool>>, now: nat, storedAt: nat) returns (reply: Reply)
      requires Valid()
      modifies this
      ensures Valid()
      ensures reply == SellTokenNotInPool <==> OtherToken(r.sell, r.pool.token0, r.pool.token1) == None
      ensures reply == SellTokenNotInPool || reply == DiscoveryFailed ==> entries == old(entries) && log == old(log)
      ensures reply == DiscoveryFailed <==> reply != SellTokenNotInPool && discovery == None && !old(Holds(r, now))
      ensures reply != SellTokenNotInPool && old(Holds(r, now)) ==>
                reply == Answer(old(entries)[KeyOf(r)].path) && entries == old(entries) && log == old(log)
      ensures reply != SellTokenNotInPool && !old(Holds(r, now)) && discovery.Some? ==>
                && reply == Answer(Computed(r, discovery.value))
                && entries == old(entries)[KeyOf(r) := Cached(Computed(r, discovery.value), storedAt)]
      ensures reply.Answer? ==>
                exists w :: w in log && KeyOf(w.request) == KeyOf(r)
                  && (now < w.at + 300_000 || (discovery.Some? && w == Write(r, discovery.value, storedAt)))
                  && reply.path == Computed(w.request, w.discovered)
                  && (Alike(r, w.request) ==> SamePath(reply.path, Computed(r, w.discovered)))
    {
      if OtherToken(r.sell, r.pool.token0, r.pool.token1) == None {
        return SellTokenNotInPool;
      }
      var hit := Lookup(r, now);
      if hit.Some? {
        reply := Answer(hit.value.path);
        ghost var i :| 0 <= i < |log| && Explains(log[i], KeyOf(r), hit.value) && now < log[i].at + 300_000;
        Agrees(r, log[i]);
        assert log[i] in log;
      } else if discovery == None {
        reply := DiscoveryFailed;
      } else {
        var path := Store(r, discovery.value, storedAt);
        reply := Answer(path);
        Agrees(r, log[|log| - 1]);
        assert log[|log| - 1] in log;
      }
    }

    lemma Agrees(r: Request, w: Write)
      requires KeyOf(w.request) == KeyOf(r)
      ensures Alike(r, w.request) ==> SamePath(Computed(w.request, w.discovered), Computed(r, w.discovered))
    {
      if Alike(r, w.request) {
        AlikeSamePath(r, w.request, w.discovered);
      }
    }
  }
}
