/** Swap routes through one pool: direct, or over one bridge pool found for the target token. */
module Routing {
  import opened Wrappers
  import opened Ascii

  datatype Pool = Pool(address: string, token0: string, token1: string, feeTier: nat)

  /**
    `fee` counts ten-thousandths of a percent, as fee tiers do; `impact` counts twenty-thousandths,
    in which a hop costs 2000 and half the fee is the fee's own number.
   */
  datatype Path = Path(rank: nat, hops: seq<string>, hopTokens: seq<string>, impact: nat, fee: nat)

  /** A pool without a fee tier is taken to charge 3000. */
  function FeeOf(feeTier: nat): nat {
    if feeTier > 0 then feeTier else 3_000
  }

  /** Every other pool charges its tier; so no two pools of different tiers charge alike but those of 0 and 3000. */
  lemma FeeIs(a: nat, b: nat)
    ensures FeeOf(a) > 0 && FeeOf(0) == 3_000
    ensures FeeOf(a) == a <==> a > 0
    ensures FeeOf(a) == FeeOf(b) <==> a == b || (a == 0 && b == 3_000) || (a == 3_000 && b == 0)
  {
  }

  function ImpactOf(hopCount: nat, fee: nat): nat {
    2_000 * (if hopCount > 1 then hopCount else 1) + fee
  }

  function OtherToken(sell: string, token0: string, token1: string): Option<string> {
    if SameText(token0, sell) then Some(token1)
    else if SameText(token1, sell) then Some(token0)
    else None
  }

  /** The pool trades exactly the two given tokens. */
  predicate Pairs(pool: Pool, a: string, b: string) {
    || (SameText(pool.token0, a) && SameText(pool.token1, b))
    || (SameText(pool.token1, a) && SameText(pool.token0, b))
  }

  /** The order of a pool's two tokens, and the case they are written in, make no difference. */
  lemma PairsIff(pool: Pool, a: string, b: string)
    ensures Pairs(pool, a, b) <==>
            multiset{Lower(pool.token0), Lower(pool.token1)} == multiset{Lower(a), Lower(b)}
  {
    var (x, y, u, v) := (Lower(pool.token0), Lower(pool.token1), Lower(a), Lower(b));
    if multiset{x, y} == multiset{u, v} {
      assert x in multiset{u, v} && y in multiset{u, v};
      assert multiset{x, y} - multiset{x} == multiset{u, v} - multiset{x};
      assert multiset{x, y} - multiset{x} == multiset{y};
    }
  }

  /** `filter` and `min_by`: the first of the cheapest pools between the two tokens. */
  function CheapestBridge(pools: seq<Pool>, other: string, target: string): (r: Option<Pool>)
    ensures r == None <==> forall p :: p in pools ==> !Pairs(p, other, target)
    ensures r.Some? ==> r.value in pools && Pairs(r.value, other, target)
    ensures r.Some? ==> forall p :: p in pools && Pairs(p, other, target) ==> FeeOf(r.value.feeTier) <= FeeOf(p.feeTier)
  {
    if pools == [] then None
    else
      var (most, last) := (pools[..|pools| - 1], pools[|pools| - 1]);
      assert pools == most + [last];
      var best := CheapestBridge(most, other, target);
      if Pairs(last, other, target) && (best == None || FeeOf(last.feeTier) < FeeOf(best.value.feeTier))
      then Some(last) else best
  }

  /** The pool trades the two tokens, and every such pool before it is dearer. */
  ghost predicate FirstCheapest(pools: seq<Pool>, other: string, target: string, i: nat) {
    && i < |pools| && Pairs(pools[i], other, target)
    && forall j :: 0 <= j < i && Pairs(pools[j], other, target) ==> FeeOf(pools[i].feeTier) < FeeOf(pools[j].feeTier)
  }

  lemma FirstCheapestStays(pools: seq<Pool>, other: string, target: string, i: nat)
    requires pools != [] && FirstCheapest(pools[..|pools| - 1], other, target, i)
    ensures FirstCheapest(pools, other, target, i)
  {
    hide FeeOf, Pairs;
  }

  /** The last pool is taken where it is cheaper than the best before it. */
  lemma LastIsFirstCheapest(pools: seq<Pool>, other: string, target: string)
    requires pools != [] && CheapestBridge(pools, other, target).Some?
    requires CheapestBridge(pools, other, target) != CheapestBridge(pools[..|pools| - 1], other, target)
    ensures pools[|pools| - 1] == CheapestBridge(pools, other, target).value
    ensures FirstCheapest(pools, other, target, |pools| - 1)
  {
    hide FeeOf, Pairs;
    var n := |pools| - 1;
    forall j | 0 <= j < n && Pairs(pools[j], other, target)
      ensures FeeOf(pools[n].feeTier) < FeeOf(pools[j].feeTier)
    {
      assert pools[..n][j] == pools[j] && pools[j] in pools[..n];
    }
  }

  /** Among equally cheap bridges the earliest is taken. */
  lemma {:induction false} CheapestIsFirst(pools: seq<Pool>, other: string, target: string)
    requires CheapestBridge(pools, other, target).Some?
    ensures exists i: nat :: FirstCheapest(pools, other, target, i)
              && pools[i] == CheapestBridge(pools, other, target).value
  {
    if pools == [] {
    } else if CheapestBridge(pools, other, target) == CheapestBridge(pools[..|pools| - 1], other, target) {
      hide CheapestBridge, FirstCheapest;
      CheapestIsFirst(pools[..|pools| - 1], other, target);
      var i: nat :| FirstCheapest(pools[..|pools| - 1], other, target, i)
        && pools[..|pools| - 1][i] == CheapestBridge(pools[..|pools| - 1], other, target).value;
      FirstCheapestStays(pools, other, target, i);
    } else {
      LastIsFirstCheapest(pools, other, target);
    }
  }

  /** `build_swap_path`. */
  function BuildPath(pool: Pool, sell: string, target: string, targetPools: seq<Pool>): Option<Path> {
    match OtherToken(sell, pool.token0, pool.token1)
    case None => None
    case Some(other) =>
      var fee := FeeOf(pool.feeTier);
      if SameText(pool.token0, target) || SameText(pool.token1, target) then
        Some(Path(0, [pool.address], [sell, target], ImpactOf(1, fee), fee))
      else
        match CheapestBridge(targetPools, other, target)
        case None => None
        case Some(bridge) =>
          var total := fee + FeeOf(bridge.feeTier);
          Some(Path(0, [pool.address, bridge.address], [sell, other, target], ImpactOf(2, total), total))
  }

  // ----- Walks: what a route is, apart from how it is built -----

  /** The tokens lead from sell to target, each pool trading the two tokens around it. */
  ghost predicate IsWalk(route: seq<Pool>, tokens: seq<string>, sell: string, target: string) {
    && |route| > 0 && |tokens| == |route| + 1
    && SameText(tokens[0], sell) && SameText(tokens[|route|], target)
    && forall i :: 0 <= i < |route| ==> Pairs(route[i], tokens[i], tokens[i + 1])
  }

  /** A route that starts with the given pool and goes on through at most one of the target's pools. */
  ghost predicate Through(pool: Pool, targetPools: seq<Pool>, route: seq<Pool>) {
    route == [pool] || exists bridge :: bridge in targetPools && route == [pool, bridge]
  }

  ghost function TotalFee(route: seq<Pool>): nat {
    if route == [] then 0 else TotalFee(route[..|route| - 1]) + FeeOf(route[|route| - 1].feeTier)
  }

  function Addresses(route: seq<Pool>): seq<string> {
    seq(|route|, i requires 0 <= i < |route| => route[i].address)
  }

  /** The pools a built path goes through. */
  ghost function RouteOf(pool: Pool, sell: string, target: string, targetPools: seq<Pool>): (route: seq<Pool>)
    requires BuildPath(pool, sell, target, targetPools).Some?
  {
    if SameText(pool.token0, target) || SameText(pool.token1, target) then [pool]
    else [pool, CheapestBridge(targetPools, OtherToken(sell, pool.token0, pool.token1).value, target).value]
  }

  /** Soundness: between different tokens a path is a walk over its own hops, and its fee theirs. */
  lemma PathIsWalk(pool: Pool, sell: string, target: string, targetPools: seq<Pool>)
    requires BuildPath(pool, sell, target, targetPools).Some? && !SameText(sell, target)
    ensures
      var (path, route) := (BuildPath(pool, sell, target, targetPools).value, RouteOf(pool, sell, target, targetPools));
      && Through(pool, targetPools, route) && IsWalk(route, path.hopTokens, sell, target)
      && path.hops == Addresses(route) && |path.hopTokens| == |path.hops| + 1
      && path.fee == TotalFee(route)
  {
    var route := RouteOf(pool, sell, target, targetPools);
    assert route == route[..1] + route[1..];
    assert TotalFee([pool]) == FeeOf(pool.feeTier);
    if |route| == 2 {
      assert route[..1] == [pool];
    }
  }

  /** A path from a token to itself is a walk only through a pool of twins. */
  lemma SelfPathIsWalkIff(pool: Pool, sell: string, target: string, targetPools: seq<Pool>)
    requires BuildPath(pool, sell, target, targetPools).Some? && SameText(sell, target)
    ensures
      var (path, route) := (BuildPath(pool, sell, target, targetPools).value, RouteOf(pool, sell, target, targetPools));
      IsWalk(route, path.hopTokens, sell, target) <==> SameText(pool.token0, pool.token1)
  {
    var (path, route) := (BuildPath(pool, sell, target, targetPools).value, RouteOf(pool, sell, target, targetPools));
    assert route == [pool];
    if IsWalk(route, path.hopTokens, sell, target) {
      assert Pairs(route[0], path.hopTokens[0], path.hopTokens[0 + 1]);
    }
  }

  /** Completeness and optimality: whenever such a walk exists a path is built, and no such walk is cheaper. */
  lemma WalkIsFound(pool: Pool, sell: string, target: string, targetPools: seq<Pool>, route: seq<Pool>,
                    tokens: seq<string>)
    requires Through(pool, targetPools, route) && IsWalk(route, tokens, sell, target)
    ensures BuildPath(pool, sell, target, targetPools).Some?
    ensures BuildPath(pool, sell, target, targetPools).value.fee <= TotalFee(route)
  {
    assert Pairs(route[0], tokens[0], tokens[0 + 1]);
    assert TotalFee([pool]) == FeeOf(pool.feeTier);
    if route != [pool] {
      var bridge :| bridge in targetPools && route == [pool, bridge];
      assert route[..1] == [pool];
      assert Pairs(route[1], tokens[1], tokens[1 + 1]);
      var other := OtherToken(sell, pool.token0, pool.token1).value;
      assert SameText(other, tokens[1]);
      assert Pairs(bridge, other, target);
    }
  }

  /** No path exactly when no walk through the pool exists. */
  lemma NoPathIffNoWalk(pool: Pool, sell: string, target: string, targetPools: seq<Pool>)
    requires !SameText(sell, target)
    ensures BuildPath(pool, sell, target, targetPools) == None <==>
            !exists route, tokens :: Through(pool, targetPools, route) && IsWalk(route, tokens, sell, target)
  {
    if exists route, tokens :: Through(pool, targetPools, route) && IsWalk(route, tokens, sell, target) {
      var route, tokens :| Through(pool, targetPools, route) && IsWalk(route, tokens, sell, target);
      WalkIsFound(pool, sell, target, targetPools, route, tokens);
    }
    if BuildPath(pool, sell, target, targetPools).Some? {
      PathIsWalk(pool, sell, target, targetPools);
    }
  }

  // ----- Case -----

  ghost predicate SameTexts(a: seq<string>, b: seq<string>) {
    |a| == |b| && forall i :: 0 <= i < |a| ==> SameText(a[i], b[i])
  }

  predicate SamePool(p: Pool, q: Pool) {
    SameText(p.address, q.address) && SameText(p.token0, q.token0) && SameText(p.token1, q.token1)
        && p.feeTier == q.feeTier
  }

  /** Equal but for the case of addresses. */
  ghost predicate SamePath(p: Option<Path>, q: Option<Path>) {
    || (p == None && q == None)
    || (p.Some? && q.Some?
        && p.value.rank == q.value.rank && p.value.impact == q.value.impact && p.value.fee == q.value.fee
        && SameTexts(p.value.hops, q.value.hops) && SameTexts(p.value.hopTokens, q.value.hopTokens))
  }

  lemma {:induction false} BridgeIgnoresCase(pools: seq<Pool>, other: string, target: string, other': string,
                                             target': string)
    requires SameText(other, other') && SameText(target, target')
    ensures CheapestBridge(pools, other, target) == CheapestBridge(pools, other', target')
  {
    if pools != [] {
      BridgeIgnoresCase(pools[..|pools| - 1], other, target, other', target');
    }
  }

  /** Requests that differ only in case get paths that differ only in case. */
  lemma PathIgnoresCase(pool: Pool, sell: string, target: string, pool': Pool, sell': string, target': string,
                        targetPools: seq<Pool>)
    requires SamePool(pool, pool') && SameText(sell, sell') && SameText(target, target')
    ensures SamePath(BuildPath(pool, sell, target, targetPools), BuildPath(pool', sell', target', targetPools))
  {
    var (o, o') := (OtherToken(sell, pool.token0, pool.token1), OtherToken(sell', pool'.token0, pool'.token1));
    if o.Some? {
      BridgeIgnoresCase(targetPools, o.value, target, o'.value, target');
    }
  }
}
