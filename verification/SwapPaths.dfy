/** `get_swap_paths`: the best paths over all pools of the sell token. */
module SwapPaths {
  import opened Wrappers
  import opened Ascii
  import opened Routing
  import opened PathSelection

  /** The paths through each pool, in the order of the pools. */
  function FoundPaths(pools: seq<Pool>, sell: string, target: string, targetPools: seq<Pool>): (r: seq<Path>)
    ensures forall p :: p in r ==> exists pool :: pool in pools && BuildPath(pool, sell, target, targetPools) == Some(p)
  {
    if pools == [] then []
    else
      var (most, last) := (pools[..|pools| - 1], pools[|pools| - 1]);
      assert pools == most + [last];
      var paths := FoundPaths(most, sell, target, targetPools);
      match BuildPath(last, sell, target, targetPools)
      case None => paths
      case Some(path) => paths + [path]
  }

  /** The paths come in the order of their pools, at most one for each. */
  lemma {:induction false} FoundInOrder(a: seq<Pool>, b: seq<Pool>, sell: string, target: string,
                                        targetPools: seq<Pool>)
    ensures FoundPaths(a + b, sell, target, targetPools) ==
            FoundPaths(a, sell, target, targetPools) + FoundPaths(b, sell, target, targetPools)
    ensures |FoundPaths(a, sell, target, targetPools)| <= |a|
  {
    hide BuildPath;
    if b == [] {
      assert a + b == a;
      if a != [] {
        assert a[..|a| - 1] + [] == a[..|a| - 1];
        FoundInOrder(a[..|a| - 1], [], sell, target, targetPools);
      }
    } else {
      var n := |b| - 1;
      assert (a + b)[..|a + b| - 1] == a + b[..n];
      FoundInOrder(a, b[..n], sell, target, targetPools);
    }
  }

  lemma {:induction false} FoundHasAll(pools: seq<Pool>, sell: string, target: string, targetPools: seq<Pool>,
                                       pool: Pool)
    requires pool in pools && BuildPath(pool, sell, target, targetPools).Some?
    ensures BuildPath(pool, sell, target, targetPools).value in FoundPaths(pools, sell, target, targetPools)
  {
    var n := |pools| - 1;
    if pool != pools[n] {
      FoundHasAll(pools[..n], sell, target, targetPools, pool);
    }
  }

  /** The target's pools are not looked up when both tokens are the same. */
  function SwapPathsOf(sellPools: seq<Pool>, discovered: seq<Pool>, sell: string, target: string): seq<Path> {
    TopPaths(FoundPaths(sellPools, sell, target, if SameText(sell, target) then [] else discovered))
  }

  /** They are not needed then: every path is direct, whatever could be discovered. */
  lemma {:induction false} SelfNeedsNoPools(sellPools: seq<Pool>, discovered: seq<Pool>, sell: string, target: string)
    requires SameText(sell, target)
    ensures FoundPaths(sellPools, sell, target, []) == FoundPaths(sellPools, sell, target, discovered)
  {
    if sellPools != [] {
      SelfNeedsNoPools(sellPools[..|sellPools| - 1], discovered, sell, target);
    }
  }

  method GetSwapPaths(sellPools: seq<Pool>, discovered: seq<Pool>, sell: string, target: string)
    returns (paths: seq<Path>)
    ensures paths == SwapPathsOf(sellPools, discovered, sell, target)
  {
    var targetPools := if SameText(sell, target) then [] else discovered;
    paths := [];
    for i := 0 to |sellPools|
      invariant paths == FoundPaths(sellPools[..i], sell, target, targetPools)
    {
      assert sellPools[..i + 1][..i] == sellPools[..i];
      var path := BuildPath(sellPools[i], sell, target, targetPools);
      if path.Some? {
        paths := paths + [path.value];
      }
    }
    assert sellPools[..|sellPools|] == sellPools;
    paths := SelectPaths(paths);
  }

  /** The score a walk would have. */
  ghost function WalkScore(route: seq<Pool>): nat {
    2_000 * |route| + 3 * TotalFee(route)
  }

  lemma PathScore(pool: Pool, sell: string, target: string, targetPools: seq<Pool>, route: seq<Pool>,
                  tokens: seq<string>)
    requires Through(pool, targetPools, route) && IsWalk(route, tokens, sell, target)
    ensures BuildPath(pool, sell, target, targetPools).Some?
    ensures Score(BuildPath(pool, sell, target, targetPools).value) <= WalkScore(route)
  {
    WalkIsFound(pool, sell, target, targetPools, route, tokens);
    if |route| == 1 {
      assert Pairs(route[0], tokens[0], tokens[0 + 1]);
    }
  }

  /** Between different tokens every selected path is a walk through one of the sell token's pools. */
  lemma SelectedAreWalks(sellPools: seq<Pool>, discovered: seq<Pool>, sell: string, target: string, i: nat)
    requires !SameText(sell, target) && i < |SwapPathsOf(sellPools, discovered, sell, target)|
    ensures
      var path := SwapPathsOf(sellPools, discovered, sell, target)[i];
      exists pool, route :: pool in sellPools && Through(pool, discovered, route)
        && path.hops == Addresses(route) && IsWalk(route, path.hopTokens, sell, target)
        && path.fee == TotalFee(route) && Score(path) == WalkScore(route)
  {
    var found := FoundPaths(sellPools, sell, target, discovered);
    TopWasFound(found, i);
    var p :| p in found && TopPaths(found)[i] == p.(rank := i + 1);
    var pool :| pool in sellPools && BuildPath(pool, sell, target, discovered) == Some(p);
    hide TopPaths, FoundPaths, BuildPath, IsWalk, Through, RouteOf, SameText;
    PathIsWalk(pool, sell, target, discovered);
    OwnScore(pool, sell, target, discovered);
    var route := RouteOf(pool, sell, target, discovered);
    assert Through(pool, discovered, route) && IsWalk(route, p.hopTokens, sell, target);
  }

  /** A built path scores as its own walk does. */
  lemma OwnScore(pool: Pool, sell: string, target: string, targetPools: seq<Pool>)
    requires BuildPath(pool, sell, target, targetPools).Some? && !SameText(sell, target)
    ensures Score(BuildPath(pool, sell, target, targetPools).value) ==
            WalkScore(RouteOf(pool, sell, target, targetPools))
  {
    hide SameText, TotalFee;
    PathIsWalk(pool, sell, target, targetPools);
  }

  ghost predicate PlainPools(pools: seq<Pool>) {
    forall p :: p in pools ==>
      (forall text :: text in [p.address, p.token0, p.token1] ==> PlainText(text))
  }

  predicate PlainText(text: string) {
    ',' !in text && '|' !in text
  }

  lemma BuiltIsPlain(pool: Pool, sell: string, target: string, targetPools: seq<Pool>)
    requires PlainPools([pool]) && PlainPools(targetPools) && PlainText(sell) && PlainText(target)
    requires BuildPath(pool, sell, target, targetPools).Some?
    ensures Plain(BuildPath(pool, sell, target, targetPools).value)
  {
    var path := BuildPath(pool, sell, target, targetPools).value;
    assert pool in [pool];
    assert forall text :: text in [pool.address, pool.token0, pool.token1] ==> PlainText(text);
    assert pool.address in [pool.address, pool.token0, pool.token1];
    assert pool.token0 in [pool.address, pool.token0, pool.token1];
    assert pool.token1 in [pool.address, pool.token0, pool.token1];
    if |path.hops| == 2 {
      var bridge := CheapestBridge(targetPools, OtherToken(sell, pool.token0, pool.token1).value, target).value;
      assert bridge.address in [bridge.address, bridge.token0, bridge.token1];
    }
  }

  ghost predicate DistinctAddresses(pools: seq<Pool>) {
    forall i, j :: 0 <= i < j < |pools| ==> pools[i].address != pools[j].address
  }

  /** Discovery returns each address once, so there is nothing to dedupe. */
  lemma {:induction false} NothingToDedupe(pools: seq<Pool>, sell: string, target: string, targetPools: seq<Pool>)
    requires DistinctAddresses(pools)
    requires PlainPools(pools) && PlainPools(targetPools) && PlainText(sell) && PlainText(target)
    ensures Dedupe(FoundPaths(pools, sell, target, targetPools)) == FoundPaths(pools, sell, target, targetPools)
  {
    if pools != [] {
      var n := |pools| - 1;
      NothingToDedupe(pools[..n], sell, target, targetPools);
      var built := BuildPath(pools[n], sell, target, targetPools);
      if built.Some? {
        var most := FoundPaths(pools[..n], sell, target, targetPools);
        assert (most + [built.value])[..|most|] == most;
        forall i | 0 <= i < |most| ensures Key(most[i]) != Key(built.value) {
          var pool :| pool in pools[..n] && BuildPath(pool, sell, target, targetPools) == Some(most[i]);
          BuiltIsPlain(pool, sell, target, targetPools);
          BuiltIsPlain(pools[n], sell, target, targetPools);
          KeyInjective(most[i], built.value);
        }
      }
    }
  }

  predicate StartsAt(p: Path, pool: Pool) {
    p.hops != [] && p.hops[0] == pool.address
  }

  lemma FoundIsPlain(pools: seq<Pool>, pool: Pool, sell: string, target: string, targetPools: seq<Pool>)
    requires pool in pools && PlainPools(pools) && PlainPools(targetPools) && PlainText(sell) && PlainText(target)
    requires BuildPath(pool, sell, target, targetPools).Some?
    ensures Plain(BuildPath(pool, sell, target, targetPools).value)
    ensures StartsAt(BuildPath(pool, sell, target, targetPools).value, pool)
  {
    BuiltIsPlain(pool, sell, target, targetPools);
  }

  lemma OtherStartOtherKey(sellPools: seq<Pool>, discovered: seq<Pool>, sell: string, target: string, pool: Pool,
                           i: nat)
    requires pool in sellPools && BuildPath(pool, sell, target, discovered).Some?
    requires PlainPools(sellPools) && PlainPools(discovered) && PlainText(sell) && PlainText(target)
    requires i < |TopPaths(FoundPaths(sellPools, sell, target, discovered))|
    requires !StartsAt(TopPaths(FoundPaths(sellPools, sell, target, discovered))[i], pool)
    ensures Key(TopPaths(FoundPaths(sellPools, sell, target, discovered))[i])
         != Key(BuildPath(pool, sell, target, discovered).value)
  {
    hide TopPaths, FoundPaths, Key, BuildPath, Plain, PlainPools;
    var found := FoundPaths(sellPools, sell, target, discovered);
    TopWasFound(found, i);
    var q :| q in found && TopPaths(found)[i] == q.(rank := i + 1);
    var other :| other in sellPools && BuildPath(other, sell, target, discovered) == Some(q);
    FoundIsPlain(sellPools, other, sell, target, discovered);
    FoundIsPlain(sellPools, pool, sell, target, discovered);
    KeyInjective(q, BuildPath(pool, sell, target, discovered).value);
    RankIsNotInKey(q, i + 1);
  }

  lemma RankIsNotInKey(p: Path, rank: nat)
    ensures Key(p.(rank := rank)) == Key(p)
  {
  }

  /**
    Over pools with distinct addresses, a walk through a pool that no selected path starts with scores
    no better than any of the five paths selected.
   */
  lemma NoBetterWalk(sellPools: seq<Pool>, discovered: seq<Pool>, sell: string, target: string,
                     pool: Pool, route: seq<Pool>, tokens: seq<string>)
    requires !SameText(sell, target) && DistinctAddresses(sellPools) && pool in sellPools
    requires PlainPools(sellPools) && PlainPools(discovered) && PlainText(sell) && PlainText(target)
    requires Through(pool, discovered, route) && IsWalk(route, tokens, sell, target)
    requires forall p :: p in SwapPathsOf(sellPools, discovered, sell, target) ==> !StartsAt(p, pool)
    ensures |SwapPathsOf(sellPools, discovered, sell, target)| == 5
    ensures forall p :: p in SwapPathsOf(sellPools, discovered, sell, target) ==> Score(p) <= WalkScore(route)
  {
    var found := FoundPaths(sellPools, sell, target, discovered);
    PathScore(pool, sell, target, discovered, route, tokens);
    var p := BuildPath(pool, sell, target, discovered).value;
    FoundHasAll(sellPools, sell, target, discovered, pool);
    NothingToDedupe(sellPools, sell, target, discovered);
    var k :| 0 <= k < |found| && found[k] == p;
    var top := TopPaths(found);
    forall i | 0 <= i < |top| ensures Key(top[i]) != Key(found[k]) {
      assert top[i] in top;
      OtherStartOtherKey(sellPools, discovered, sell, target, pool, i);
    }
    var unique := Dedupe(found);
    forall j | 0 <= j < k ensures Key(found[j]) != Key(found[k]) {
      assert Key(unique[j]) != Key(unique[k]);
    }
    NothingBetterDropped(found, k);
  }
}
