/** The five best of the paths found: dedupe, sort by score, truncate, rank. */
module PathSelection {
  import opened Wrappers
  import opened Ascii
  import opened Routing

  // ----- The dedupe key -----

  function Join(parts: seq<string>, sep: char): string {
    if parts == [] then ""
    else if |parts| == 1 then parts[0]
    else parts[0] + [sep] + Join(parts[1..], sep)
  }

  function Key(path: Path): string {
    Join(path.hops, ',') + "|" + Join(path.hopTokens, ',')
  }

  /** What distinguishes two paths: their pools and tokens. */
  predicate SameRoute(p: Path, q: Path) {
    p.hops == q.hops && p.hopTokens == q.hopTokens
  }

  /** Some hops, some tokens, and neither separator in any of them; any address will do. */
  ghost predicate Plain(path: Path) {
    && path.hops != [] && path.hopTokens != []
    && (forall h :: h in path.hops ==> ',' !in h && '|' !in h)
    && (forall t :: t in path.hopTokens ==> ',' !in t && '|' !in t)
  }

  function IndexOf(s: string, c: char): nat {
    if s == "" || s[0] == c then 0 else 1 + IndexOf(s[1..], c)
  }

  lemma {:induction false} FirstAt(a: string, b: string, c: char)
    requires c !in a
    ensures IndexOf(a + [c] + b, c) == |a|
  {
    if a != "" {
      FirstAt(a[1..], b, c);
      assert (a + [c] + b)[1..] == a[1..] + [c] + b;
    }
  }

  /** A text is cut at the first separator in one way only. */
  lemma CutOnce(a: string, b: string, a': string, b': string, sep: char)
    requires a + [sep] + b == a' + [sep] + b' && sep !in a && sep !in a'
    ensures a == a' && b == b'
  {
    FirstAt(a, b, sep);
    FirstAt(a', b', sep);
    var s := a + [sep] + b;
    assert a == s[..|a|] && a' == s[..|a'|] && b == s[|a| + 1..] && b' == s[|a'| + 1..];
  }

  lemma {:induction false} JoinAvoids(parts: seq<string>, sep: char, c: char)
    requires c != sep && forall p :: p in parts ==> c !in p
    ensures c !in Join(parts, sep)
  {
    if |parts| > 1 {
      JoinAvoids(parts[1..], sep, c);
    }
  }

  lemma JoinHasSeparator(parts: seq<string>, sep: char)
    requires |parts| > 1
    ensures sep in Join(parts, sep)
  {
    assert Join(parts, sep)[|parts[0]|] == sep;
  }

  lemma {:induction false} JoinInjective(a: seq<string>, b: seq<string>, sep: char)
    requires a != [] && b != [] && Join(a, sep) == Join(b, sep)
    requires forall p :: p in a || p in b ==> sep !in p
    ensures a == b
  {
    assert a[0] in a && b[0] in b;
    if |a| > 1 {
      JoinHasSeparator(a, sep);
    }
    if |b| > 1 {
      JoinHasSeparator(b, sep);
    }
    if |a| > 1 && |b| > 1 {
      CutOnce(a[0], Join(a[1..], sep), b[0], Join(b[1..], sep), sep);
      JoinInjective(a[1..], b[1..], sep);
    }
  }

  /** On plain addresses equal keys mean equal routes. */
  lemma KeyInjective(p: Path, q: Path)
    requires Plain(p) && Plain(q)
    ensures Key(p) == Key(q) <==> SameRoute(p, q)
  {
    if Key(p) == Key(q) {
      JoinAvoids(p.hops, ',', '|');
      JoinAvoids(q.hops, ',', '|');
      CutOnce(Join(p.hops, ','), Join(p.hopTokens, ','), Join(q.hops, ','), Join(q.hopTokens, ','), '|');
      JoinInjective(p.hops, q.hops, ',');
      JoinInjective(p.hopTokens, q.hopTokens, ',');
    }
  }

  // ----- Dedupe -----

  predicate HasKey(paths: seq<Path>, key: string) {
    exists i :: 0 <= i < |paths| && Key(paths[i]) == key
  }

  /** The first path of each key, in order. */
  function Dedupe(paths: seq<Path>): (r: seq<Path>)
    ensures forall i, j :: 0 <= i < j < |r| ==> Key(r[i]) != Key(r[j])
    ensures forall p :: p in r ==> p in paths
  {
    if paths == [] then []
    else
      var (most, last) := (Dedupe(paths[..|paths| - 1]), paths[|paths| - 1]);
      if HasKey(most, Key(last)) then most else most + [last]
  }

  /** `dedupe_paths`: a set of seen keys and a growing list. */
  method DedupePaths(paths: seq<Path>) returns (unique: seq<Path>)
    ensures unique == Dedupe(paths)
  {
    var seen: set<string> := {};
    unique := [];
    for i := 0 to |paths|
      invariant unique == Dedupe(paths[..i])
      invariant forall key :: key in seen <==> HasKey(unique, key)
    {
      assert paths[..i + 1][..i] == paths[..i];
      var key := Key(paths[i]);
      if key !in seen {
        seen := seen + {key};
        ghost var before := unique;
        unique := unique + [paths[i]];
        assert forall k :: HasKey(unique, k) <==> HasKey(before, k) || k == key by {
          assert unique[|before|] == paths[i];
          assert forall j :: 0 <= j < |before| ==> unique[j] == before[j];
        }
      }
    }
    assert paths[..|paths|] == paths;
  }

  /** A kept path is the first of its key: no earlier path has it. */
  lemma {:induction false} DedupeKeepsFirst(paths: seq<Path>, i: nat)
    requires i < |paths| && forall j :: 0 <= j < i ==> Key(paths[j]) != Key(paths[i])
    ensures paths[i] in Dedupe(paths)
  {
    var n := |paths| - 1;
    if i < n {
      DedupeKeepsFirst(paths[..n], i);
    } else {
      var most := Dedupe(paths[..n]);
      assert !HasKey(most, Key(paths[n])) by {
        forall k | 0 <= k < |most| ensures Key(most[k]) != Key(paths[n]) {
          assert most[k] in paths[..n];
        }
      }
    }
  }

  // ----- Sort -----

  /** `compare_path_score`, in twenty-thousandths of a percent. */
  function Score(path: Path): nat {
    path.impact + 2 * path.fee
  }

  ghost predicate Ascending(paths: seq<Path>) {
    forall i, j :: 0 <= i < j < |paths| ==> Score(paths[i]) <= Score(paths[j])
  }

  /** Puts a path behind every path that scores no worse. */
  function InsertByScore(paths: seq<Path>, p: Path): seq<Path> {
    if paths == [] || Score(paths[|paths| - 1]) <= Score(p) then paths + [p]
    else InsertByScore(paths[..|paths| - 1], p) + [paths[|paths| - 1]]
  }

  /** The stable sort by score. */
  function SortByScore(paths: seq<Path>): seq<Path> {
    if paths == [] then [] else InsertByScore(SortByScore(paths[..|paths| - 1]), paths[|paths| - 1])
  }

  /** The paths with one score, in their order. */
  function WithScore(paths: seq<Path>, score: nat): seq<Path> {
    if paths == [] then []
    else
      var most := WithScore(paths[..|paths| - 1], score);
      if Score(paths[|paths| - 1]) == score then most + [paths[|paths| - 1]] else most
  }

  lemma {:induction false} InsertSorts(paths: seq<Path>, p: Path)
    requires Ascending(paths)
    ensures Ascending(InsertByScore(paths, p))
    ensures multiset(InsertByScore(paths, p)) == multiset(paths) + multiset{p}
  {
    hide Score;
    if paths != [] && Score(paths[|paths| - 1]) > Score(p) {
      var n := |paths| - 1;
      InsertSorts(paths[..n], p);
      assert paths == paths[..n] + [paths[n]];
      var r := InsertByScore(paths[..n], p);
      forall i | 0 <= i < |r| ensures Score(r[i]) <= Score(paths[n]) {
        assert r[i] in multiset(paths[..n]) + multiset{p};
      }
    }
  }

  lemma {:induction false} InsertIsStable(paths: seq<Path>, p: Path, score: nat)
    requires Ascending(paths)
    ensures WithScore(InsertByScore(paths, p), score) == WithScore(paths + [p], score)
  {
    assert (paths + [p])[..|paths|] == paths;
    if paths != [] && Score(paths[|paths| - 1]) > Score(p) {
      var n := |paths| - 1;
      InsertIsStable(paths[..n], p, score);
      assert (paths[..n] + [p])[..n] == paths[..n];
      var r := InsertByScore(paths[..n], p);
      assert (r + [paths[n]])[..|r|] == r;
      if Score(p) == score {
        NoneAbove(paths[..n], score, paths[n]);
      }
    }
  }

  lemma NoneAbove(most: seq<Path>, score: nat, last: Path)
    requires Score(last) != score
    ensures WithScore(most + [last], score) == WithScore(most, score)
  {
    assert (most + [last])[..|most|] == most;
  }

  /** The sort orders by score, and loses and invents nothing. */
  lemma {:induction false} SortSorts(paths: seq<Path>)
    ensures Ascending(SortByScore(paths))
    ensures multiset(SortByScore(paths)) == multiset(paths)
  {
    if paths != [] {
      var n := |paths| - 1;
      SortSorts(paths[..n]);
      InsertSorts(SortByScore(paths[..n]), paths[n]);
      assert paths == paths[..n] + [paths[n]];
    }
  }

  /** The sort keeps the order of paths that score the same. */
  lemma {:induction false} SortIsStable(paths: seq<Path>, score: nat)
    ensures WithScore(SortByScore(paths), score) == WithScore(paths, score)
  {
    if paths != [] {
      var n := |paths| - 1;
      SortIsStable(paths[..n], score);
      var sorted := SortByScore(paths[..n]);
      SortSorts(paths[..n]);
      InsertIsStable(sorted, paths[n], score);
      assert (sorted + [paths[n]])[..|sorted|] == sorted;
    }
  }

  // ----- Truncate and rank -----

  const LIMIT: nat := 5

  function Truncate(paths: seq<Path>): seq<Path> {
    if |paths| > LIMIT then paths[..LIMIT] else paths
  }

  function Ranked(paths: seq<Path>): seq<Path> {
    seq(|paths|, i requires 0 <= i < |paths| => paths[i].(rank := i + 1))
  }

  function TopPaths(paths: seq<Path>): seq<Path> {
    Ranked(Truncate(SortByScore(Dedupe(paths))))
  }

  /** The end of `get_swap_paths`. */
  method SelectPaths(found: seq<Path>) returns (paths: seq<Path>)
    ensures paths == TopPaths(found)
  {
    paths := DedupePaths(found);
    paths := SortByScore(paths);
    paths := Truncate(paths);
    ghost var best := paths;
    for idx := 0 to |paths|
      invariant |paths| == |best|
      invariant forall i :: 0 <= i < |paths| ==> paths[i] == if i < idx then best[i].(rank := i + 1) else best[i]
    {
      paths := paths[idx := paths[idx].(rank := idx + 1)];
    }
  }

  // ----- What is selected -----

  lemma SortedKeys(paths: seq<Path>)
    requires forall i, j :: 0 <= i < j < |paths| ==> Key(paths[i]) != Key(paths[j])
    ensures forall i, j :: 0 <= i < j < |SortByScore(paths)| ==>
              Key(SortByScore(paths)[i]) != Key(SortByScore(paths)[j])
  {
    SortSorts(paths);
    var sorted := SortByScore(paths);
    forall i, j | 0 <= i < j < |sorted| ensures Key(sorted[i]) != Key(sorted[j]) {
      if Key(sorted[i]) == Key(sorted[j]) {
        TwiceInMultiset(sorted, i, j);
        OnceInMultiset(paths, sorted[i]);
      }
    }
  }

  lemma TwiceInMultiset(s: seq<Path>, i: nat, j: nat)
    requires i < j < |s|
    ensures s[i] == s[j] ==> multiset(s)[s[i]] >= 2
    ensures s[i] in multiset(s) && s[j] in multiset(s)
  {
    assert s == s[..j] + s[j..];
    assert s[i] in s[..j] && s[j] in s[j..];
  }

  lemma {:induction false} OnceInMultiset(s: seq<Path>, p: Path)
    requires forall i, j :: 0 <= i < j < |s| ==> Key(s[i]) != Key(s[j])
    ensures multiset(s)[p] <= 1
    ensures p in s ==> forall q :: q in s && Key(q) == Key(p) ==> q == p
  {
    if s != [] {
      var n := |s| - 1;
      OnceInMultiset(s[..n], p);
      assert s == s[..n] + [s[n]];
      forall i | 0 <= i < n ensures s[..n][i] != s[n] {
        assert Key(s[i]) != Key(s[n]);
      }
    }
  }

  /** At most five paths, of pairwise different keys, in ascending order of score, ranked from 1. */
  lemma TopShape(found: seq<Path>)
    ensures |TopPaths(found)| <= 5 && Ascending(TopPaths(found))
    ensures forall i, j :: 0 <= i < j < |TopPaths(found)| ==> Key(TopPaths(found)[i]) != Key(TopPaths(found)[j])
    ensures forall i :: 0 <= i < |TopPaths(found)| ==> TopPaths(found)[i].rank == i + 1
  {
    var unique := Dedupe(found);
    SortSorts(unique);
    SortedKeys(unique);
    RankingKeeps(Truncate(SortByScore(unique)));
  }

  /** Ranking changes nothing but ranks. */
  lemma RankingKeeps(best: seq<Path>)
    ensures |Ranked(best)| == |best|
    ensures forall i :: 0 <= i < |best| ==> Ranked(best)[i] == best[i].(rank := i + 1)
    ensures forall i :: 0 <= i < |best| ==>
              Key(Ranked(best)[i]) == Key(best[i]) && Score(Ranked(best)[i]) == Score(best[i])
  {
  }

  /** Every selected path was found. */
  lemma TopWasFound(found: seq<Path>, i: nat)
    requires i < |TopPaths(found)|
    ensures exists p :: p in found && TopPaths(found)[i] == p.(rank := i + 1)
  {
    var unique := Dedupe(found);
    var sorted := SortByScore(unique);
    SortSorts(unique);
    InMultiset(sorted, i);
    assert sorted[i] in unique;
    assert sorted[i] in found && TopPaths(found)[i] == sorted[i].(rank := i + 1);
  }

  lemma InMultiset(s: seq<Path>, i: nat)
    requires i < |s|
    ensures s[i] in multiset(s)
  {
  }

  /** A path that was first of its key and is not selected scores no better than all five that are. */
  lemma NothingBetterDropped(found: seq<Path>, k: nat)
    requires k < |found| && forall j :: 0 <= j < k ==> Key(found[j]) != Key(found[k])
    requires forall i :: 0 <= i < |TopPaths(found)| ==> Key(TopPaths(found)[i]) != Key(found[k])
    ensures |TopPaths(found)| == 5
    ensures forall i :: 0 <= i < 5 ==> Score(TopPaths(found)[i]) <= Score(found[k])
  {
    var (unique, sorted, top) := (Dedupe(found), SortByScore(Dedupe(found)), TopPaths(found));
    DedupeKeepsFirst(found, k);
    SortSorts(unique);
    assert found[k] in multiset(sorted);
    var at :| 0 <= at < |sorted| && sorted[at] == found[k];
    forall i | 0 <= i < |top| ensures sorted[i] != found[k] {
      assert Key(top[i]) == Key(sorted[i]);
    }
  }

  /** When equal routes score equally, no dropped route at all beats a selected one. */
  lemma NoDroppedRouteIsBetter(found: seq<Path>, p: Path)
    requires p in found && forall q :: q in found ==> Plain(q)
    requires forall q, r :: q in found && r in found && SameRoute(q, r) ==> Score(q) == Score(r)
    requires forall q :: q in TopPaths(found) ==> !SameRoute(q, p)
    ensures |TopPaths(found)| == 5
    ensures forall q :: q in TopPaths(found) ==> Score(q) <= Score(p)
  {
    var top := TopPaths(found);
    TopShape(found);
    var k := FirstOf(found, p);
    KeyInjective(found[k], p);
    forall i | 0 <= i < |top| ensures Key(top[i]) != Key(found[k]) {
      TopWasFound(found, i);
      var q :| q in found && top[i] == q.(rank := i + 1);
      KeyInjective(q, p);
      assert top[i] in top;
    }
    NothingBetterDropped(found, k);
  }

  lemma {:induction false} FirstOf(found: seq<Path>, p: Path) returns (k: nat)
    requires p in found
    ensures k < |found| && Key(found[k]) == Key(p)
    ensures forall j :: 0 <= j < k ==> Key(found[j]) != Key(found[k])
  {
    var i :| 0 <= i < |found| && found[i] == p;
    k := 0;
    while Key(found[k]) != Key(p)
      invariant k <= i && forall j :: 0 <= j < k ==> Key(found[j]) != Key(p)
      decreases i - k
    {
      k := k + 1;
    }
  }
}
