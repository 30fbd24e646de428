/** ASCII text as the services compare it: case-insensitive equality and trimming. */
module Ascii {

  function LowerChar(c: char): char {
    if 'A' <= c <= 'Z' then (c as int + 32) as char else c
  }

  function Lower(s: string): (r: string)
    ensures |r| == |s|
    ensures forall i :: 0 <= i < |s| ==> r[i] == LowerChar(s[i])
  {
    seq(|s|, i requires 0 <= i < |s| => LowerChar(s[i]))
  }

  /** `eq_ignore_ascii_case`. */
  predicate SameText(a: string, b: string) {
    Lower(a) == Lower(b)
  }

  /** A capital becomes the small letter in the same place of the alphabet; nothing else changes. */
  lemma LowerLetters(c: char)
    ensures 'A' <= c <= 'Z' ==> 'a' <= LowerChar(c) <= 'z' && LowerChar(c) as int - 'a' as int == c as int - 'A' as int
    ensures LowerChar(c) != c <==> 'A' <= c <= 'Z'
    ensures LowerChar(LowerChar(c)) == LowerChar(c)
  {
  }

  /** Blank, tab, line feed, vertical tab, form feed and carriage return. */
  predicate IsSpace(c: char) {
    c == ' ' || '\t' <= c <= '\r'
  }

  /** By code point: 9 to 13, and 32. */
  lemma SpaceIs(c: char)
    ensures IsSpace(c) <==> 9 <= c as int <= 13 || c as int == 32
  {
  }

  function TrimStart(s: string): (r: string)
    ensures r == [] || !IsSpace(r[0])
    ensures |r| <= |s| && r == s[|s| - |r|..]
  {
    if s != [] && IsSpace(s[0]) then TrimStart(s[1..]) else s
  }

  function TrimEnd(s: string): (r: string)
    ensures r == [] || !IsSpace(r[|r| - 1])
    ensures |r| <= |s| && r == s[..|r|]
  {
    if s != [] && IsSpace(s[|s| - 1]) then TrimEnd(s[..|s| - 1]) else s
  }

  /** `trim`. */
  function Trim(s: string): (r: string)
    ensures r == [] || (!IsSpace(r[0]) && !IsSpace(r[|r| - 1]))
    ensures |r| <= |s|
  {
    TrimEnd(TrimStart(s))
  }

  ghost predicate Around(s: string, a: nat, b: nat) {
    a <= b <= |s| && forall i :: 0 <= i < a || b <= i < |s| ==> IsSpace(s[i])
  }

  /** A text is its trimmed middle and white space around it. */
  lemma {:induction false} TrimIsMiddle(s: string)
    ensures exists a: nat, b: nat :: Around(s, a, b) && Trim(s) == s[a..b]
  {
    hide TrimStart, TrimEnd, IsSpace;
    var start := TrimStart(s);
    var a := |s| - |start|;
    var b := a + |TrimEnd(start)|;
    TrimStartSkips(s);
    TrimEndSkips(start);
    forall i | 0 <= i < a || b <= i < |s| ensures IsSpace(s[i]) {
      if i >= b {
        assert start[i - a] == s[i];
      }
    }
    assert Around(s, a, b) && Trim(s) == s[a..b];
  }

  lemma {:induction false} TrimStartSkips(s: string)
    ensures forall i :: 0 <= i < |s| - |TrimStart(s)| ==> IsSpace(s[i])
  {
    if s != "" && IsSpace(s[0]) {
      TrimStartSkips(s[1..]);
      assert forall i :: 1 <= i < |s| ==> s[i] == s[1..][i - 1];
    }
  }

  lemma {:induction false} TrimEndSkips(s: string)
    ensures forall i :: |TrimEnd(s)| <= i < |s| ==> IsSpace(s[i])
  {
    if s != "" && IsSpace(s[|s| - 1]) {
      TrimEndSkips(s[..|s| - 1]);
    }
  }

  lemma NothingToTrim(s: string)
    requires s == "" || (!IsSpace(s[0]) && !IsSpace(s[|s| - 1]))
    ensures Trim(s) == s
  {
  }

  /** Trimming trimmed text changes nothing. */
  lemma TrimTwice(s: string)
    ensures Trim(Trim(s)) == Trim(s)
  {
    hide *;
    NothingToTrim(Trim(s));
  }

  lemma TrimOrShorter(s: string)
    ensures Trim(s) == s || |Trim(s)| < |s|
  {
  }

  lemma SameTextLength(a: string, b: string)
    requires SameText(a, b)
    ensures |a| == |b|
    ensures forall i :: 0 <= i < |a| ==> LowerChar(a[i]) == LowerChar(b[i])
  {
    assert |Lower(a)| == |Lower(b)|;
    forall i | 0 <= i < |a| ensures LowerChar(a[i]) == LowerChar(b[i]) {
      assert Lower(a)[i] == Lower(b)[i];
    }
  }
}
