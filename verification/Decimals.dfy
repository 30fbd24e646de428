/** Decimal texts: wei to human amounts and back, as the frontend and the mailer print them. */
module Decimals {
  import opened Ascii

  // ----- Digit strings -----

  predicate IsDigit(c: char) {
    '0' <= c <= '9'
  }

  predicate AllDigits(s: string) {
    forall i :: 0 <= i < |s| ==> IsDigit(s[i])
  }

  function DigitOf(c: char): nat
    requires IsDigit(c)
  {
    c as int - '0' as int
  }

  /** The number a digit string denotes, as `BigInt` reads it. */
  function Value(s: string): nat
    requires AllDigits(s)
  {
    if s == "" then 0 else 10 * Value(s[..|s| - 1]) + DigitOf(s[|s| - 1])
  }

  function Power10(n: nat): (r: nat)
    ensures r > 0
  {
    if n == 0 then 1 else 10 * Power10(n - 1)
  }

  function Scaled(v: nat, n: nat): nat {
    v * Power10(n)
  }

  /** `BigInt.toString`. */
  function Text(n: nat): (r: string)
    ensures AllDigits(r) && Value(r) == n && Canonical(r)
  {
    var digit := [(n % 10 + '0' as int) as char];
    assert digit[..0] == "";
    if n < 10 then digit
    else
      assert (Text(n / 10) + digit)[..|Text(n / 10)|] == Text(n / 10);
      Text(n / 10) + digit
  }

  /** Not empty, and no zero in front unless it is all there is. */
  predicate Canonical(s: string) {
    AllDigits(s) && s != "" && (s == "0" || s[0] != '0')
  }

  function Zeros(n: nat): (r: string)
    ensures |r| == n && AllDigits(r) && forall i :: 0 <= i < n ==> r[i] == '0'
  {
    seq(n, _ => '0')
  }

  /** `padStart` and `padEnd` with zeros. */
  function PadStart(s: string, length: nat): (r: string)
    ensures |r| == if |s| < length then length else |s|
  {
    if |s| < length then Zeros(length - |s|) + s else s
  }

  function PadEnd(s: string, length: nat): (r: string)
    ensures |r| >= length
  {
    if |s| < length then s + Zeros(length - |s|) else s
  }

  /** Without leading zeros: `replace(/^0+/, "")`. */
  function TrimZerosStart(s: string): (r: string)
    ensures |r| <= |s|
  {
    if s != "" && s[0] == '0' then TrimZerosStart(s[1..]) else s
  }

  /** Without trailing zeros: `replace(/0+$/, "")`. */
  function TrimZerosEnd(s: string): (r: string)
    ensures |r| <= |s|
  {
    if s != "" && s[|s| - 1] == '0' then TrimZerosEnd(s[..|s| - 1]) else s
  }

  lemma {:induction false} TrimStartForm(s: string)
    ensures var r := TrimZerosStart(s); s == Zeros(|s| - |r|) + r && (r == "" || r[0] != '0')
  {
    if s != "" && s[0] == '0' {
      TrimStartForm(s[1..]);
      var r := TrimZerosStart(s[1..]);
      assert s == ["0"[0]] + s[1..] && Zeros(|s| - |r|) == ['0'] + Zeros(|s| - 1 - |r|);
    } else {
      assert Zeros(0) + s == s;
    }
  }

  lemma {:induction false} TrimEndForm(s: string)
    ensures var r := TrimZerosEnd(s); s == r + Zeros(|s| - |r|) && (r == "" || r[|r| - 1] != '0')
  {
    if s != "" && s[|s| - 1] == '0' {
      TrimEndForm(s[..|s| - 1]);
      var r := TrimZerosEnd(s[..|s| - 1]);
      assert s == s[..|s| - 1] + ['0'] && Zeros(|s| - |r|) == Zeros(|s| - 1 - |r|) + ['0'];
    } else {
      assert s + Zeros(0) == s;
    }
  }

  lemma PadForm(s: string, length: nat)
    ensures PadStart(s, length) == Zeros(if |s| < length then length - |s| else 0) + s
  {
    assert Zeros(0) + s == s;
  }

  lemma Regroup(a: string, b: string, c: string)
    ensures (a + b) + c == a + (b + c)
  {
  }

  lemma ZerosJoin(a: nat, b: nat)
    ensures Zeros(a) + Zeros(b) == Zeros(a + b)
  {
  }

  // ----- The conversions -----

  function FirstDot(s: string): (r: nat)
    ensures r <= |s| && (r < |s| ==> s[r] == '.') && forall i :: 0 <= i < r ==> s[i] != '.'
  {
    if s == "" || s[0] == '.' then 0 else 1 + FirstDot(s[1..])
  }

  /** The first two pieces of `split(".")`, the second empty when there is none. */
  function SplitDot(s: string): (string, string) {
    var dot := FirstDot(s);
    if dot == |s| then (s, "") else (s[..dot], s[dot + 1..][..FirstDot(s[dot + 1..])])
  }

  /** `toWei`; `isNumber` is the verdict of `!isNaN(Number(amount))`. */
  function ToWei(amount: string, decimals: nat, isNumber: bool): string {
    if amount == "" || !isNumber then "0"
    else
      var (whole, frac) := SplitDot(amount);
      var raw := TrimZerosStart(whole + PadEnd(frac, decimals)[..decimals]);
      if raw == "" then "0" else raw
  }

  /** A whole part, and after a point a fraction if there is one. */
  function Printed(whole: string, frac: string): string {
    if frac == "" then whole else whole + "." + frac
  }

  /** The padded text before and after its point, the second without the zeros at its end. */
  function WholePart(wei: string, decimals: nat): string {
    PadStart(wei, decimals + 1)[..|PadStart(wei, decimals + 1)| - decimals]
  }

  function LastDigits(wei: string, decimals: nat): (r: string)
    ensures |r| == decimals
  {
    PadStart(wei, decimals + 1)[|PadStart(wei, decimals + 1)| - decimals..]
  }

  function FracPart(wei: string, decimals: nat): string {
    TrimZerosEnd(LastDigits(wei, decimals))
  }

  /** `fromWei`. */
  function FromWei(wei: string, decimals: nat): string {
    if wei == "" || wei == "0" then "0" else Printed(WholePart(wei, decimals), FracPart(wei, decimals))
  }

  /** `format_wei_as_ether`. */
  function FormatWeiAsEther(wei: string): string {
    var trimmed := Trim(wei);
    if trimmed == "" then "0"
    else
      var negative := trimmed[0] == '-';
      var given := if negative then trimmed[1..] else trimmed;
      if !AllDigits(given) then wei
      else
        var digits := TrimZerosStart(given);
        if digits == "" then "0"
        else (if negative then "-" else "") + FormatDigits(digits)
  }

  const ETHER_DECIMALS: nat := 18

  function FormatDigits(digits: string): string {
    if |digits| <= ETHER_DECIMALS then
      var fractional := TrimZerosEnd(Zeros(ETHER_DECIMALS - |digits|) + digits);
      if fractional == "" then "0" else "0." + fractional
    else
      var split := |digits| - ETHER_DECIMALS;
      var fractional := TrimZerosEnd(digits[split..]);
      if fractional == "" then digits[..split] else digits[..split] + "." + fractional
  }

  // ----- Values -----

  lemma ScaledStep(v: nat, n: nat)
    ensures Scaled(v, 0) == v && Scaled(v, n + 1) == 10 * Scaled(v, n)
  {
    assert Power10(n + 1) == 10 * Power10(n);
  }

  lemma {:induction false} ValueOfJoined(a: string, b: string)
    requires AllDigits(a) && AllDigits(b)
    ensures AllDigits(a + b) && Value(a + b) == Scaled(Value(a), |b|) + Value(b)
  {
    hide Scaled;
    ScaledStep(Value(a), if b == "" then 0 else |b| - 1);
    if b == "" {
      assert a + b == a;
    } else {
      var n := |b| - 1;
      ValueOfJoined(a, b[..n]);
      assert (a + b)[..|a + b| - 1] == a + b[..n];
    }
  }

  lemma {:induction false} ValueOfZeros(s: string)
    requires forall i :: 0 <= i < |s| ==> s[i] == '0'
    ensures AllDigits(s) && Value(s) == 0
  {
    if s != "" {
      ValueOfZeros(s[..|s| - 1]);
    }
  }

  lemma ValueWithoutLeadingZeros(s: string)
    requires AllDigits(s)
    ensures AllDigits(TrimZerosStart(s)) && Value(TrimZerosStart(s)) == Value(s)
  {
    hide TrimZerosStart;
    TrimStartForm(s);
    var r := TrimZerosStart(s);
    assert forall i :: 0 <= i < |r| ==> r[i] == s[|s| - |r| + i];
    ValueOfZeros(Zeros(|s| - |r|));
    ValueOfJoined(Zeros(|s| - |r|), r);
  }

  lemma ValueWithoutTrailingZeros(s: string)
    requires AllDigits(s)
    ensures AllDigits(TrimZerosEnd(s))
    ensures Value(s) == Scaled(Value(TrimZerosEnd(s)), |s| - |TrimZerosEnd(s)|)
  {
    hide TrimZerosEnd;
    TrimEndForm(s);
    var r := TrimZerosEnd(s);
    assert forall i :: 0 <= i < |r| ==> r[i] == s[i];
    ValueOfZeros(Zeros(|s| - |r|));
    ValueOfJoined(r, Zeros(|s| - |r|));
  }

  lemma ValuePadded(s: string, length: nat)
    requires AllDigits(s)
    ensures AllDigits(PadStart(s, length)) && Value(PadStart(s, length)) == Value(s)
  {
    if |s| < length {
      ValueOfZeros(Zeros(length - |s|));
      ValueOfJoined(Zeros(length - |s|), s);
    }
  }

  // ----- What is printed -----

  /** The amount whole.frac, counted in units of 10^-decimals. */
  function Units(whole: string, frac: string, decimals: nat): nat
    requires AllDigits(whole) && AllDigits(frac) && |frac| <= decimals
  {
    Scaled(Value(whole), decimals) + Scaled(Value(frac), decimals - |frac|)
  }

  lemma FromWeiParts(wei: string, decimals: nat)
    requires AllDigits(wei)
    ensures AllDigits(WholePart(wei, decimals)) && AllDigits(FracPart(wei, decimals))
    ensures WholePart(wei, decimals) != "" && |FracPart(wei, decimals)| <= decimals
    ensures FromWei(wei, decimals) == Printed(WholePart(wei, decimals), FracPart(wei, decimals))
  {
    hide Value, Scaled, TrimZerosEnd, PadStart;
    ValuePadded(wei, decimals + 1);
    ValueWithoutTrailingZeros(LastDigits(wei, decimals));
    if wei == "" || wei == "0" {
      PaddedZero(wei, decimals);
    }
  }

  lemma PaddedZero(wei: string, decimals: nat)
    requires wei == "" || wei == "0"
    ensures WholePart(wei, decimals) == "0" && FracPart(wei, decimals) == ""
  {
    assert wei == Zeros(|wei|);
    PadZeros(|wei|, decimals);
    assert Zeros(1) == "0";
  }

  /** Nothing but zeros prints a whole part of zeros and no fraction. */
  lemma PadZeros(n: nat, decimals: nat)
    ensures WholePart(Zeros(n), decimals) == Zeros(if n <= decimals + 1 then 1 else n - decimals)
    ensures FracPart(Zeros(n), decimals) == ""
  {
    hide TrimZerosEnd;
    var m := if n < decimals + 1 then decimals + 1 else n;
    ZerosJoin(m - n, n);
    assert PadStart(Zeros(n), decimals + 1) == Zeros(m);
    ZerosJoin(m - decimals, decimals);
    assert Zeros(m)[..m - decimals] == Zeros(m - decimals) && Zeros(m)[m - decimals..] == Zeros(decimals);
    NoFraction(decimals);
  }

  lemma NoFraction(n: nat)
    ensures TrimZerosEnd(Zeros(n)) == ""
  {
    hide TrimZerosEnd;
    TrimEndForm(Zeros(n));
    var r := TrimZerosEnd(Zeros(n));
    assert forall i :: 0 <= i < |r| ==> r[i] == Zeros(n)[i];
  }

  /** The printed text denotes exactly wei / 10^decimals. */
  lemma {:induction false} PrintsItsValue(wei: string, decimals: nat)
    requires AllDigits(wei)
    ensures AllDigits(WholePart(wei, decimals)) && AllDigits(FracPart(wei, decimals))
            && |FracPart(wei, decimals)| <= decimals
    ensures FromWei(wei, decimals) == Printed(WholePart(wei, decimals), FracPart(wei, decimals))
    ensures Units(WholePart(wei, decimals), FracPart(wei, decimals), decimals) == Value(wei)
  {
    hide *;
    FromWeiParts(wei, decimals);
    PartsValue(wei, decimals);
  }

  lemma PartsValue(wei: string, decimals: nat)
    requires AllDigits(wei) && AllDigits(WholePart(wei, decimals)) && AllDigits(FracPart(wei, decimals))
    requires |FracPart(wei, decimals)| <= decimals
    ensures Units(WholePart(wei, decimals), FracPart(wei, decimals), decimals) == Value(wei)
  {
    hide Value, Scaled, AllDigits, TrimZerosEnd, FromWei, WholePart, LastDigits;
    PaddedValue(wei, decimals);
    ValueWithoutTrailingZeros(LastDigits(wei, decimals));
  }

  lemma PaddedValue(wei: string, decimals: nat)
    requires AllDigits(wei)
    ensures AllDigits(WholePart(wei, decimals)) && AllDigits(LastDigits(wei, decimals))
    ensures Value(wei) == Scaled(Value(WholePart(wei, decimals)), decimals) + Value(LastDigits(wei, decimals))
  {
    hide Value, Scaled, PadStart;
    ValuePadded(wei, decimals + 1);
    assert PadStart(wei, decimals + 1) == WholePart(wei, decimals) + LastDigits(wei, decimals);
    ValueOfJoined(WholePart(wei, decimals), LastDigits(wei, decimals));
  }

  /** And has no zero too many: none at the end of the fraction, and for a canonical amount none in front. */
  lemma PrintsNoRedundantZero(wei: string, decimals: nat)
    requires AllDigits(wei)
    ensures var frac := FracPart(wei, decimals); frac == "" || frac[|frac| - 1] != '0'
    ensures Canonical(wei) ==> Canonical(WholePart(wei, decimals))
  {
    hide Value, TrimZerosEnd;
    FromWeiParts(wei, decimals);
    TrimEndForm(LastDigits(wei, decimals));
    if Canonical(wei) && |wei| <= decimals {
      assert WholePart(wei, decimals) == "0";
    }
  }

  // ----- The round trip -----

  lemma SplitPrinted(whole: string, frac: string)
    requires AllDigits(whole) && AllDigits(frac)
    ensures SplitDot(Printed(whole, frac)) == (whole, frac)
  {
    var s := Printed(whole, frac);
    if frac == "" {
      assert forall i :: 0 <= i < |s| ==> s[i] != '.';
    } else {
      assert s[|whole|] == '.';
      assert s[|whole| + 1..] == frac && s[..|whole|] == whole;
      assert forall i :: 0 <= i < |frac| ==> frac[i] != '.';
      assert frac[..|frac|] == frac;
    }
  }

  lemma PadTrimmed(frac: string)
    ensures PadEnd(TrimZerosEnd(frac), |frac|) == frac
  {
    hide TrimZerosEnd;
    TrimEndForm(frac);
    assert TrimZerosEnd(frac) + Zeros(0) == TrimZerosEnd(frac);
  }

  lemma {:induction false} TrimZeros(n: nat, s: string)
    requires s == "" || s[0] != '0'
    ensures TrimZerosStart(Zeros(n) + s) == s
  {
    if n == 0 {
      assert Zeros(0) + s == s;
    } else {
      TrimZeros(n - 1, s);
      assert (Zeros(n) + s)[1..] == Zeros(n - 1) + s;
    }
  }

  lemma TrimPadded(wei: string, length: nat)
    requires Canonical(wei)
    ensures var trimmed := TrimZerosStart(PadStart(wei, length)); (if trimmed == "" then "0" else trimmed) == wei
  {
    hide TrimZerosStart;
    PadForm(wei, length);
    var n := if |wei| < length then length - |wei| else 0;
    if wei == "0" {
      TrimZeros(n + 1, "");
      assert Zeros(n) + wei == Zeros(n + 1) + "";
    } else {
      TrimZeros(n, wei);
    }
  }

  /** Printing a canonical amount and reading it back gives the same text, whatever the decimals. */
  lemma {:induction false} ToWeiOfFromWei(wei: string, decimals: nat)
    requires Canonical(wei)
    ensures ToWei(FromWei(wei, decimals), decimals, true) == wei
  {
    hide Value, TrimZerosStart, TrimZerosEnd, SplitDot, PadStart, PadEnd, FromWei;
    FromWeiParts(wei, decimals);
    SplitPrinted(WholePart(wei, decimals), FracPart(wei, decimals));
    PadTrimmed(LastDigits(wei, decimals));
    assert LastDigits(wei, decimals)[..decimals] == LastDigits(wei, decimals);
    assert PadStart(wei, decimals + 1) == WholePart(wei, decimals) + LastDigits(wei, decimals);
    TrimPadded(wei, decimals + 1);
  }

  /** `units` is the fraction counted in units of 10^-decimals, rounded down. */
  ghost predicate RoundsDown(units: nat, frac: string, decimals: nat)
    requires AllDigits(frac)
  {
    Scaled(units, |frac|) <= Scaled(Value(frac), decimals) < Scaled(units + 1, |frac|)
  }

  /** What `toWei` makes of a decimal text: the amount in units, the digits past the last unit cut off. */
  lemma {:induction false} ToWeiFloors(whole: string, frac: string, decimals: nat)
    requires AllDigits(whole) && AllDigits(frac) && Printed(whole, frac) != ""
    ensures
      var wei := ToWei(Printed(whole, frac), decimals, true);
      && Canonical(wei)
      && Value(wei) >= Scaled(Value(whole), decimals)
      && RoundsDown(Value(wei) - Scaled(Value(whole), decimals), frac, decimals)
  {
    hide Value, AllDigits, TrimZerosStart, SplitDot, Printed, RoundsDown, Scaled, PadEnd, Canonical;
    SplitPrinted(whole, frac);
    KeptDigits(frac, decimals);
    JoinedIsCanonical(whole, PadEnd(frac, decimals)[..decimals]);
  }

  /** A text that is no number, and no text at all, are read as zero. */
  lemma NoNumberIsZero(amount: string, decimals: nat)
    ensures ToWei(amount, decimals, false) == "0" && ToWei("", decimals, true) == "0"
  {
  }

  lemma JoinedIsCanonical(whole: string, kept: string)
    requires AllDigits(whole) && AllDigits(kept)
    ensures
      var raw := TrimZerosStart(whole + kept);
      var wei := if raw == "" then "0" else raw;
      Canonical(wei) && Value(wei) == Scaled(Value(whole), |kept|) + Value(kept)
  {
    hide Value, TrimZerosStart, Scaled;
    ValueOfJoined(whole, kept);
    ValueWithoutLeadingZeros(whole + kept);
    TrimStartForm(whole + kept);
    ValueOfNothing();
  }

  lemma ValueOfNothing()
    ensures Value("") == 0 && AllDigits("0") && Value("0") == 0
  {
    ValueOfZeros("0");
  }

  /** A digit string survives printing and reading exactly when it is canonical. */
  lemma {:induction false} RoundTripIff(wei: string, decimals: nat)
    requires AllDigits(wei)
    ensures ToWei(FromWei(wei, decimals), decimals, true) == wei <==> Canonical(wei)
  {
    hide Canonical, ToWei, FromWei, WholePart, FracPart;
    if Canonical(wei) {
      ToWeiOfFromWei(wei, decimals);
    } else {
      FromWeiParts(wei, decimals);
      FromWeiNotEmpty(wei, decimals);
      ToWeiFloors(WholePart(wei, decimals), FracPart(wei, decimals), decimals);
    }
  }

  lemma KeptDigits(frac: string, decimals: nat)
    requires AllDigits(frac)
    ensures var kept := PadEnd(frac, decimals)[..decimals];
            AllDigits(kept) && |kept| == decimals && RoundsDown(Value(kept), frac, decimals)
  {
    hide Value;
    var kept := PadEnd(frac, decimals)[..decimals];
    if |frac| < decimals {
      var zeros := Zeros(decimals - |frac|);
      assert kept == frac + zeros;
      ValueOfZeros(zeros);
      ValueOfJoined(frac, zeros);
      PowerSplits(|frac|, decimals - |frac|);
      ScaledUp(Value(frac), Power10(|frac|), Power10(decimals - |frac|));
    } else {
      var cut := frac[decimals..];
      assert kept == frac[..decimals] && frac == kept + cut;
      ValueOfJoined(kept, cut);
      ValueBelow(cut);
      PowerSplits(decimals, |cut|);
      CutOff(Value(kept), Value(cut), Power10(decimals), Power10(|cut|));
    }
  }

  lemma {:induction false} PowerSplits(a: nat, b: nat)
    ensures Power10(a + b) == Power10(a) * Power10(b)
  {
    if a > 0 {
      PowerSplits(a - 1, b);
      Tenfold(Power10(a - 1), Power10(b));
    }
  }

  lemma Tenfold(a: nat, b: nat)
    ensures 10 * (a * b) == 10 * a * b
  {
  }

  lemma {:induction false} ValueBelow(s: string)
    requires AllDigits(s)
    ensures Value(s) < Power10(|s|)
  {
    if s != "" {
      ValueBelow(s[..|s| - 1]);
    }
  }

  lemma ScaledUp(v: nat, p: nat, q: nat)
    requires p > 0
    ensures v * q * p == v * (p * q) < (v * q + 1) * p
  {
    assert (v * q + 1) * p == v * q * p + p;
  }

  lemma CutOff(kept: nat, cut: nat, p: nat, q: nat)
    requires p > 0 && cut < q
    ensures kept * (p * q) <= (kept * q + cut) * p < (kept + 1) * (p * q)
  {
    assert (kept * q + cut) * p == kept * (p * q) + cut * p;
    assert (kept + 1) * (p * q) == kept * (p * q) + q * p;
    TimesLess(cut, q, p);
  }

  lemma TimesLess(a: nat, b: nat, d: nat)
    requires a < b && d > 0
    ensures a * d < b * d
  {
  }

  // ----- Two printers -----

  lemma TrimDigits(wei: string)
    requires AllDigits(wei)
    ensures Trim(wei) == wei
  {
    NothingToTrim(wei);
  }

  lemma FormatShort(digits: string)
    requires digits != "" && digits != "0" && |digits| <= ETHER_DECIMALS
    ensures FormatDigits(digits) == FromWei(digits, ETHER_DECIMALS)
  {
    hide TrimZerosEnd, PadStart;
    var short := ETHER_DECIMALS - |digits|;
    PadForm(digits, ETHER_DECIMALS + 1);
    ZerosJoin(1, short);
    assert Zeros(1) == "0";
    Regroup("0", Zeros(short), digits);
  }

  lemma FormatLong(digits: string)
    requires |digits| > ETHER_DECIMALS
    ensures FormatDigits(digits) == FromWei(digits, ETHER_DECIMALS)
  {
    hide TrimZerosEnd;
  }

  lemma FormatParts(digits: string)
    requires digits != "" && digits != "0"
    ensures FormatDigits(digits) == FromWei(digits, ETHER_DECIMALS)
  {
    hide FormatDigits, FromWei;
    if |digits| <= ETHER_DECIMALS {
      FormatShort(digits);
    } else {
      FormatLong(digits);
    }
  }

  /** The frontend prints a digit string as the mailer does exactly when no zero is left before its whole part. */
  lemma {:induction false} FromWeiIsFormatIff(wei: string)
    requires AllDigits(wei)
    ensures FromWei(wei, ETHER_DECIMALS) == FormatWeiAsEther(wei) <==> |wei| <= ETHER_DECIMALS + 1 || wei[0] != '0'
  {
    hide Trim, TrimZerosStart, FormatDigits, FromWei;
    TrimDigits(wei);
    TrimStartForm(wei);
    var digits := TrimZerosStart(wei);
    if wei != "" {
      if digits == "" {
        AllZeros(wei);
        AllZerosFirst(wei);
      } else {
        FormatParts(digits);
        LeadingZeros(wei);
      }
    } else {
      NothingIsZero();
    }
  }

  lemma NothingIsZero()
    ensures FromWei("", ETHER_DECIMALS) == "0" == FormatWeiAsEther("")
  {
  }

  lemma AllZerosFirst(wei: string)
    requires wei != "" && TrimZerosStart(wei) == ""
    ensures wei[0] == '0'
  {
  }

  lemma AllZeros(wei: string)
    requires wei != "" && TrimZerosStart(wei) == ""
    ensures FromWei(wei, ETHER_DECIMALS) == "0" <==> |wei| <= ETHER_DECIMALS + 1
  {
    hide TrimZerosStart, WholePart, FracPart;
    TrimStartForm(wei);
    assert wei == Zeros(|wei|);
    PadZeros(|wei|, ETHER_DECIMALS);
    assert Zeros(1) == "0";
  }

  lemma Absorb(a: nat, z: nat, c: nat, digits: string)
    requires c <= a + z
    ensures Zeros(a) + (Zeros(z) + digits) == Zeros(a + z - c) + (Zeros(c) + digits)
  {
  }

  /** The zeros in front that padding would not have added. */
  lemma SurplusZeros(wei: string)
    ensures
      var (p, q) := (PadStart(wei, ETHER_DECIMALS + 1), PadStart(TrimZerosStart(wei), ETHER_DECIMALS + 1));
      |p| >= |q| && p == Zeros(|p| - |q|) + q
  {
    hide TrimZerosStart, PadStart, Zeros;
    var digits := TrimZerosStart(wei);
    var (p, q) := (PadStart(wei, ETHER_DECIMALS + 1), PadStart(digits, ETHER_DECIMALS + 1));
    TrimStartForm(wei);
    PadForm(wei, ETHER_DECIMALS + 1);
    PadForm(digits, ETHER_DECIMALS + 1);
    Absorb(|p| - |wei|, |wei| - |digits|, |q| - |digits|, digits);
  }

  /** They all show up in the whole part. */
  lemma SurplusParts(wei: string)
    ensures
      var digits := TrimZerosStart(wei);
      var surplus := |PadStart(wei, ETHER_DECIMALS + 1)| - |PadStart(digits, ETHER_DECIMALS + 1)|;
      && LastDigits(wei, ETHER_DECIMALS) == LastDigits(digits, ETHER_DECIMALS)
      && |WholePart(wei, ETHER_DECIMALS)| == |WholePart(digits, ETHER_DECIMALS)| + surplus
      && (surplus == 0 ==> WholePart(wei, ETHER_DECIMALS) == WholePart(digits, ETHER_DECIMALS))
  {
    hide TrimZerosStart, PadStart, Zeros;
    var (p, q) := (PadStart(wei, ETHER_DECIMALS + 1), PadStart(TrimZerosStart(wei), ETHER_DECIMALS + 1));
    SurplusZeros(wei);
    LastOf(Zeros(|p| - |q|), q, ETHER_DECIMALS);
    if |p| == |q| {
      assert Zeros(0) + q == q;
    }
  }

  lemma LastOf(x: string, y: string, n: nat)
    requires n <= |y|
    ensures (x + y)[|x + y| - n..] == y[|y| - n..]
  {
  }

  /** Leading zeros show only when they are more than the padding would add. */
  lemma LeadingZeros(wei: string)
    requires TrimZerosStart(wei) != ""
    ensures FromWei(wei, ETHER_DECIMALS) == FromWei(TrimZerosStart(wei), ETHER_DECIMALS)
       <==> |wei| <= ETHER_DECIMALS + 1 || wei[0] != '0'
  {
    hide TrimZerosStart, TrimZerosEnd, PadStart, WholePart, LastDigits;
    FirstIsZero(wei);
    SurplusParts(wei);
    ZeroIsNotLeft(wei);
  }

  lemma ZeroIsNotLeft(wei: string)
    requires TrimZerosStart(wei) != ""
    ensures wei != "0" && TrimZerosStart(wei) != "0"
  {
    TrimStartForm(wei);
  }

  lemma FirstIsZero(wei: string)
    requires wei != ""
    ensures |TrimZerosStart(wei)| == |wei| <==> wei[0] != '0'
  {
  }

  /** The mailer drops zeros in front, and prints a negative amount as the positive one with its sign. */
  lemma {:induction false} FormatIgnoresZerosAndKeepsSign(wei: string)
    requires AllDigits(wei) && TrimZerosStart(wei) != ""
    ensures FormatWeiAsEther(wei) == FromWei(TrimZerosStart(wei), ETHER_DECIMALS)
    ensures FormatWeiAsEther("-" + wei) == "-" + FromWei(TrimZerosStart(wei), ETHER_DECIMALS)
  {
    hide Trim, TrimZerosStart, FormatDigits, FromWei;
    TrimDigits(wei);
    TrimStartForm(wei);
    SignedIsTrimmed(wei);
    assert ("-" + wei)[1..] == wei;
    FormatParts(TrimZerosStart(wei));
  }

  lemma SignedIsTrimmed(wei: string)
    requires AllDigits(wei) && wei != ""
    ensures Trim("-" + wei) == "-" + wei
  {
    hide Trim;
    assert ("-" + wei)[|wei|] == wei[|wei| - 1];
    NothingToTrim("-" + wei);
  }

  /** Blanks around a number are dropped; zeros of either sign and blank texts print zero; any other text stays. */
  lemma {:induction false} FormatOtherTexts(wei: string)
    ensures Trim(wei) == "" ==> FormatWeiAsEther(wei) == "0"
    ensures AllDigits(Trim(wei)) ==> FormatWeiAsEther(wei) == FormatWeiAsEther(Trim(wei))
    ensures AllDigits(wei) && TrimZerosStart(wei) == "" ==>
              FormatWeiAsEther(wei) == "0" && FormatWeiAsEther("-" + wei) == "0"
    ensures Trim(wei) != "" && !AllDigits(Trim(wei)) && !(Trim(wei)[0] == '-' && AllDigits(Trim(wei)[1..])) ==>
              FormatWeiAsEther(wei) == wei
  {
    hide Trim, TrimZerosStart, FormatDigits;
    TrimTwice(wei);
    if AllDigits(wei) {
      TrimDigits(wei);
      if wei != "" {
        SignedIsTrimmed(wei);
      } else {
        assert "-" + wei == "-";
        NothingToTrim("-");
      }
      assert ("-" + wei)[1..] == wei;
    }
    if Trim(wei) != "" && AllDigits(Trim(wei)) {
      assert Trim(wei)[0] != '-';
    }
  }

  // ----- A percentage of the balance -----

  /** The amount text `setAmountPercent` fills in. */
  function PercentText(balance: string, percent: nat, decimals: nat): string
    requires AllDigits(balance)
  {
    FromWei(Text(Value(balance) * percent / 100), decimals)
  }

  /** `amountExceedsBalance`, on a balance that is there and an amount text of digits. */
  predicate Exceeds(amount: string, balance: string, decimals: nat)
    requires AllDigits(balance) && AllDigits(ToWei(amount, decimals, true))
  {
    balance != "" && amount != "" && Value(ToWei(amount, decimals, true)) > Value(balance)
  }

  /** The filled-in amount is read back exactly, so it exceeds the balance only if the percentage itself does. */
  lemma {:induction false} PercentExceedsIff(balance: string, percent: nat, decimals: nat)
    requires AllDigits(balance) && balance != ""
    ensures AllDigits(ToWei(PercentText(balance, percent, decimals), decimals, true))
    ensures Exceeds(PercentText(balance, percent, decimals), balance, decimals) <==>
            Value(balance) * percent / 100 > Value(balance)
    ensures percent <= 100 ==> !Exceeds(PercentText(balance, percent, decimals), balance, decimals)
  {
    hide Value, FromWei, ToWei;
    var amount := Value(balance) * percent / 100;
    ToWeiOfFromWei(Text(amount), decimals);
    FromWeiNotEmpty(Text(amount), decimals);
    if percent <= 100 {
      PartOfWhole(Value(balance), percent);
    }
  }

  lemma FromWeiNotEmpty(wei: string, decimals: nat)
    requires AllDigits(wei)
    ensures FromWei(wei, decimals) != ""
  {
    hide Value;
    FromWeiParts(wei, decimals);
  }

  lemma PartOfWhole(v: nat, percent: nat)
    requires percent <= 100
    ensures v * percent / 100 <= v
  {
    assert v * percent <= v * 100;
  }
}
