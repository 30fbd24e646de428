/** Native coins, their wrapped tokens, and routes shown to users with the one and executed with the other. */
module NativeTokens {
  import opened Wrappers
  import opened Ascii
  import opened Bytes

  function Placeholder(): (r: string)
    ensures |r| == 42 && r[0] == '0' && r[1] == 'x' && forall i :: 2 <= i < 42 ==> r[i] == 'e'
  {
    "0x" + seq(40, _ => 'e')
  }

  const WRAPPED_SYMBOLS: seq<string> :=
    ["WETH", "WBNB", "WMATIC", "WAVAX", "WFTM", "WONE", "WCELO", "WGLMR", "WKLAY", "WOKT", "WSEI"]

  datatype BaseToken = BaseToken(symbol: string, address: string)

  /** The base tokens configured for each chain. */
  type Settings = map<string, seq<BaseToken>>

  function UpperChar(c: char): char {
    if 'a' <= c <= 'z' then (c as int - 32) as char else c
  }

  function Upper(s: string): string {
    seq(|s|, i requires 0 <= i < |s| => UpperChar(s[i]))
  }

  function FindWrapped(tokens: seq<BaseToken>): Option<string> {
    if tokens == [] then None
    else if Upper(Trim(tokens[0].symbol)) in WRAPPED_SYMBOLS then Some(tokens[0].address)
    else FindWrapped(tokens[1..])
  }

  predicate AllCapitals(s: string) {
    forall i :: 0 <= i < |s| ==> 'A' <= s[i] <= 'Z'
  }

  /** A text in capitals is another's upper case exactly when they differ in nothing but case. */
  lemma UpperIsIff(s: string, capitals: string)
    requires AllCapitals(capitals)
    ensures Upper(s) == capitals <==> SameText(s, capitals)
  {
    hide Lower;
    if Upper(s) == capitals {
      assert |s| == |Upper(s)|;
      forall i | 0 <= i < |s| ensures LowerChar(s[i]) == LowerChar(capitals[i]) {
        assert Upper(s)[i] == UpperChar(s[i]);
      }
      assert Lower(s) == Lower(capitals);
    }
    if SameText(s, capitals) {
      SameTextLength(s, capitals);
      assert forall i :: 0 <= i < |s| ==> UpperChar(s[i]) == capitals[i];
    }
  }

  lemma SymbolsAreCapitals()
    ensures forall k :: 0 <= k < |WRAPPED_SYMBOLS| ==> AllCapitals(WRAPPED_SYMBOLS[k])
  {
  }

  /** The token's symbol is that of a wrapped native coin, in any case and with blanks around it. */
  predicate WrapsNative(token: BaseToken) {
    exists k :: 0 <= k < |WRAPPED_SYMBOLS| && SameText(Trim(token.symbol), WRAPPED_SYMBOLS[k])
  }

  lemma WrapsNativeIff(token: BaseToken)
    ensures WrapsNative(token) <==> Upper(Trim(token.symbol)) in WRAPPED_SYMBOLS
  {
    hide Trim, Upper, Lower, AllCapitals;
    SymbolsAreCapitals();
    var symbol := Trim(token.symbol);
    forall k | 0 <= k < |WRAPPED_SYMBOLS|
      ensures Upper(symbol) == WRAPPED_SYMBOLS[k] <==> SameText(symbol, WRAPPED_SYMBOLS[k])
    {
      UpperIsIff(symbol, WRAPPED_SYMBOLS[k]);
    }
  }

  /** The first of a chain's base tokens that wraps its native coin. */
  ghost predicate FirstWrapped(tokens: seq<BaseToken>, i: nat) {
    i < |tokens| && WrapsNative(tokens[i]) && forall j :: 0 <= j < i ==> !WrapsNative(tokens[j])
  }

  lemma {:induction false} FindsFirstWrapped(tokens: seq<BaseToken>)
    ensures FindWrapped(tokens) == None <==> forall i :: 0 <= i < |tokens| ==> !WrapsNative(tokens[i])
    ensures FindWrapped(tokens).Some? ==>
              exists i: nat :: FirstWrapped(tokens, i) && tokens[i].address == FindWrapped(tokens).value
  {
    hide WrapsNative, Upper, Trim;
    if tokens != [] {
      WrapsNativeIff(tokens[0]);
      FindsFirstWrapped(tokens[1..]);
      if WrapsNative(tokens[0]) {
        assert FirstWrapped(tokens, 0);
      } else {
        assert forall i :: 1 <= i < |tokens| ==> tokens[i] == tokens[1..][i - 1];
        if FindWrapped(tokens).Some? {
          var i: nat :| FirstWrapped(tokens[1..], i) && tokens[1..][i].address == FindWrapped(tokens).value;
          assert FirstWrapped(tokens, i + 1);
        }
      }
    }
  }

  /** `wrapped_native_token_for_chain`. */
  function WrappedNative(settings: Settings, chain: string): Option<string> {
    if chain in settings then FindWrapped(settings[chain]) else None
  }

  /** The wrapped token of a chain is the first of its configured base tokens that wraps the native coin. */
  lemma {:induction false} WrappedNativeIff(settings: Settings, chain: string, address: string)
    ensures WrappedNative(settings, chain) == Some(address) <==>
            chain in settings &&
            exists i: nat :: FirstWrapped(settings[chain], i) && settings[chain][i].address == address
  {
    hide WrapsNative, FindWrapped;
    if chain in settings {
      FindsFirstWrapped(settings[chain]);
    }
  }

  predicate IsNative(token: string) {
    SameText(Trim(token), Placeholder())
  }

  function Normalize(settings: Settings, chain: string, token: string): string {
    var wrapped := WrappedNative(settings, chain);
    if IsNative(Trim(token)) && wrapped.Some? then wrapped.value else Trim(token)
  }

  function Display(settings: Settings, chain: string, token: string): string {
    var wrapped := WrappedNative(settings, chain);
    if wrapped.Some? && SameText(Trim(token), wrapped.value) then Placeholder() else Trim(token)
  }

  lemma PlaceholderIsNative()
    ensures Trim(Placeholder()) == Placeholder() && IsNative(Placeholder())
  {
  }

  /** Blanks around a text are not a matter of case. */
  lemma TrimIsNotCase(s: string)
    ensures SameText(Trim(s), s) <==> Trim(s) == s
  {
    hide Trim, LowerChar;
    TrimOrShorter(s);
    if SameText(Trim(s), s) {
      SameTextLength(Trim(s), s);
    }
  }

  /**
    Normalizing what is displayed for a normalized token gives that token again, but for case,
    exactly when the token is not native, or the configured wrapped address has no blanks around it
    (or is the placeholder itself).
   */
  lemma {:induction false} RoundTripIff(settings: Settings, chain: string, token: string)
    ensures
      var normal := Normalize(settings, chain, token);
      var again := Normalize(settings, chain, Display(settings, chain, normal));
      SameText(again, normal) <==>
        match WrappedNative(settings, chain)
        case None => true
        case Some(wrapped) => !IsNative(token) || Trim(wrapped) == wrapped || IsNative(wrapped)
  {
    hide Trim, Lower, Placeholder, WrappedNative;
    PlaceholderIsNative();
    TrimTwice(token);
    if WrappedNative(settings, chain).Some? {
      TrimTwice(WrappedNative(settings, chain).value);
      TrimIsNotCase(WrappedNative(settings, chain).value);
    }
  }

  // ----- Addresses as text -----

  function HexValue(c: char): Option<nat> {
    if '0' <= c <= '9' then Some(c as int - '0' as int)
    else if 'a' <= c <= 'f' then Some(c as int - 'a' as int + 10)
    else if 'A' <= c <= 'F' then Some(c as int - 'A' as int + 10)
    else None
  }

  function HexDigits(text: string): string {
    if |text| >= 2 && text[..2] == "0x" then text[2..] else text
  }

  predicate IsAddress(text: string) {
    |HexDigits(text)| == 40 && forall i :: 0 <= i < 40 ==> HexValue(HexDigits(text)[i]).Some?
  }

  function ByteOf(high: char, low: char): Byte
    requires HexValue(high).Some? && HexValue(low).Some?
  {
    16 * HexValue(high).value + HexValue(low).value
  }

  /** `parse::<Address>`: forty hexadecimal digits of either case, after an optional 0x, and nothing around them. */
  function ParseAddress(text: string): (r: Option<Address>)
    ensures r.Some? <==> IsAddress(text)
  {
    if IsAddress(text) then
      var digits := HexDigits(text);
      Some(seq(20, i requires 0 <= i < 20 => ByteOf(digits[2 * i], digits[2 * i + 1])))
    else None
  }

  lemma AddressIsTrimmed(text: string)
    requires IsAddress(text)
    ensures Trim(text) == text
  {
    assert HexDigits(text)[39] == text[|text| - 1];
    assert HexDigits(text)[0] == text[|text| - 40];
    assert !IsSpace(text[0]);
  }

  lemma SameDigitsSameAddress(a: string, b: string)
    requires IsAddress(a) && IsAddress(b)
    requires forall i :: 0 <= i < 40 ==> HexValue(HexDigits(a)[i]) == HexValue(HexDigits(b)[i])
    ensures ParseAddress(a) == ParseAddress(b)
  {
    hide HexValue, HexDigits;
    assert forall i :: 0 <= i < 20 ==> ParseAddress(a).value[i] == ParseAddress(b).value[i];
    assert ParseAddress(a).value == ParseAddress(b).value;
  }

  lemma SameTextSameAddress(a: string, b: string)
    requires SameText(a, b) && IsAddress(a) && IsAddress(b)
    ensures ParseAddress(a) == ParseAddress(b)
  {
    hide Lower;
    SameTextLength(a, b);
    var skip := |a| - 40;
    assert HexDigits(a) == a[skip..] && HexDigits(b) == b[skip..];
    forall i | 0 <= i < 40 ensures HexValue(HexDigits(a)[i]) == HexValue(HexDigits(b)[i]) {
      assert LowerChar(a[skip + i]) == LowerChar(b[skip + i]);
    }
    SameDigitsSameAddress(a, b);
  }

  const HEX: string := "0123456789abcdef"

  /** One half of a byte of the address, the higher half first. */
  function Nibble(address: Address, i: nat): (r: nat)
    requires i < 40
    ensures r < 16
  {
    if i % 2 == 0 then address[i / 2] / 16 else address[i / 2] % 16
  }

  /** An address in forty small hexadecimal digits. */
  function HexText(address: Address): (r: string)
    ensures |r| == 40 && forall i :: 0 <= i < 40 ==> r[i] == HEX[Nibble(address, i)]
  {
    seq(40, i requires 0 <= i < 40 => HEX[Nibble(address, i)])
  }

  lemma HexDigitIff(c: char, n: nat)
    requires n < 16
    ensures HexValue(c) == Some(n) <==> LowerChar(c) == HEX[n]
    ensures LowerChar(HEX[n]) == HEX[n]
  {
  }

  /** The digits spell the address, half a byte each. */
  ghost predicate Spells(digits: string, address: Address) {
    |digits| == 40 && forall i :: 0 <= i < 40 ==> HexValue(digits[i]) == Some(Nibble(address, i))
  }

  lemma SpellsIffSameText(digits: string, address: Address)
    ensures Spells(digits, address) <==> SameText(digits, HexText(address))
  {
    hide HexValue, Nibble, Lower, LowerChar;
    var text := HexText(address);
    forall i | 0 <= i < 40
      ensures LowerChar(text[i]) == text[i]
      ensures |digits| == 40 ==> (HexValue(digits[i]) == Some(Nibble(address, i)) <==> LowerChar(digits[i]) == text[i])
    {
      HexDigitIff(text[i], Nibble(address, i));
      if |digits| == 40 {
        HexDigitIff(digits[i], Nibble(address, i));
      }
    }
    if SameText(digits, text) {
      SameTextLength(digits, text);
    }
    if Spells(digits, address) {
      assert Lower(digits) == Lower(text);
    }
  }

  lemma HexValueSmall(c: char)
    ensures HexValue(c).Some? ==> HexValue(c).value < 16
  {
  }

  lemma ByteHalves(text: string, address: Address, i: nat)
    requires IsAddress(text) && i < 20
    ensures ParseAddress(text).value[i] == address[i] <==>
            HexValue(HexDigits(text)[2 * i]) == Some(Nibble(address, 2 * i))
            && HexValue(HexDigits(text)[2 * i + 1]) == Some(Nibble(address, 2 * i + 1))
  {
    hide HexDigits, HexValue;
    var digits := HexDigits(text);
    HexValueSmall(digits[2 * i]);
    HexValueSmall(digits[2 * i + 1]);
    assert ParseAddress(text).value[i] == ByteOf(digits[2 * i], digits[2 * i + 1]);
  }

  lemma ParsedIsSpelled(text: string, address: Address)
    requires ParseAddress(text) == Some(address)
    ensures Spells(HexDigits(text), address)
  {
    hide HexDigits, HexValue, Nibble, ParseAddress;
    var digits := HexDigits(text);
    forall i | 0 <= i < 40 ensures HexValue(digits[i]) == Some(Nibble(address, i)) {
      ByteHalves(text, address, i / 2);
      assert i == 2 * (i / 2) || i == 2 * (i / 2) + 1;
    }
  }

  lemma SpelledIsParsed(text: string, address: Address)
    requires Spells(HexDigits(text), address)
    ensures ParseAddress(text) == Some(address)
  {
    hide HexDigits, HexValue, Nibble;
    assert IsAddress(text);
    forall i | 0 <= i < 20 ensures ParseAddress(text).value[i] == address[i] {
      ByteHalves(text, address, i);
    }
    assert ParseAddress(text).value == address;
  }

  /** A text is parsed to an address exactly when its digits, in either case, are that address. */
  lemma {:induction false} ParseAddressIff(text: string, address: Address)
    ensures ParseAddress(text) == Some(address) <==> SameText(HexDigits(text), HexText(address))
  {
    hide *;
    SpellsIffSameText(HexDigits(text), address);
    if ParseAddress(text) == Some(address) {
      ParsedIsSpelled(text, address);
    } else if Spells(HexDigits(text), address) {
      SpelledIsParsed(text, address);
    }
  }

  lemma PlaceholderIsAddress()
    ensures IsAddress(Placeholder())
  {
    assert HexDigits(Placeholder()) == seq(40, _ => 'e');
  }

  // ----- Routes -----

  datatype RouteError = InvalidToken(token: string) | NoWrappedNative | InvalidWrappedNative

  datatype ResolvedRoute = ResolvedRoute(path: seq<Address>, nativeInput: bool, nativeOutput: bool)

  function ParseAll(tokens: seq<string>): (r: Result<seq<Address>, RouteError>)
    ensures r.Success? <==> forall i :: 0 <= i < |tokens| ==> IsAddress(tokens[i])
    ensures r.Success? ==> |r.value| == |tokens|
    ensures r.Success? ==> forall i :: 0 <= i < |tokens| ==> ParseAddress(tokens[i]) == Some(r.value[i])
  {
    if tokens == [] then Success([])
    else
      match ParseAll(tokens[..|tokens| - 1])
      case Failure(error) => Failure(error)
      case Success(path) =>
        match ParseAddress(tokens[|tokens| - 1])
        case None => Failure(InvalidToken(tokens[|tokens| - 1]))
        case Some(address) => Success(path + [address])
  }

  function WrappedAddress(settings: Settings, chain: string): Result<Address, RouteError> {
    match WrappedNative(settings, chain)
    case None => Failure(NoWrappedNative)
    case Some(text) =>
      match ParseAddress(text)
      case None => Failure(InvalidWrappedNative)
      case Some(address) => Success(address)
  }

  lemma WrappedIsAddress(settings: Settings, chain: string)
    requires WrappedAddress(settings, chain).Success?
    ensures WrappedNative(settings, chain).Some? && IsAddress(WrappedNative(settings, chain).value)
    ensures Trim(WrappedNative(settings, chain).value) == WrappedNative(settings, chain).value
  {
    AddressIsTrimmed(WrappedNative(settings, chain).value);
  }

  predicate AnyNative(tokens: seq<string>) {
    exists i :: 0 <= i < |tokens| && IsNative(tokens[i])
  }

  function Substituted(tokens: seq<string>, path: seq<Address>, wrapped: Address): (r: seq<Address>)
    requires |tokens| == |path|
  {
    seq(|path|, i requires 0 <= i < |path| => if IsNative(tokens[i]) then wrapped else path[i])
  }

  function Resolved(settings: Settings, chain: string, tokens: seq<string>): Result<ResolvedRoute, RouteError> {
    match ParseAll(tokens)
    case Failure(error) => Failure(error)
    case Success(path) =>
      var nativeInput := tokens != [] && IsNative(tokens[0]);
      var nativeOutput := tokens != [] && IsNative(tokens[|tokens| - 1]);
      if !AnyNative(tokens) then Success(ResolvedRoute(path, nativeInput, nativeOutput))
      else match WrappedAddress(settings, chain)
        case Failure(error) => Failure(error)
        case Success(wrapped) => Success(ResolvedRoute(Substituted(tokens, path, wrapped), nativeInput, nativeOutput))
  }

  /** The token is no address, and all before it are. */
  ghost predicate FirstInvalid(tokens: seq<string>, i: nat) {
    i < |tokens| && !IsAddress(tokens[i]) && forall j :: 0 <= j < i ==> IsAddress(tokens[j])
  }

  lemma {:induction false} ParseAllFailsFirst(tokens: seq<string>)
    ensures ParseAll(tokens).Failure? ==>
              exists i: nat :: FirstInvalid(tokens, i) && ParseAll(tokens).error == InvalidToken(tokens[i])
  {
    hide IsAddress, ParseAddress;
    if tokens != [] && ParseAll(tokens).Failure? {
      var n := |tokens| - 1;
      if ParseAll(tokens[..n]).Failure? {
        ParseAllFailsFirst(tokens[..n]);
        var i: nat :| FirstInvalid(tokens[..n], i) && ParseAll(tokens[..n]).error == InvalidToken(tokens[..n][i]);
        assert FirstInvalid(tokens, i);
      } else {
        assert forall j :: 0 <= j < n ==> tokens[..n][j] == tokens[j];
        assert FirstInvalid(tokens, n);
      }
    }
  }

  /** Why a route is not resolved: its first bad token, or a native coin nobody configured, or not properly. */
  lemma {:induction false} RefusalTells(settings: Settings, chain: string, tokens: seq<string>)
    ensures
      var valid := forall i :: 0 <= i < |tokens| ==> IsAddress(tokens[i]);
      match Resolved(settings, chain, tokens)
      case Success(_) => valid && (AnyNative(tokens) ==> WrappedAddress(settings, chain).Success?)
      case Failure(InvalidToken(token)) => exists i: nat :: FirstInvalid(tokens, i) && tokens[i] == token
      case Failure(NoWrappedNative) => valid && AnyNative(tokens) && WrappedNative(settings, chain) == None
      case Failure(InvalidWrappedNative) =>
        valid && AnyNative(tokens) && WrappedNative(settings, chain).Some?
        && !IsAddress(WrappedNative(settings, chain).value)
  {
    hide IsAddress, ParseAddress, AnyNative, WrappedNative, Substituted, ParseAll, IsNative;
    ParseAllFailsFirst(tokens);
  }

  /** `resolve_route_tokens_for_native`: parse every token, then overwrite the native ones. */
  method ResolveRoute(settings: Settings, chain: string, tokens: seq<string>)
    returns (r: Result<ResolvedRoute, RouteError>)
    ensures r == Resolved(settings, chain, tokens)
  {
    hide IsNative, IsAddress, AnyNative, ParseAll, ParseAddress, WrappedAddress, WrappedNative;
    var parsed := ParseAll(tokens);
    if parsed.Failure? {
      return Failure(parsed.error);
    }
    var path := parsed.value;
    var nativeInput := tokens != [] && IsNative(tokens[0]);
    var nativeOutput := tokens != [] && IsNative(tokens[|tokens| - 1]);
    if AnyNative(tokens) {
      var wrapped := WrappedAddress(settings, chain);
      if wrapped.Failure? {
        return Failure(wrapped.error);
      }
      for i := 0 to |tokens|
        invariant |path| == |tokens|
        invariant forall j :: 0 <= j < i ==> path[j] == if IsNative(tokens[j]) then wrapped.value else parsed.value[j]
        invariant forall j :: i <= j < |tokens| ==> path[j] == parsed.value[j]
      {
        if IsNative(tokens[i]) {
          path := path[i := wrapped.value];
        }
      }
      assert path == Substituted(tokens, parsed.value, wrapped.value);
    }
    r := Success(ResolvedRoute(path, nativeInput, nativeOutput));
  }

  // ----- Displayed routes -----

  function NormalizedRoute(settings: Settings, chain: string, tokens: seq<string>): (r: seq<string>)
    ensures |r| == |tokens| && forall i :: 0 <= i < |r| ==> r[i] == Normalize(settings, chain, tokens[i])
  {
    seq(|tokens|, i requires 0 <= i < |tokens| => Normalize(settings, chain, tokens[i]))
  }

  function DisplayedRoute(settings: Settings, chain: string, tokens: seq<string>): (r: seq<string>)
    ensures |r| == |tokens| && forall i :: 0 <= i < |r| ==> r[i] == Display(settings, chain, tokens[i])
  {
    seq(|tokens|, i requires 0 <= i < |tokens| => Display(settings, chain, tokens[i]))
  }

  /** The address the engine trades for one token of a route. */
  ghost function Traded(token: string, wrapped: Address): (r: Option<Address>)
    ensures r.Some? <==> IsAddress(token)
  {
    if !IsAddress(token) then None else if IsNative(token) then Some(wrapped) else ParseAddress(token)
  }

  lemma ResolvedTokenwise(settings: Settings, chain: string, tokens: seq<string>)
    requires WrappedAddress(settings, chain).Success?
    ensures
      var (r, wrapped) := (Resolved(settings, chain, tokens), WrappedAddress(settings, chain).value);
      && (r.Success? <==> forall i :: 0 <= i < |tokens| ==> Traded(tokens[i], wrapped).Some?)
      && (r.Success? ==>
            && |r.value.path| == |tokens|
            && forall i :: 0 <= i < |tokens| ==> Some(r.value.path[i]) == Traded(tokens[i], wrapped))
  {
    hide IsAddress, IsNative, ParseAddress, ParseAll, WrappedAddress;
    var wrapped := WrappedAddress(settings, chain).value;
    assert forall i :: 0 <= i < |tokens| ==> (Traded(tokens[i], wrapped).Some? <==> IsAddress(tokens[i]));
  }

  lemma DisplayTradesTheSame(settings: Settings, chain: string, token: string)
    requires WrappedAddress(settings, chain).Success?
    ensures
      var wrapped := WrappedAddress(settings, chain).value;
      var shown := Display(settings, chain, token);
      && (IsAddress(token) ==> Traded(shown, wrapped) == Traded(token, wrapped))
      && (Traded(shown, wrapped).Some? <==>
          IsAddress(Trim(token)) || SameText(Trim(token), WrappedNative(settings, chain).value))
  {
    hide Trim, Lower, Placeholder, IsAddress, ParseAddress, WrappedNative;
    PlaceholderIsNative();
    PlaceholderIsAddress();
    var text := WrappedNative(settings, chain).value;
    TrimTwice(token);
    if IsAddress(token) {
      AddressIsTrimmed(token);
      if SameText(token, text) {
        SameTextSameAddress(token, text);
      }
    }
  }

  /**
    The route shown to the user trades over the same addresses as the route it was made from,
    whatever its length; and it resolves exactly when every token is an address or the wrapped one in another case.
   */
  lemma {:induction false} DisplayedRouteTradesTheSame(settings: Settings, chain: string, tokens: seq<string>)
    requires WrappedAddress(settings, chain).Success?
    ensures
      var route := NormalizedRoute(settings, chain, tokens);
      var plain := Resolved(settings, chain, route);
      var shown := Resolved(settings, chain, DisplayedRoute(settings, chain, route));
      && (plain.Success? ==> shown.Success? && shown.value.path == plain.value.path)
      && (shown.Success? <==> forall i :: 0 <= i < |route| ==>
            IsAddress(route[i]) || SameText(route[i], WrappedNative(settings, chain).value))
  {
    hide Trim, Lower, IsAddress, IsNative, Traded, Resolved, WrappedNative, WrappedAddress;
    var route := NormalizedRoute(settings, chain, tokens);
    var shown := DisplayedRoute(settings, chain, route);
    var wrapped := WrappedAddress(settings, chain).value;
    WrappedIsAddress(settings, chain);
    forall i | 0 <= i < |route|
      ensures IsAddress(route[i]) ==> Traded(shown[i], wrapped) == Traded(route[i], wrapped)
      ensures Traded(shown[i], wrapped).Some? <==>
              IsAddress(route[i]) || SameText(route[i], WrappedNative(settings, chain).value)
    {
      TrimTwice(tokens[i]);
      assert Trim(route[i]) == route[i];
      DisplayTradesTheSame(settings, chain, route[i]);
    }
    ResolvedTokenwise(settings, chain, route);
    ResolvedTokenwise(settings, chain, shown);
    var (r, s) := (Resolved(settings, chain, route), Resolved(settings, chain, shown));
    if r.Success? {
      assert forall i :: 0 <= i < |route| ==> IsAddress(route[i]);
      assert s.Success?;
      assert s.value.path == r.value.path;
    }
  }

  lemma NativeWhenShown(settings: Settings, chain: string, token: string)
    requires WrappedAddress(settings, chain).Success? && !IsNative(WrappedNative(settings, chain).value)
    ensures
      var (normal, wrapped) := (Normalize(settings, chain, token), WrappedNative(settings, chain).value);
      !IsNative(normal) && (IsNative(Display(settings, chain, normal)) <==> SameText(normal, wrapped))
  {
    hide Trim, Lower, Placeholder, IsAddress, WrappedNative, WrappedAddress;
    PlaceholderIsNative();
    WrappedIsAddress(settings, chain);
    TrimTwice(token);
  }

  lemma ResolvedFlags(settings: Settings, chain: string, tokens: seq<string>)
    requires Resolved(settings, chain, tokens).Success? && tokens != []
    ensures
      var r := Resolved(settings, chain, tokens).value;
      r.nativeInput == IsNative(tokens[0]) && r.nativeOutput == IsNative(tokens[|tokens| - 1])
  {
    hide ParseAll, IsNative, AnyNative, WrappedAddress, Substituted;
  }

  /** What display changes is how the coin is paid: native in or out where the route starts or ends wrapped. */
  lemma {:induction false} DisplayedRouteIsNative(settings: Settings, chain: string, tokens: seq<string>)
    requires WrappedAddress(settings, chain).Success? && tokens != []
    requires !IsNative(WrappedNative(settings, chain).value)
    ensures
      var route := NormalizedRoute(settings, chain, tokens);
      var plain := Resolved(settings, chain, route);
      var shown := Resolved(settings, chain, DisplayedRoute(settings, chain, route));
      var wrapped := WrappedNative(settings, chain).value;
      plain.Success? ==>
        && shown.Success? && !plain.value.nativeInput && !plain.value.nativeOutput
        && shown.value.nativeInput == SameText(route[0], wrapped)
        && shown.value.nativeOutput == SameText(route[|route| - 1], wrapped)
  {
    hide *;
    var route := NormalizedRoute(settings, chain, tokens);
    DisplayedRouteTradesTheSame(settings, chain, tokens);
    NativeWhenShown(settings, chain, tokens[0]);
    NativeWhenShown(settings, chain, tokens[|tokens| - 1]);
    WrappedIsAddress(settings, chain);
    if Resolved(settings, chain, route).Success? {
      ResolvedFlags(settings, chain, route);
      ResolvedFlags(settings, chain, DisplayedRoute(settings, chain, route));
    }
  }
}
