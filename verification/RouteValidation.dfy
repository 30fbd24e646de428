/** The three readers of a pool's route: the gateway's check, the session service's, and the engine's typed one. */
module RouteValidation {
  import opened Wrappers
  import opened Ascii
  import opened Routing

  /** A JSON document; an object keeps its fields as written, repeated keys included. */
  datatype Json =
    | Null
    | Bool(flag: bool)
    | Integer(number: int)
    | Decimal(digits: string)
    | String(text: string)
    | Array(items: seq<Json>)
    | Object(fields: seq<(string, Json)>)

  /** A stored or submitted route text, trimmed. */
  datatype Text = Blank | Malformed | Parsed(value: Json)

  /** The value of a key, as an untyped document keeps it: the last one written. */
  function Get(fields: seq<(string, Json)>, key: string): Option<Json> {
    if fields == [] then None
    else if fields[|fields| - 1].0 == key then Some(fields[|fields| - 1].1)
    else Get(fields[..|fields| - 1], key)
  }

  /** `value.get(key)`: only objects have keys. */
  function Member(value: Json, key: string): Option<Json> {
    if value.Object? then Get(value.fields, key) else None
  }

  function ArrayMember(value: Json, key: string): Option<seq<Json>> {
    match Member(value, key)
    case Some(Array(items)) => Some(items)
    case _ => None
  }

  // ----- The gateway and the session service -----

  /** `validate_pool_swap_path_json`. */
  predicate GatewayAccepts(text: Text, pool: string) {
    match text
    case Blank => false
    case Malformed => false
    case Parsed(value) =>
      match ArrayMember(value, "hops")
      case None => false
      case Some(hops) =>
        if hops == [] then false
        else if !hops[0].String? then false
        else if !SameText(hops[0].text, pool) then false
        else
          match ArrayMember(value, "hop_tokens")
          case None => false
          case Some(tokens) => |tokens| == |hops| + 1
  }

  datatype PathError =
    | PathRequired
    | InvalidPath
    | HopsMissing
    | NoHop
    | FirstHopNotText
    | FirstHopNotPool
    | TokensMissing
    | TokenCountWrong

  /** `parse_pool_swap_path_json`. */
  function SessionPath(text: Text, pool: string): Result<Json, PathError> {
    match text
    case Blank => Failure(PathRequired)
    case Malformed => Failure(InvalidPath)
    case Parsed(value) =>
      match ArrayMember(value, "hops")
      case None => Failure(HopsMissing)
      case Some(hops) =>
        if hops == [] then Failure(NoHop)
        else if !hops[0].String? then Failure(FirstHopNotText)
        else if !SameText(hops[0].text, pool) then Failure(FirstHopNotPool)
        else
          match ArrayMember(value, "hop_tokens")
          case None => Failure(TokensMissing)
          case Some(tokens) => if |tokens| != |hops| + 1 then Failure(TokenCountWrong) else Success(value)
  }

  /** What both check, said at once. */
  ghost predicate LeadsFrom(value: Json, pool: string) {
    exists hops: seq<Json>, tokens: seq<Json> ::
      && ArrayMember(value, "hops") == Some(hops) && ArrayMember(value, "hop_tokens") == Some(tokens)
      && |hops| >= 1 && |tokens| == |hops| + 1
      && hops[0].String? && SameText(hops[0].text, pool)
  }

  /** The gateway accepts exactly what the session service accepts, and that passes the document on as it is. */
  lemma {:induction false} GatewayIffSession(text: Text, pool: string)
    ensures GatewayAccepts(text, pool) <==> text.Parsed? && LeadsFrom(text.value, pool)
    ensures GatewayAccepts(text, pool) <==> SessionPath(text, pool).Success?
    ensures SessionPath(text, pool).Success? ==> SessionPath(text, pool) == Success(text.value)
  {
    hide Member;
    if text.Parsed? && ArrayMember(text.value, "hops").Some? && ArrayMember(text.value, "hop_tokens").Some? {
      var (hops, tokens) := (ArrayMember(text.value, "hops").value, ArrayMember(text.value, "hop_tokens").value);
      if |hops| >= 1 && |tokens| == |hops| + 1 && hops[0].String? && SameText(hops[0].text, pool) {
        assert LeadsFrom(text.value, pool);
      }
    }
  }

  // ----- The engine -----

  datatype Route = Route(hops: seq<string>, hopTokens: seq<string>, feeTiers: seq<nat>)

  predicate IsU32(j: Json) {
    j.Integer? && 0 <= j.number < 0x1_0000_0000
  }

  predicate AllStrings(items: seq<Json>) {
    forall i :: 0 <= i < |items| ==> items[i].String?
  }

  predicate AllU32(items: seq<Json>) {
    forall i :: 0 <= i < |items| ==> IsU32(items[i])
  }

  function Strings(items: seq<Json>): seq<string>
    requires AllStrings(items)
  {
    seq(|items|, i requires 0 <= i < |items| => items[i].text)
  }

  function Numbers(items: seq<Json>): seq<nat>
    requires AllU32(items)
  {
    seq(|items|, i requires 0 <= i < |items| => items[i].number)
  }

  /** The three fields of a route, absent fee tiers counting as none. */
  function Decoded(hops: Option<Json>, tokens: Option<Json>, fees: Option<Json>): Option<Route> {
    match (hops, tokens, fees)
    case (Some(Array(h)), Some(Array(t)), None) =>
      if AllStrings(h) && AllStrings(t) then Some(Route(Strings(h), Strings(t), [])) else None
    case (Some(Array(h)), Some(Array(t)), Some(Array(f))) =>
      if AllStrings(h) && AllStrings(t) && AllU32(f) then Some(Route(Strings(h), Strings(t), Numbers(f))) else None
    case _ => None
  }

  predicate Repeats(fields: seq<(string, Json)>, key: string) {
    exists i, j :: 0 <= i < j < |fields| && fields[i].0 == key && fields[j].0 == key
  }

  /**
    The typed reading of a document: a repeated field is an error, an unknown one is ignored, and a
    struct may also be written as the list of its fields.
   */
  function Typed(value: Json): Option<Route> {
    match value
    case Object(fields) =>
      if Repeats(fields, "hops") || Repeats(fields, "hop_tokens") || Repeats(fields, "fee_tiers") then None
      else Decoded(Get(fields, "hops"), Get(fields, "hop_tokens"), Get(fields, "fee_tiers"))
    case Array(items) =>
      if |items| == 2 then Decoded(Some(items[0]), Some(items[1]), None)
      else if |items| == 3 then Decoded(Some(items[0]), Some(items[1]), Some(items[2]))
      else None
    case _ => None
  }

  /** `parse_pool_swap_route`. */
  function EngineRoute(text: Text, pool: string): Option<Route> {
    match text
    case Blank => None
    case Malformed => None
    case Parsed(value) =>
      match Typed(value)
      case None => None
      case Some(route) =>
        if route.hops == [] then None
        else if !SameText(route.hops[0], pool) then None
        else if |route.hopTokens| != |route.hops| + 1 then None
        else Some(route)
  }

  function Texts(texts: seq<string>): seq<Json> {
    seq(|texts|, i requires 0 <= i < |texts| => String(texts[i]))
  }

  /** The list holds hops and tokens as texts and fee tiers, if any, as 32-bit numbers, and leads from the pool. */
  ghost predicate ListsRoute(items: seq<Json>, pool: string, route: Route) {
    && (|items| == 2 || |items| == 3) && items[0].Array? && items[1].Array?
    && items[0].items == Texts(route.hops) && items[1].items == Texts(route.hopTokens)
    && (if |items| == 2 then route.feeTiers == []
        else items[2].Array? && |items[2].items| == |route.feeTiers|
             && forall i :: 0 <= i < |route.feeTiers| ==>
                  items[2].items[i] == Integer(route.feeTiers[i]) && route.feeTiers[i] < 0x1_0000_0000)
    && route.hops != [] && SameText(route.hops[0], pool) && |route.hopTokens| == |route.hops| + 1
  }

  lemma TextsIff(items: seq<Json>, texts: seq<string>)
    ensures items == Texts(texts) <==> AllStrings(items) && Strings(items) == texts
  {
    if items == Texts(texts) {
      assert Strings(items) == texts;
    }
    if AllStrings(items) && Strings(items) == texts {
      assert forall i :: 0 <= i < |items| ==> items[i] == String(Strings(items)[i]);
      assert items == Texts(texts);
    }
  }

  lemma NumbersIff(items: seq<Json>, numbers: seq<nat>)
    ensures AllU32(items) && Numbers(items) == numbers <==>
            && |items| == |numbers|
            && forall i :: 0 <= i < |numbers| ==> items[i] == Integer(numbers[i]) && numbers[i] < 0x1_0000_0000
  {
    if AllU32(items) && Numbers(items) == numbers {
      assert forall i :: 0 <= i < |items| ==> items[i] == Integer(Numbers(items)[i]);
    }
  }

  /** A document written as a list is read as a route exactly when it lists that route's fields in order. */
  lemma {:induction false} ListReadIff(items: seq<Json>, pool: string, route: Route)
    ensures EngineRoute(Parsed(Array(items)), pool) == Some(route) <==> ListsRoute(items, pool, route)
  {
    hide SameText, AllStrings, AllU32, Strings, Numbers, Texts;
    if |items| == 2 || |items| == 3 {
      if items[0].Array? {
        TextsIff(items[0].items, route.hops);
      }
      if items[1].Array? {
        TextsIff(items[1].items, route.hopTokens);
      }
      if |items| == 3 && items[2].Array? {
        NumbersIff(items[2].items, route.feeTiers);
      }
    }
  }

  /** Why the session service refuses a document: the first thing that is wrong with it, in this order. */
  lemma {:induction false} RefusalTells(text: Text, pool: string)
    ensures SessionPath(text, pool) == Failure(PathRequired) <==> text == Blank
    ensures SessionPath(text, pool) == Failure(InvalidPath) <==> text == Malformed
    ensures SessionPath(text, pool) == Failure(HopsMissing) <==>
            text.Parsed? && ArrayMember(text.value, "hops") == None
    ensures SessionPath(text, pool) == Failure(NoHop) <==>
            text.Parsed? && ArrayMember(text.value, "hops") == Some([])
    ensures
      text.Parsed? && ArrayMember(text.value, "hops").Some? && ArrayMember(text.value, "hops").value != [] ==>
        var (hops, tokens) := (ArrayMember(text.value, "hops").value, ArrayMember(text.value, "hop_tokens"));
        var leads := hops[0].String? && SameText(hops[0].text, pool);
        && (SessionPath(text, pool) == Failure(FirstHopNotText) <==> !hops[0].String?)
        && (SessionPath(text, pool) == Failure(FirstHopNotPool) <==> hops[0].String? && !leads)
        && (SessionPath(text, pool) == Failure(TokensMissing) <==> leads && tokens == None)
        && (SessionPath(text, pool) == Failure(TokenCountWrong) <==>
              leads && tokens.Some? && |tokens.value| != |hops| + 1)
  {
    hide Member, SameText;
  }

  /** What the engine accepts the other two accept, exactly when it is written as an object. */
  lemma {:induction false} EngineImpliesOthersIff(text: Text, pool: string)
    requires EngineRoute(text, pool).Some?
    ensures GatewayAccepts(text, pool) <==> text.value.Object?
    ensures SessionPath(text, pool).Success? <==> text.value.Object?
  {
    hide Get, Repeats;
    GatewayIffSession(text, pool);
    if text.value.Object? {
      var (hops, tokens) := (Get(text.value.fields, "hops"), Get(text.value.fields, "hop_tokens"));
      assert ArrayMember(text.value, "hops") == Some(hops.value.items);
      assert ArrayMember(text.value, "hop_tokens") == Some(tokens.value.items);
    }
  }

  /** A route written as a list is such a case: the engine trades it, the other two refuse it. */
  lemma ListedRoute(pool: string, sell: string, target: string)
    ensures
      var text := Parsed(Array([Array([String(pool)]), Array([String(sell), String(target)])]));
      && EngineRoute(text, pool) == Some(Route([pool], [sell, target], []))
      && !GatewayAccepts(text, pool) && SessionPath(text, pool) == Failure(HopsMissing)
  {
    assert Strings([String(pool)]) == [pool] && Strings([String(sell), String(target)]) == [sell, target];
  }

  // ----- From the session service to the engine -----

  /** The document without the fields of one key. */
  function Without(fields: seq<(string, Json)>, key: string): (r: seq<(string, Json)>)
    ensures forall i :: 0 <= i < |r| ==> r[i].0 != key && r[i] in fields
  {
    if fields == [] then []
    else
      var (most, last) := (Without(fields[..|fields| - 1], key), fields[|fields| - 1]);
      if last.0 == key then most else most + [last]
  }

  /** The document as it is stored: each key once, with its last value. */
  function Stored(fields: seq<(string, Json)>): seq<(string, Json)> {
    if fields == [] then []
    else Without(Stored(fields[..|fields| - 1]), fields[|fields| - 1].0) + [fields[|fields| - 1]]
  }

  lemma {:induction false} GetWithout(fields: seq<(string, Json)>, key: string, other: string)
    ensures Get(Without(fields, key), other) == if other == key then None else Get(fields, other)
  {
    if fields != [] {
      var (most, last) := (fields[..|fields| - 1], fields[|fields| - 1]);
      GetWithout(most, key, other);
      if last.0 != key {
        assert (Without(most, key) + [last])[..|Without(most, key)|] == Without(most, key);
      }
    }
  }

  lemma {:induction false} WithoutRepeats(fields: seq<(string, Json)>, key: string, other: string)
    requires !Repeats(fields, other)
    ensures !Repeats(Without(fields, key), other)
  {
    if fields != [] {
      var (most, last) := (fields[..|fields| - 1], fields[|fields| - 1]);
      WithoutRepeats(most, key, other);
      if last.0 == other && other != key {
        assert forall i :: 0 <= i < |most| ==> fields[i] == most[i];
        assert forall i :: 0 <= i < |Without(most, key)| ==> Without(most, key)[i].0 != other;
      }
    }
  }

  /** Storing keeps every value and leaves no key twice. */
  lemma {:induction false} StoredReadsTheSame(fields: seq<(string, Json)>, key: string)
    ensures Get(Stored(fields), key) == Get(fields, key)
    ensures !Repeats(Stored(fields), key)
  {
    if fields != [] {
      var (most, last) := (fields[..|fields| - 1], fields[|fields| - 1]);
      StoredReadsTheSame(most, key);
      var kept := Without(Stored(most), last.0);
      GetWithout(Stored(most), last.0, key);
      WithoutRepeats(Stored(most), last.0, key);
      assert (kept + [last])[..|kept|] == kept;
    }
  }

  /** The texts are those of the document's array, in its order. */
  ghost predicate Reads(items: Option<seq<Json>>, texts: seq<string>) {
    items.Some? && |texts| == |items.value| && forall i :: 0 <= i < |texts| ==> items.value[i] == String(texts[i])
  }

  ghost predicate ReadsNumbers(items: Option<seq<Json>>, numbers: seq<nat>) {
    && items.Some? && |numbers| == |items.value|
    && forall i :: 0 <= i < |numbers| ==> items.value[i] == Integer(numbers[i])
  }

  /** The engine reads every hop and token as text, and fee tiers, if there are any, as 32-bit numbers. */
  ghost predicate WellTyped(value: Json)
  {
    && ArrayMember(value, "hops").Some? && ArrayMember(value, "hop_tokens").Some?
    && (forall hop :: hop in ArrayMember(value, "hops").value ==> hop.String?)
    && (forall token :: token in ArrayMember(value, "hop_tokens").value ==> token.String?)
    && match Member(value, "fee_tiers")
       case None => true
       case Some(Array(fees)) => forall fee :: fee in fees ==> fee.Integer? && 0 <= fee.number < 0x1_0000_0000
       case Some(_) => false
  }

  lemma ObjectTypedIff(fields: seq<(string, Json)>)
    ensures Typed(Object(fields)).Some? <==>
            && WellTyped(Object(fields))
            && !Repeats(fields, "hops") && !Repeats(fields, "hop_tokens") && !Repeats(fields, "fee_tiers")
    ensures Typed(Object(fields)).Some? ==>
              && Typed(Object(fields)).value.hops == Strings(ArrayMember(Object(fields), "hops").value)
              && Typed(Object(fields)).value.hopTokens == Strings(ArrayMember(Object(fields), "hop_tokens").value)
  {
    hide Get, Repeats;
  }

  /**
    A document written as an object is read as a route exactly when it leads from the pool, is well typed
    and repeats none of the three keys.
   */
  lemma {:induction false} ObjectReadIff(fields: seq<(string, Json)>, pool: string)
    ensures EngineRoute(Parsed(Object(fields)), pool).Some? <==>
            && LeadsFrom(Object(fields), pool) && WellTyped(Object(fields))
            && !Repeats(fields, "hops") && !Repeats(fields, "hop_tokens") && !Repeats(fields, "fee_tiers")
  {
    hide Typed, Repeats, SameText, ArrayMember;
    ObjectTypedIff(fields);
    if Typed(Object(fields)).Some? {
      var hops := ArrayMember(Object(fields), "hops").value;
      var tokens := ArrayMember(Object(fields), "hop_tokens").value;
      assert hops != [] ==> Strings(hops)[0] == hops[0].text;
      assert LeadsFrom(Object(fields), pool) <==>
             |hops| >= 1 && |tokens| == |hops| + 1 && hops[0].String? && SameText(hops[0].text, pool);
    }
  }

  lemma AcceptedHasArrays(text: Text, pool: string)
    requires SessionPath(text, pool).Success?
    ensures text.Parsed? && text.value.Object?
    ensures ArrayMember(text.value, "hops").Some? && ArrayMember(text.value, "hop_tokens").Some?
    ensures LeadsFrom(text.value, pool)
  {
    hide Get;
    GatewayIffSession(text, pool);
  }

  /**
    A route the session service accepts and stores is one the engine trades exactly when it is well
    typed; otherwise the session is created and that pool is passed over at every event. Hops and
    tokens reach the engine unchanged.
   */
  lemma {:induction false} StoredRouteTradedIff(text: Text, pool: string)
    requires SessionPath(text, pool).Success?
    ensures text.Parsed? && text.value.Object?
    ensures ArrayMember(text.value, "hops").Some? && ArrayMember(text.value, "hop_tokens").Some?
    ensures
      var route := EngineRoute(Parsed(Object(Stored(text.value.fields))), pool);
      && (route.Some? <==> WellTyped(text.value))
      && (route.Some? ==>
            && Reads(ArrayMember(text.value, "hops"), route.value.hops)
            && Reads(ArrayMember(text.value, "hop_tokens"), route.value.hopTokens)
            && (if Member(text.value, "fee_tiers") == None then route.value.feeTiers == []
                else ReadsNumbers(ArrayMember(text.value, "fee_tiers"), route.value.feeTiers)))
  {
    hide Get, Stored, Repeats, SameText;
    AcceptedHasArrays(text, pool);
    StoredReadsTheSame(text.value.fields, "hops");
    StoredReadsTheSame(text.value.fields, "hop_tokens");
    StoredReadsTheSame(text.value.fields, "fee_tiers");
  }

  // ----- Routes the service itself builds -----

  /** A built path as a route document, with what else is said of it. */
  function RouteJson(hops: seq<string>, tokens: seq<string>, output: Json, impact: Json, fee: Json): Json {
    Object([("hops", Array(Texts(hops))), ("hop_tokens", Array(Texts(tokens))), ("fee_tiers", Array([])),
            ("estimated_output", output), ("estimated_price_impact", impact), ("fee_percent", fee)])
  }

  lemma {:induction false} GetAt(fields: seq<(string, Json)>, i: nat, key: string)
    requires i < |fields| && fields[i].0 == key && forall j :: i < j < |fields| ==> fields[j].0 != key
    ensures Get(fields, key) == Some(fields[i].1)
  {
    if i < |fields| - 1 {
      GetAt(fields[..|fields| - 1], i, key);
    }
  }

  lemma RouteJsonFields(hops: seq<string>, tokens: seq<string>, output: Json, impact: Json, fee: Json)
    ensures
      var fields := RouteJson(hops, tokens, output, impact, fee).fields;
      && Get(fields, "hops") == Some(Array(Texts(hops))) && Get(fields, "hop_tokens") == Some(Array(Texts(tokens)))
      && Get(fields, "fee_tiers") == Some(Array([]))
      && !Repeats(fields, "hops") && !Repeats(fields, "hop_tokens") && !Repeats(fields, "fee_tiers")
  {
    var fields := RouteJson(hops, tokens, output, impact, fee).fields;
    GetAt(fields, 0, "hops");
    GetAt(fields, 1, "hop_tokens");
    GetAt(fields, 2, "fee_tiers");
  }

  /** Every path the service builds is accepted by all three, and the engine reads hops and tokens unchanged. */
  lemma BuiltRouteIsAccepted(pool: Pool, sell: string, target: string, targetPools: seq<Pool>,
                             output: Json, impact: Json, fee: Json)
    requires BuildPath(pool, sell, target, targetPools).Some?
    ensures
      var path := BuildPath(pool, sell, target, targetPools).value;
      var text := Parsed(RouteJson(path.hops, path.hopTokens, output, impact, fee));
      && GatewayAccepts(text, pool.address) && SessionPath(text, pool.address) == Success(text.value)
      && EngineRoute(text, pool.address) == Some(Route(path.hops, path.hopTokens, []))
  {
    var path := BuildPath(pool, sell, target, targetPools).value;
    DocumentIsAccepted(path.hops, path.hopTokens, output, impact, fee, pool.address);
  }

  lemma DocumentIsAccepted(hops: seq<string>, tokens: seq<string>, output: Json, impact: Json, fee: Json, pool: string)
    requires hops != [] && SameText(hops[0], pool) && |tokens| == |hops| + 1
    ensures
      var text := Parsed(RouteJson(hops, tokens, output, impact, fee));
      && GatewayAccepts(text, pool) && SessionPath(text, pool) == Success(text.value)
      && EngineRoute(text, pool) == Some(Route(hops, tokens, []))
  {
    hide Get, Repeats, SameText;
    RouteJsonFields(hops, tokens, output, impact, fee);
    var text := Parsed(RouteJson(hops, tokens, output, impact, fee));
    assert Strings(Texts(hops)) == hops && Strings(Texts(tokens)) == tokens && Numbers([]) == [];
    EngineImpliesOthersIff(text, pool);
    GatewayIffSession(text, pool);
  }
}
