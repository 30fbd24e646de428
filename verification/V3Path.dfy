/** Uniswap V3's packed swap path: tokens of 20 bytes with fees of 3 bytes between them. */
module V3Path {
  import opened Wrappers
  import opened Bytes

  type U32 = n: nat | n < 0x1_0000_0000

  const MAX_FEE: U32 := 0xFF_FFFF

  datatype PathError = TooFewTokens | FeeCountMismatch | InvalidFee(fee: U32)

  function Repeated(fee: U32, count: nat): seq<U32> {
    seq(count, _ => fee)
  }

  /** `route_fee_tiers`: the route's own fees when there is one for each hop, else one fee for all. */
  function RouteFeeTiers(routeFees: seq<U32>, defaultFee: U32, tokenCount: nat): Result<seq<U32>, PathError> {
    if tokenCount < 2 then Failure(TooFewTokens)
    else if |routeFees| == tokenCount - 1 then Success(routeFees)
    else Success(Repeated(if defaultFee == 0 then 3_000 else defaultFee, tokenCount - 1))
  }

  predicate AllFit(fees: seq<U32>) {
    forall i :: 0 <= i < |fees| ==> fees[i] <= MAX_FEE
  }

  function FirstTooLarge(fees: seq<U32>): (r: Option<U32>)
    ensures r == None <==> AllFit(fees)
    ensures r.Some? ==> r.value in fees && r.value > MAX_FEE
  {
    if fees == [] then None else if fees[0] > MAX_FEE then Some(fees[0]) else FirstTooLarge(fees[1..])
  }

  /** Some fee is the first that is too large, and all before it fit. */
  ghost predicate IsFirstTooLarge(fees: seq<U32>, i: nat) {
    i < |fees| && fees[i] > 0xFF_FFFF && forall j :: 0 <= j < i ==> fees[j] <= 0xFF_FFFF
  }

  lemma {:induction false} FirstIsFirst(fees: seq<U32>)
    ensures FirstTooLarge(fees).Some? ==>
              exists i: nat :: IsFirstTooLarge(fees, i) && fees[i] == FirstTooLarge(fees).value
  {
    if fees != [] {
      if fees[0] > MAX_FEE {
        assert IsFirstTooLarge(fees, 0);
      } else {
        FirstIsFirst(fees[1..]);
        if FirstTooLarge(fees).Some? {
          var i: nat :| IsFirstTooLarge(fees[1..], i) && fees[1..][i] == FirstTooLarge(fees).value;
          assert forall j :: 1 <= j < i + 1 ==> fees[j] == fees[1..][j - 1];
          assert IsFirstTooLarge(fees, i + 1);
        }
      }
    }
  }

  lemma OnlyOneIsFirst(fees: seq<U32>, i: nat, j: nat)
    requires IsFirstTooLarge(fees, i) && IsFirstTooLarge(fees, j)
    ensures i == j
  {
  }

  function Packed(tokens: seq<Address>, fees: seq<U32>): (r: seq<Byte>)
    requires |tokens| == |fees| + 1
    ensures |r| == 23 * |fees| + 20
    decreases |fees|
  {
    if fees == [] then tokens[0] else tokens[0] + BigEndian(fees[0], 3) + Packed(tokens[1..], fees[1..])
  }

  function EncodedPath(tokens: seq<Address>, fees: seq<U32>): Result<seq<Byte>, PathError> {
    if |tokens| < 2 then Failure(TooFewTokens)
    else if |fees| != |tokens| - 1 then Failure(FeeCountMismatch)
    else match FirstTooLarge(fees)
      case Some(fee) => Failure(InvalidFee(fee))
      case None => Success(Packed(tokens, fees))
  }

  lemma PowerOf3()
    ensures Power(3) == MAX_FEE + 1
  {
    assert Power(3) == 256 * (256 * (256 * Power(0)));
  }

  lemma ThreeBytes(fee: U32)
    ensures BigEndian(fee, 3) == [fee / 0x1_0000 % 256, fee / 0x100 % 256, fee % 256]
  {
    assert BigEndian(fee, 3) == BigEndian(fee / 256, 2) + [fee % 256];
    assert BigEndian(fee / 256, 2) == BigEndian(fee / 256 / 256, 1) + [fee / 256 % 256];
    assert BigEndian(fee / 256 / 256, 1) == [] + [fee / 256 / 256 % 256];
  }

  /** `encode_uniswap_v3_path`. */
  method EncodePath(tokens: seq<Address>, fees: seq<U32>) returns (r: Result<seq<Byte>, PathError>)
    ensures r == EncodedPath(tokens, fees)
  {
    hide BigEndian;
    if |tokens| < 2 {
      return Failure(TooFewTokens);
    }
    if |fees| != |tokens| - 1 {
      return Failure(FeeCountMismatch);
    }
    var encoded: seq<Byte> := [];
    for i := 0 to |fees|
      invariant FirstTooLarge(fees) == FirstTooLarge(fees[i..])
      invariant encoded + Packed(tokens[i..], fees[i..]) == Packed(tokens, fees)
    {
      if fees[i] > MAX_FEE {
        return Failure(InvalidFee(fees[i]));
      }
      assert tokens[i..][1..] == tokens[i + 1..] && fees[i..][1..] == fees[i + 1..];
      ThreeBytes(fees[i]);
      ghost var before := encoded;
      encoded := encoded + tokens[i];
      encoded := encoded + [fees[i] / 0x1_0000 % 256] + [fees[i] / 0x100 % 256] + [fees[i] % 256];
      assert encoded == before + (tokens[i] + BigEndian(fees[i], 3));
    }
    return Success(encoded + tokens[|tokens| - 1]);
  }

  // ----- Reading a path back -----

  function Unpacked(path: seq<Byte>): Option<(seq<Address>, seq<U32>)> {
    if |path| == 20 then Some(([path], []))
    else if |path| < 43 then None
    else
      match Unpacked(path[23..])
      case None => None
      case Some((tokens, fees)) =>
        PowerOf3();
        NumberBound(path[20..23]);
        var token: Address := path[..20];
        var fee: U32 := Number(path[20..23]);
        Some(([token] + tokens, [fee] + fees))
  }

  lemma {:induction false} UnpackPacked(tokens: seq<Address>, fees: seq<U32>)
    requires |tokens| == |fees| + 1 && AllFit(fees)
    ensures Unpacked(Packed(tokens, fees)) == Some((tokens, fees))
    decreases |fees|
  {
    if fees == [] {
      assert tokens == [tokens[0]];
    } else {
      var path := Packed(tokens, fees);
      UnpackPacked(tokens[1..], fees[1..]);
      PowerOf3();
      NumberOfBigEndian(fees[0], 3);
      assert path[..20] == tokens[0] && path[20..23] == BigEndian(fees[0], 3)
          && path[23..] == Packed(tokens[1..], fees[1..]);
      assert [tokens[0]] + tokens[1..] == tokens && [fees[0]] + fees[1..] == fees;
    }
  }

  lemma {:induction false} PackUnpacked(path: seq<Byte>)
    ensures Unpacked(path) == None <==> |path| < 20 || (|path| - 20) % 23 != 0
    ensures Unpacked(path).Some? ==>
              var (tokens, fees) := Unpacked(path).value;
              && |tokens| == |fees| + 1 && AllFit(fees)
              && Packed(tokens, fees) == path
  {
    if |path| >= 43 {
      PackUnpacked(path[23..]);
      BigEndianOfNumber(path[20..23]);
      PowerOf3();
      NumberBound(path[20..23]);
      assert path == path[..20] + path[20..23] + path[23..];
      if Unpacked(path).Some? {
        var ((tokens, fees), (tokens', fees')) := (Unpacked(path).value, Unpacked(path[23..]).value);
        assert tokens[1..] == tokens' && fees[1..] == fees';
      }
    }
  }

  // ----- The path of a swap -----

  /** What the calldata builder does with a route's tokens and fees. */
  function BuildV3Path(tokens: seq<Address>, routeFees: seq<U32>, defaultFee: U32): Result<seq<Byte>, PathError> {
    match RouteFeeTiers(routeFees, defaultFee, |tokens|)
    case Failure(error) => Failure(error)
    case Success(fees) => EncodedPath(tokens, fees)
  }

  /** The fee charged on each hop. */
  function ChosenFees(routeFees: seq<U32>, defaultFee: U32, hops: nat): seq<U32> {
    if |routeFees| == hops then routeFees else Repeated(if defaultFee == 0 then 3_000 else defaultFee, hops)
  }

  /** A path is built exactly when there are two tokens and every chosen fee fits 24 bits, and reads back. */
  lemma {:induction false} BuildsIff(tokens: seq<Address>, routeFees: seq<U32>, defaultFee: U32)
    ensures
      var built := BuildV3Path(tokens, routeFees, defaultFee);
      && (built.Success? <==>
          |tokens| >= 2 && AllFit(ChosenFees(routeFees, defaultFee, |tokens| - 1)))
      && (built.Success? ==>
          && |built.value| == 23 * (|tokens| - 1) + 20
          && Unpacked(built.value) == Some((tokens, ChosenFees(routeFees, defaultFee, |tokens| - 1))))
  {
    if |tokens| >= 2 && BuildV3Path(tokens, routeFees, defaultFee).Success? {
      UnpackPacked(tokens, ChosenFees(routeFees, defaultFee, |tokens| - 1));
    }
  }

  /** Otherwise the route is too short, or the error names the first fee that does not fit. */
  lemma {:induction false} FailsWith(tokens: seq<Address>, routeFees: seq<U32>, defaultFee: U32, fee: U32)
    ensures
      var built := BuildV3Path(tokens, routeFees, defaultFee);
      && (built == Failure(TooFewTokens) <==> |tokens| < 2) && built != Failure(FeeCountMismatch)
      && (built == Failure(InvalidFee(fee)) <==>
          |tokens| >= 2 &&
          var fees := ChosenFees(routeFees, defaultFee, |tokens| - 1);
          exists i: nat :: IsFirstTooLarge(fees, i) && fees[i] == fee)
  {
    if |tokens| >= 2 {
      var fees := ChosenFees(routeFees, defaultFee, |tokens| - 1);
      FirstIsFirst(fees);
      if exists i: nat :: IsFirstTooLarge(fees, i) && fees[i] == fee {
        var i: nat :| IsFirstTooLarge(fees, i) && fees[i] == fee;
        var j: nat :| IsFirstTooLarge(fees, j) && fees[j] == FirstTooLarge(fees).value;
        OnlyOneIsFirst(fees, i, j);
      }
    }
  }

  /** The encoding is injective, and reaches every byte string of a path's length. */
  lemma {:induction false} OnePathPerSwap(tokens: seq<Address>, routeFees: seq<U32>, defaultFee: U32,
                       tokens': seq<Address>, routeFees': seq<U32>, defaultFee': U32)
    requires BuildV3Path(tokens, routeFees, defaultFee).Success?
    requires BuildV3Path(tokens, routeFees, defaultFee) == BuildV3Path(tokens', routeFees', defaultFee')
    ensures tokens == tokens'
    ensures ChosenFees(routeFees, defaultFee, |tokens| - 1) == ChosenFees(routeFees', defaultFee', |tokens'| - 1)
  {
    BuildsIff(tokens, routeFees, defaultFee);
    BuildsIff(tokens', routeFees', defaultFee');
  }

  lemma {:induction false} EveryPathIsBuilt(path: seq<Byte>, defaultFee: U32)
    requires |path| >= 43 && (|path| - 20) % 23 == 0
    ensures Unpacked(path).Some?
    ensures
      var (tokens, fees) := Unpacked(path).value;
      BuildV3Path(tokens, fees, defaultFee) == Success(path)
  {
    PackUnpacked(path);
    assert |path| != 20;
  }
}
