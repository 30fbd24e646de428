/** Swap logs: ABI words, the V2 and V3 event parsers, and the direction every consumer must agree on. */
module SwapLog {
  import opened Wrappers
  import opened U256
  import opened Bytes

  // ----- Words -----

  function WordAt(data: seq<Byte>, offset: nat): (r: Word)
    requires offset + 32 <= |data|
  {
    NumberBound(data[offset..offset + 32]);
    PowerOf32();
    Number(data[offset..offset + 32])
  }

  function WordBytes(w: Word): Bytes32 {
    BigEndian(w, 32)
  }

  lemma WordRoundTrip(w: Word)
    ensures Number(WordBytes(w)) == w
  {
    PowerOf32();
    NumberOfBigEndian(w, 32);
  }

  // ----- Two's complement -----

  const TWO_255: int := 0x8000000000000000_0000000000000000_0000000000000000_0000000000000000

  type Int256 = v: int | -TWO_255 <= v < TWO_255

  function Encoded(v: Int256): Word {
    v % TWO_256
  }

  predicate SignBit(w: Word) {
    w / TWO_255 % 2 == 1
  }

  /** `!w` plus one, wrapping. */
  function Negated(w: Word): Word {
    (MAX - w + 1) % TWO_256
  }

  lemma SignAndMagnitude(v: Int256)
    ensures SignBit(Encoded(v)) <==> v < 0
    ensures v >= 0 ==> Encoded(v) == v
    ensures v < 0 ==> Negated(Encoded(v)) == -(v as int)
  {
    if v < 0 {
      assert Encoded(v) == v + TWO_256;
      assert (v + TWO_256) / TWO_255 == 1;
    } else {
      assert v / TWO_255 == 0;
    }
  }

  // ----- Logs and events -----

  datatype Log = Log(address: Address, topics: seq<Bytes32>, data: seq<Byte>)

  datatype Dex = UniswapV2 | UniswapV3

  datatype Swap = Swap(pool: Address, dex: Dex, amountIn: Word, amountOut: Word,
                       sender: Address, recipient: Address, token0IsInput: bool)

  const V2_SIGNATURE: Word := 0xd78ad95fa46c994b6551d0da85fc275fe613ce37657fb8d5e3d130840159d822

  const V3_SIGNATURE: Word := 0xc42079f94a6350d7e6235f29174924f928cc2ac818eb64fed8004e115fbcca67

  /** `Address::from_word`. */
  function AddressOf(word: Bytes32): Address {
    word[12..]
  }

  function ParseV2(log: Log): Option<Swap> {
    if |log.topics| < 3 || |log.data| < 128 then None
    else
      var (amount0In, amount1In) := (WordAt(log.data, 0), WordAt(log.data, 32));
      var (amount0Out, amount1Out) := (WordAt(log.data, 64), WordAt(log.data, 96));
      var token0IsInput := amount0In != 0;
      Some(Swap(log.address, UniswapV2,
                if token0IsInput then amount0In else amount1In, if token0IsInput then amount1Out else amount0Out,
                AddressOf(log.topics[1]), AddressOf(log.topics[2]), token0IsInput))
  }

  function ParseV3(log: Log): Option<Swap> {
    if |log.topics| < 3 || |log.data| < 160 then None
    else
      var (amount0, amount1) := (WordAt(log.data, 0), WordAt(log.data, 32));
      var token0IsInput := !SignBit(amount0);
      var amountOut :=
        if token0IsInput then (if SignBit(amount1) then Negated(amount1) else amount1) else Negated(amount0);
      Some(Swap(log.address, UniswapV3, if token0IsInput then amount0 else amount1, amountOut,
                AddressOf(log.topics[1]), AddressOf(log.topics[2]), token0IsInput))
  }

  /** `parse_swap_log`. */
  function Parse(log: Log): Option<Swap> {
    if log.topics == [] then None
    else if Number(log.topics[0]) == V2_SIGNATURE then ParseV2(log)
    else if Number(log.topics[0]) == V3_SIGNATURE then ParseV3(log)
    else None
  }

  /** Which logs are swaps: the event's signature and both indexed addresses, and data for all its words. */
  lemma ParsesIff(log: Log)
    ensures Parse(log).Some? <==>
            |log.topics| >= 3
            && ((log.topics[0] == WordBytes(V2_SIGNATURE) && |log.data| >= 128)
                || (log.topics[0] == WordBytes(V3_SIGNATURE) && |log.data| >= 160))
    ensures Parse(log).Some? ==>
              var e := Parse(log).value;
              && e.pool == log.address && e.sender == log.topics[1][12..] && e.recipient == log.topics[2][12..]
              && (e.dex == UniswapV2 <==> log.topics[0] == WordBytes(V2_SIGNATURE))
  {
    hide WordAt, WordBytes, SignBit, Negated;
    WordRoundTrip(V2_SIGNATURE);
    WordRoundTrip(V3_SIGNATURE);
    if log.topics != [] {
      SameNumberSameBytes(log.topics[0], WordBytes(V2_SIGNATURE));
      SameNumberSameBytes(log.topics[0], WordBytes(V3_SIGNATURE));
    }
  }

  // ----- What a pair or pool writes -----

  function Padded(address: Address): Bytes32 {
    seq(12, _ => 0) + address
  }

  function Words(words: seq<Word>): (r: seq<Byte>)
    ensures |r| == 32 * |words|
  {
    if words == [] then [] else WordBytes(words[0]) + Words(words[1..])
  }

  function V2Log(pool: Address, sender: Address, recipient: Address,
                 amount0In: Word, amount1In: Word, amount0Out: Word, amount1Out: Word): Log {
    Log(pool, [WordBytes(V2_SIGNATURE), Padded(sender), Padded(recipient)],
        Words([amount0In, amount1In, amount0Out, amount1Out]))
  }

  function V3Log(pool: Address, sender: Address, recipient: Address,
                 amount0: Int256, amount1: Int256, sqrtPrice: Word, liquidity: Word, tick: Int256): Log {
    Log(pool, [WordBytes(V3_SIGNATURE), Padded(sender), Padded(recipient)],
        Words([Encoded(amount0), Encoded(amount1), sqrtPrice, liquidity, Encoded(tick)]))
  }

  lemma {:induction false} WordOfWords(words: seq<Word>, k: nat)
    requires k < |words|
    ensures WordAt(Words(words), 32 * k) == words[k]
  {
    var data := Words(words);
    if k == 0 {
      WordRoundTrip(words[0]);
      assert data[0..32] == WordBytes(words[0]);
    } else {
      WordOfWords(words[1..], k - 1);
      assert data[32 * k..32 * k + 32] == Words(words[1..])[32 * (k - 1)..32 * (k - 1) + 32];
    }
  }

  lemma PaddedAddress(address: Address)
    ensures AddressOf(Padded(address)) == address
  {
  }

  /** All four V2 words decide the event. */
  lemma {:induction false} V2Decoded(pool: Address, sender: Address, recipient: Address,
                  amount0In: Word, amount1In: Word, amount0Out: Word, amount1Out: Word)
    ensures Parse(V2Log(pool, sender, recipient, amount0In, amount1In, amount0Out, amount1Out)) ==
            Some(if amount0In != 0 then Swap(pool, UniswapV2, amount0In, amount1Out, sender, recipient, true)
                 else Swap(pool, UniswapV2, amount1In, amount0Out, sender, recipient, false))
  {
    var words := [amount0In, amount1In, amount0Out, amount1Out];
    WordRoundTrip(V2_SIGNATURE);
    PaddedAddress(sender);
    PaddedAddress(recipient);
    WordOfWords(words, 0);
    WordOfWords(words, 1);
    WordOfWords(words, 2);
    WordOfWords(words, 3);
  }

  /** The log of the one-input, one-output swap an event describes. */
  function V2LogOf(e: Swap): Log {
    if e.token0IsInput then V2Log(e.pool, e.sender, e.recipient, e.amountIn, 0, 0, e.amountOut)
    else V2Log(e.pool, e.sender, e.recipient, 0, e.amountIn, e.amountOut, 0)
  }

  /** Decoding inverts encoding for every V2 swap with one input and one output, in either direction. */
  lemma {:induction false} V2RoundTrip(e: Swap)
    requires e.dex == UniswapV2 && e.amountIn != 0
    ensures Parse(V2LogOf(e)) == Some(e)
  {
    if e.token0IsInput {
      V2Decoded(e.pool, e.sender, e.recipient, e.amountIn, 0, 0, e.amountOut);
    } else {
      V2Decoded(e.pool, e.sender, e.recipient, 0, e.amountIn, e.amountOut, 0);
    }
  }

  lemma {:induction false} WordsInjective(v: seq<Word>, w: seq<Word>)
    requires |v| == |w| && Words(v) == Words(w)
    ensures v == w
  {
    forall k: nat | k < |v| ensures v[k] == w[k] {
      WordOfWords(v, k);
      WordOfWords(w, k);
    }
  }

  /** The event tells the whole swap exactly when the pair took one token and gave the other. */
  lemma {:induction false} V2NothingLostIff(pool: Address, sender: Address, recipient: Address,
                         amount0In: Word, amount1In: Word, amount0Out: Word, amount1Out: Word)
    ensures
      var log := V2Log(pool, sender, recipient, amount0In, amount1In, amount0Out, amount1Out);
      && Parse(log).Some?
      && (V2LogOf(Parse(log).value) == log <==>
          if amount0In != 0 then amount1In == 0 && amount0Out == 0 else amount1Out == 0)
  {
    V2Decoded(pool, sender, recipient, amount0In, amount1In, amount0Out, amount1Out);
    var log := V2Log(pool, sender, recipient, amount0In, amount1In, amount0Out, amount1Out);
    var words := [amount0In, amount1In, amount0Out, amount1Out];
    var kept := if amount0In != 0 then [amount0In, 0, 0, amount1Out] else [0, amount1In, amount0Out, 0];
    if V2LogOf(Parse(log).value) == log {
      WordsInjective(kept, words);
      assert kept[1] == words[1] && kept[2] == words[2] && kept[3] == words[3];
    }
  }

  lemma V3Layout(pool: Address, sender: Address, recipient: Address,
                 amount0: Int256, amount1: Int256, sqrtPrice: Word, liquidity: Word, tick: Int256)
    ensures
      var log := V3Log(pool, sender, recipient, amount0, amount1, sqrtPrice, liquidity, tick);
      && |log.data| == 160 && Number(log.topics[0]) == V3_SIGNATURE
      && WordAt(log.data, 0) == Encoded(amount0) && WordAt(log.data, 32) == Encoded(amount1)
  {
    var words := [Encoded(amount0), Encoded(amount1), sqrtPrice, liquidity, Encoded(tick)];
    WordRoundTrip(V3_SIGNATURE);
    WordOfWords(words, 0);
    WordOfWords(words, 1);
  }

  /** Every pair of signed amounts decides the event. */
  lemma {:induction false} V3Decoded(pool: Address, sender: Address, recipient: Address,
                  amount0: Int256, amount1: Int256, sqrtPrice: Word, liquidity: Word, tick: Int256)
    ensures
      Parse(V3Log(pool, sender, recipient, amount0, amount1, sqrtPrice, liquidity, tick)) ==
      Some(if amount0 >= 0
           then Swap(pool, UniswapV3, amount0, if amount1 < 0 then -(amount1 as int) else amount1,
                     sender, recipient, true)
           else Swap(pool, UniswapV3, Encoded(amount1), -(amount0 as int), sender, recipient, false))
  {
    hide Words, WordAt, WordBytes, Encoded, SignBit, Negated;
    V3Layout(pool, sender, recipient, amount0, amount1, sqrtPrice, liquidity, tick);
    PaddedAddress(sender);
    PaddedAddress(recipient);
    SignAndMagnitude(amount0);
    SignAndMagnitude(amount1);
  }

  /** The event says truly what the pool received of one token and paid of the other. */
  predicate TellsTruth(e: Swap, amount0: int, amount1: int) {
    if e.token0IsInput then e.amountIn == amount0 && e.amountOut == -amount1
    else e.amountIn == amount1 && e.amountOut == -amount0
  }

  /** A V3 event is true exactly when the two amounts do not pull the same way; -2^255 is no exception. */
  lemma {:induction false} V3TrueIff(pool: Address, sender: Address, recipient: Address,
                  amount0: Int256, amount1: Int256, sqrtPrice: Word, liquidity: Word, tick: Int256)
    ensures
      var parsed := Parse(V3Log(pool, sender, recipient, amount0, amount1, sqrtPrice, liquidity, tick));
      && parsed.Some?
      && (TellsTruth(parsed.value, amount0, amount1) <==>
          if amount0 >= 0 then amount1 <= 0 else amount1 >= 0)
  {
    V3Decoded(pool, sender, recipient, amount0, amount1, sqrtPrice, liquidity, tick);
    SignAndMagnitude(amount1);
  }

  // ----- Direction, computed three times -----

  type Pair = (Address, Address)

  datatype Sides = Sides(tokenIn: Address, tokenOut: Address)

  datatype ResolveError = NotAPool | TooShort

  /** The indexer's second reading of the raw data, once the pool's tokens are known. */
  function SidesOf(log: Log, dex: Dex, pair: Pair): Result<Sides, ResolveError> {
    match dex
    case UniswapV2 =>
      if |log.data| < 128 then Failure(TooShort)
      else if WordAt(log.data, 0) != 0 then Success(Sides(pair.0, pair.1))
      else Success(Sides(pair.1, pair.0))
    case UniswapV3 =>
      if |log.data| < 64 then Failure(TooShort)
      else if !SignBit(WordAt(log.data, 0)) then Success(Sides(pair.0, pair.1))
      else Success(Sides(pair.1, pair.0))
  }

  /** The engine's reading: the flag in the event and the pool's configured tokens. */
  function EngineTokenOut(e: Swap, pair: Pair): Address {
    if e.token0IsInput then pair.1 else pair.0
  }

  /** For every log that parses at all, all three agree, and resolving cannot find it too short. */
  lemma DirectionsAgree(log: Log, pair: Pair)
    requires Parse(log).Some?
    ensures
      var e := Parse(log).value;
      SidesOf(log, e.dex, pair) == Success(Sides(if e.token0IsInput then pair.0 else pair.1, EngineTokenOut(e, pair)))
  {
  }
}
