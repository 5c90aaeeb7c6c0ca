/** Helpers of the gapless comparison: glob matching, sample hashing, reference search, seek timestamps. */
module Gapless {
  import opened Arithmetic
  import opened Outcomes
  import opened Vectors
  import opened Octets

  // ---------- glob matching ----------

  const STAR: Byte := 0x2A
  const QUESTION: Byte := 0x3F

  function WildcardMatch(pattern: Bytes, value: Bytes): bool
    decreases |pattern| + |value|
  {
    if pattern == [] then value == []
    else if pattern[0] == STAR then
      WildcardMatch(pattern[1..], value) || (value != [] && WildcardMatch(pattern, value[1..]))
    else if pattern[0] == QUESTION then value != [] && WildcardMatch(pattern[1..], value[1..])
    else value != [] && value[0] == pattern[0] && WildcardMatch(pattern[1..], value[1..])
  }

  /** The piece of the value that one pattern byte stands for. */
  ghost predicate StandsFor(symbol: Byte, piece: Bytes) {
    if symbol == STAR then true
    else if symbol == QUESTION then |piece| == 1
    else piece == [symbol]
  }

  ghost function Joined(pieces: seq<Bytes>): Bytes {
    if pieces == [] then [] else pieces[0] + Joined(pieces[1..])
  }

  /** The value falls into pieces, one for each pattern byte. */
  ghost predicate Splits(pattern: Bytes, value: Bytes, pieces: seq<Bytes>) {
    && |pieces| == |pattern|
    && (forall k :: 0 <= k < |pattern| ==> StandsFor(pattern[k], pieces[k]))
    && Joined(pieces) == value
  }

  lemma SplitsCons(pattern: Bytes, value: Bytes, piece: Bytes, rest: seq<Bytes>)
    requires pattern != [] && |piece| <= |value| && value[..|piece|] == piece && StandsFor(pattern[0], piece)
    requires Splits(pattern[1..], value[|piece|..], rest)
    ensures Splits(pattern, value, [piece] + rest)
  {
    var pieces := [piece] + rest;
    assert pieces[1..] == rest;
    assert value == piece + value[|piece|..];
    forall k | 0 <= k < |pattern| ensures StandsFor(pattern[k], pieces[k]) {
      if k > 0 {
        assert StandsFor(pattern[1..][k - 1], rest[k - 1]);
      }
    }
  }

  /** A match exhibits the pieces. */
  lemma {:induction false} MatchSplits(pattern: Bytes, value: Bytes) returns (pieces: seq<Bytes>)
    requires WildcardMatch(pattern, value)
    ensures Splits(pattern, value, pieces)
    decreases |pattern| + |value|
  {
    if pattern == [] {
      pieces := [];
    } else if pattern[0] == STAR && WildcardMatch(pattern[1..], value) {
      var rest := MatchSplits(pattern[1..], value);
      assert value[0..] == value;
      SplitsCons(pattern, value, [], rest);
      pieces := [[]] + rest;
    } else if pattern[0] == STAR {
      var shorter := MatchSplits(pattern, value[1..]);
      pieces := [[value[0]] + shorter[0]] + shorter[1..];
      assert value == [value[0]] + value[1..];
      assert pieces[1..] == shorter[1..];
      assert forall k :: 0 < k < |pattern| ==> pieces[k] == shorter[k];
    } else {
      var rest := MatchSplits(pattern[1..], value[1..]);
      SplitsCons(pattern, value, [value[0]], rest);
      pieces := [[value[0]]] + rest;
    }
  }

  lemma SplitsTail(pattern: Bytes, value: Bytes, pieces: seq<Bytes>)
    requires pattern != [] && Splits(pattern, value, pieces)
    ensures |pieces[0]| <= |value| && value[..|pieces[0]|] == pieces[0]
    ensures Splits(pattern[1..], value[|pieces[0]|..], pieces[1..])
  {
    assert value == pieces[0] + Joined(pieces[1..]);
    forall k | 0 <= k < |pattern| - 1 ensures StandsFor(pattern[1..][k], pieces[1..][k]) {
      assert StandsFor(pattern[k + 1], pieces[k + 1]);
    }
  }

  /** Pieces make a match. */
  lemma {:induction false} SplitsMatch(pattern: Bytes, value: Bytes, pieces: seq<Bytes>)
    requires Splits(pattern, value, pieces)
    ensures WildcardMatch(pattern, value)
    decreases |pattern| + |value|
  {
    if pattern != [] {
      SplitsTail(pattern, value, pieces);
      if pattern[0] == STAR {
        StarMatch(pattern, value, pieces, |pieces[0]|);
      } else {
        SplitsMatch(pattern[1..], value[1..], pieces[1..]);
      }
    }
  }

  /** A star may swallow any n leading bytes. */
  lemma {:induction false} StarMatch(pattern: Bytes, value: Bytes, pieces: seq<Bytes>, n: nat)
    requires pattern != [] && pattern[0] == STAR && n <= |value|
    requires pieces != [] && Splits(pattern[1..], value[n..], pieces[1..])
    ensures WildcardMatch(pattern, value)
    decreases |pattern| + |value|, 0
  {
    if n == 0 {
      assert value[0..] == value;
      SplitsMatch(pattern[1..], value, pieces[1..]);
    } else {
      assert value[1..][n - 1..] == value[n..];
      StarMatch(pattern, value[1..], pieces, n - 1);
    }
  }

  /** The matcher says yes exactly when the value splits into pieces that the pattern allows. */
  lemma MatchIffSplits(pattern: Bytes, value: Bytes)
    ensures WildcardMatch(pattern, value) <==> exists pieces :: Splits(pattern, value, pieces)
  {
    if WildcardMatch(pattern, value) {
      var pieces := MatchSplits(pattern, value);
    }
    if pieces :| Splits(pattern, value, pieces) {
      SplitsMatch(pattern, value, pieces);
    }
  }

  // ---------- sample hashing ----------

  const WORD := 0x1_0000_0000_0000_0000
  const FNV_OFFSET: Word := 0xcbf29ce484222325
  const FNV_PRIME: Word := 0x100000001b3
  const FNV_PRIME_INVERSE: Word := 0xce965057aff6957b

  /** An unsigned 64-bit word. */
  type Word = n: int | 0 <= n < 0x1_0000_0000_0000_0000

  function PowerOfTwo(width: nat): (p: nat)
    ensures p > 0
  {
    if width == 0 then 1 else 2 * PowerOfTwo(width - 1)
  }

  lemma {:induction false} PowersMultiply(a: nat, b: nat)
    ensures PowerOfTwo(a + b) == PowerOfTwo(a) * PowerOfTwo(b)
  {
    if a > 0 {
      PowersMultiply(a - 1, b);
    }
  }

  lemma WordWidth()
    ensures PowerOfTwo(64) == WORD
  {
    assert PowerOfTwo(4) == 0x10;
    PowersMultiply(4, 4);
    PowersMultiply(8, 8);
    PowersMultiply(16, 16);
    PowersMultiply(32, 32);
  }

  /** Exclusive or of the low `width` bits. */
  function XorBits(a: nat, b: nat, width: nat): (x: nat)
    ensures x < PowerOfTwo(width)
  {
    if width == 0 then 0 else 2 * XorBits(a / 2, b / 2, width - 1) + (a % 2 + b % 2) % 2
  }

  function Xor(a: Word, b: Word): Word {
    WordWidth();
    XorBits(a, b, 64)
  }

  lemma LastBit(y: nat, bit: nat)
    requires bit < 2
    ensures (2 * y + bit) / 2 == y && (2 * y + bit) % 2 == bit
  {
  }

  lemma BitTwice(p: nat, q: nat)
    requires p < 2 && q < 2
    ensures ((p + q) % 2 + q) % 2 == p && (p + q) % 2 < 2
  {
  }

  lemma {:induction false} XorBitsInvert(a: nat, b: nat, width: nat)
    requires a < PowerOfTwo(width)
    ensures XorBits(XorBits(a, b, width), b, width) == a
  {
    hide XorBits;
    if width == 0 {
      XorNothing(a, b);
      XorNothing(XorBits(a, b, 0), b);
    } else {
      var y, p, q := XorBits(a / 2, b / 2, width - 1), a % 2, b % 2;
      var bit := (p + q) % 2;
      XorBitsInvert(a / 2, b / 2, width - 1);
      BitTwice(p, q);
      LastBit(y, bit);
      XorStep(a, b, width);
      XorStep(2 * y + bit, b, width);
    }
  }

  lemma XorNothing(a: nat, b: nat)
    ensures XorBits(a, b, 0) == 0
  {
  }

  lemma XorStep(a: nat, b: nat, width: nat)
    requires width > 0
    ensures XorBits(a, b, width) == 2 * XorBits(a / 2, b / 2, width - 1) + (a % 2 + b % 2) % 2
  {
  }

  /** Bit i of a word, the lowest first. */
  function BitAt(x: nat, i: nat): nat {
    if i == 0 then x % 2 else BitAt(x / 2, i - 1)
  }

  /** Every bit of the exclusive or is set exactly when the bits of the two words differ. */
  lemma {:induction false} XorBitAt(a: nat, b: nat, width: nat, i: nat)
    requires i < width
    ensures BitAt(XorBits(a, b, width), i) == if BitAt(a, i) == BitAt(b, i) then 0 else 1
  {
    var y, bit := XorBits(a / 2, b / 2, width - 1), (a % 2 + b % 2) % 2;
    XorStep(a, b, width);
    LastBit(y, bit);
    if i > 0 {
      XorBitAt(a / 2, b / 2, width - 1, i - 1);
    }
  }

  lemma {:induction false} XorBitsCommute(a: nat, b: nat, width: nat)
    ensures XorBits(a, b, width) == XorBits(b, a, width)
  {
    if width > 0 {
      XorBitsCommute(a / 2, b / 2, width - 1);
    }
  }

  /** Exclusive or with the same word twice changes nothing, so different words give different results. */
  lemma XorInverts(a: Word, b: Word)
    ensures Xor(Xor(a, b), b) == a
    ensures Xor(a, b) == Xor(b, a)
  {
    WordWidth();
    hide PowerOfTwo, XorBits;
    XorBitsInvert(a, b, 64);
    XorBitsCommute(a, b, 64);
  }

  /** Wrapping multiplication. */
  function WrappingMul(a: Word, b: Word): Word {
    (a * b) % WORD
  }

  /** Multiplying by two words whose product is one modulo the word size changes nothing. */
  lemma MulInverts(a: Word, p: Word, q: Word, k: nat)
    requires p * q == 1 + k * WORD
    ensures WrappingMul(WrappingMul(a, p), q) == a
  {
    var w, t := WrappingMul(a, p), (a * p) / WORD;
    assert a * p == t * WORD + w;
    Regroup(a, p, q, k, w, t, WORD);
    DivModUnique(w * q, WORD, a * k - t * q, a);
  }

  lemma Regroup(a: int, p: int, q: int, k: int, w: int, t: int, m: int)
    requires p * q == 1 + k * m && a * p == t * m + w
    ensures w * q == (a * k - t * q) * m + a
  {
    calc {
      w * q;
      (a * p - t * m) * q;
      a * (p * q) - (t * q) * m;
      a * (1 + k * m) - (t * q) * m;
      (a * k - t * q) * m + a;
    }
  }

  /** The FNV prime is odd, so it has an inverse modulo 2^64. */
  lemma PrimeInverts(a: Word)
    ensures WrappingMul(WrappingMul(a, FNV_PRIME), FNV_PRIME_INVERSE) == a
    ensures WrappingMul(WrappingMul(a, FNV_PRIME_INVERSE), FNV_PRIME) == a
  {
    assert FNV_PRIME * FNV_PRIME_INVERSE == 1 + 0xce9650590f * WORD;
    hide WrappingMul;
    MulInverts(a, FNV_PRIME, FNV_PRIME_INVERSE, 0xce9650590f);
    MulInverts(a, FNV_PRIME_INVERSE, FNV_PRIME, 0xce9650590f);
  }

  /** One sample's bits enter the hash. */
  function FnvStep(hash: Word, bits: Word): Word {
    WrappingMul(Xor(hash, bits), FNV_PRIME)
  }

  function FnvUnstep(hash: Word, bits: Word): Word {
    Xor(WrappingMul(hash, FNV_PRIME_INVERSE), bits)
  }

  ghost function FnvFold(hash: Word, samples: seq<Word>): Word
    decreases |samples|
  {
    if samples == [] then hash else FnvFold(FnvStep(hash, samples[0]), samples[1..])
  }

  /** Extends a hash by the bit patterns of a chunk of samples. */
  method Fnv1aExtend(hash: Word, samples: seq<Word>) returns (extended: Word)
    ensures extended == FnvFold(hash, samples)
  {
    hide FnvStep;
    extended := hash;
    for k := 0 to |samples|
      invariant FnvFold(extended, samples[k..]) == FnvFold(hash, samples)
    {
      assert samples[k..][1..] == samples[k + 1..];
      extended := FnvStep(extended, samples[k]);
    }
  }

  /** The hash of a whole stream. */
  method Fnv1a(samples: seq<Word>) returns (hash: Word)
    ensures hash == FnvFold(FNV_OFFSET, samples)
  {
    hash := Fnv1aExtend(FNV_OFFSET, samples);
  }

  /** Only the concatenated stream matters, not how it was cut into chunks. */
  lemma {:induction false} FnvChunks(hash: Word, a: seq<Word>, b: seq<Word>)
    ensures FnvFold(FnvFold(hash, a), b) == FnvFold(hash, a + b)
    decreases |a|
  {
    hide FnvStep;
    if a == [] {
      assert a + b == b;
    } else {
      assert (a + b)[1..] == a[1..] + b;
      FnvChunks(FnvStep(hash, a[0]), a[1..], b);
    }
  }

  /** A step can be undone: the prime is odd, so multiplying by it is invertible modulo 2^64. */
  lemma StepInverts(hash: Word, bits: Word)
    ensures FnvUnstep(FnvStep(hash, bits), bits) == hash
    ensures FnvStep(FnvUnstep(hash, bits), bits) == hash
  {
    hide WrappingMul, Xor;
    PrimeInverts(Xor(hash, bits));
    PrimeInverts(hash);
    XorInverts(hash, bits);
    XorInverts(WrappingMul(hash, FNV_PRIME_INVERSE), bits);
  }

  /** Different bits take one hash to different hashes. */
  lemma StepSeparates(hash: Word, a: Word, b: Word)
    requires FnvStep(hash, a) == FnvStep(hash, b)
    ensures a == b
  {
    hide WrappingMul, Xor;
    PrimeInverts(Xor(hash, a));
    PrimeInverts(Xor(hash, b));
    XorInverts(a, hash);
    XorInverts(b, hash);
  }

  ghost function FnvUnfold(hash: Word, samples: seq<Word>): Word
    decreases |samples|
  {
    if samples == [] then hash else FnvUnstep(FnvUnfold(hash, samples[1..]), samples[0])
  }

  /** For a fixed stream the hash is a bijection of the incoming hash. */
  lemma {:induction false} FnvBijective(hash: Word, samples: seq<Word>)
    ensures FnvUnfold(FnvFold(hash, samples), samples) == hash
    ensures FnvFold(FnvUnfold(hash, samples), samples) == hash
    decreases |samples|
  {
    hide FnvStep, FnvUnstep;
    if samples != [] {
      FnvBijective(FnvStep(hash, samples[0]), samples[1..]);
      StepInverts(hash, samples[0]);
      FnvBijective(hash, samples[1..]);
      StepInverts(FnvUnfold(hash, samples[1..]), samples[0]);
    }
  }

  /** Changing exactly one sample's bits always changes the hash. */
  lemma OneSampleDetected(hash: Word, before: seq<Word>, a: Word, b: Word, after: seq<Word>)
    requires a != b
    ensures FnvFold(hash, before + [a] + after) != FnvFold(hash, before + [b] + after)
  {
    hide FnvStep, FnvUnstep;
    var h := FnvFold(hash, before);
    FnvChunks(hash, before + [a], after);
    FnvChunks(hash, before + [b], after);
    FnvChunks(hash, before, [a]);
    FnvChunks(hash, before, [b]);
    var x, y := FnvFold(h, [a]), FnvFold(h, [b]);
    assert x == FnvStep(h, a) && y == FnvStep(h, b);
    FnvBijective(x, after);
    FnvBijective(y, after);
    if FnvFold(x, after) == FnvFold(y, after) {
      StepSeparates(h, a, b);
    }
  }

  // ---------- reference search ----------

  const SEEK_SEARCH_RADIUS_FRAMES := 8192
  const SEEK_COMPARE_FRAMES := 128

  /** The largest magnitude among the first n differences. */
  ghost function LargestDelta(left: seq<real>, right: seq<real>, n: nat): real
    requires n <= |left| && n <= |right|
  {
    if n == 0 then 0.0 else Larger(LargestDelta(left, right, n - 1), Abs(left[n - 1] - right[n - 1]))
  }

  /** The sum of the first n squared differences. */
  ghost function SquaredDelta(left: seq<real>, right: seq<real>, n: nat): real
    requires n <= |left| && n <= |right|
  {
    if n == 0 then 0.0
    else SquaredDelta(left, right, n - 1) + Mul(left[n - 1] - right[n - 1], left[n - 1] - right[n - 1])
  }

  /** The largest difference bounds every difference and is one of them. */
  lemma {:induction false} LargestBounds(left: seq<real>, right: seq<real>, n: nat)
    requires n <= |left| && n <= |right|
    ensures forall k :: 0 <= k < n ==> Abs(left[k] - right[k]) <= LargestDelta(left, right, n)
    ensures n > 0 ==> exists k :: 0 <= k < n && LargestDelta(left, right, n) == Abs(left[k] - right[k])
    ensures n == 0 ==> LargestDelta(left, right, n) == 0.0
  {
    if n > 0 {
      LargestBounds(left, right, n - 1);
      var here := Abs(left[n - 1] - right[n - 1]);
      if LargestDelta(left, right, n - 1) >= here && n > 1 {
        var k :| 0 <= k < n - 1 && LargestDelta(left, right, n - 1) == Abs(left[k] - right[k]);
        assert LargestDelta(left, right, n) == Abs(left[k] - right[k]);
      } else {
        assert LargestDelta(left, right, n) == Abs(left[n - 1] - right[n - 1]);
      }
    }
  }

  /** The summed squares are those of the differences. */
  lemma {:induction false} SquaresOfDifferences(left: seq<real>, right: seq<real>, delta: seq<real>, n: nat)
    requires n <= |left| && n <= |right| && n <= |delta|
    requires forall k :: 0 <= k < n ==> delta[k] == left[k] - right[k]
    ensures SquaredDelta(left, right, n) == Dot(delta, delta, n)
  {
    hide Mul;
    if n > 0 {
      SquaresOfDifferences(left, right, delta, n - 1);
    }
  }

  function Shorter(left: seq<real>, right: seq<real>): nat {
    if |left| < |right| then |left| else |right|
  }

  lemma MagnitudeSquared(v: real)
    ensures Mul(Abs(v), Abs(v)) == Mul(v, v)
  {
  }

  /** The largest difference and the mean squared difference over the common length; nothing when there is none. */
  method SampleDelta(left: seq<real>, right: seq<real>) returns (r: Option<(real, real)>)
    ensures r.None? <==> Shorter(left, right) == 0
    ensures r.Some? ==>
      var n := Shorter(left, right);
      r.value == (LargestDelta(left, right, n), SquaredDelta(left, right, n) / n as real)
  {
    var count := Shorter(left, right);
    if count == 0 {
      return None;
    }
    hide Mul;
    var maxAbs, sumSq := 0.0, 0.0;
    for k := 0 to count
      invariant maxAbs == LargestDelta(left, right, k)
      invariant sumSq == SquaredDelta(left, right, k)
    {
      var delta := Abs(left[k] - right[k]);
      maxAbs := Larger(maxAbs, delta);
      MagnitudeSquared(left[k] - right[k]);
      sumSq := sumSq + Mul(delta, delta);
    }
    r := Some((maxAbs, sumSq / count as real));
  }

  /** The span of start frames that the search tries. */
  datatype Search = Search(compareSamples: nat, low: nat, high: nat)

  function SearchSpan(referenceLength: nat, chunkLength: nat, center: nat, channels: nat): Search
    requires channels > 0
  {
    var limit := SEEK_COMPARE_FRAMES * channels;
    var compareSamples := if chunkLength < limit then chunkLength else limit;
    var compareFrames, totalFrames := compareSamples / channels, referenceLength / channels;
    var maxStart := if compareFrames <= totalFrames then totalFrames - compareFrames else 0;
    var below := if center >= SEEK_SEARCH_RADIUS_FRAMES then center - SEEK_SEARCH_RADIUS_FRAMES else 0;
    var above := center + SEEK_SEARCH_RADIUS_FRAMES;
    Search(compareSamples, if below < maxStart then below else maxStart, if above < maxStart then above else maxStart)
  }

  /** Every slice the search takes lies inside the reference. */
  ghost predicate SlicesFit(referenceLength: nat, s: Search, channels: nat) {
    forall frame: nat :: s.low <= frame <= s.high ==> At(frame, channels) + s.compareSamples <= referenceLength
  }

  /** The frames of the compared part: the whole frames of the chunk, 128 at most. */
  function ComparedFrames(chunkLength: nat, channels: nat): nat
    requires channels > 0
  {
    var whole := chunkLength / channels;
    if whole < 128 then whole else 128
  }

  /** A start frame worth trying: within the radius of the centre, with the compared frames still in the reference. */
  predicate Candidate(referenceLength: nat, chunkLength: nat, center: nat, channels: nat, frame: nat)
    requires channels > 0
  {
    && center <= frame + 8192 && frame <= center + 8192
    && frame + ComparedFrames(chunkLength, channels) <= referenceLength / channels
  }

  /** The search compares the chunk, or its first 128 frames. */
  lemma ComparedPart(referenceLength: nat, chunkLength: nat, center: nat, channels: nat)
    requires channels > 0
    ensures var s := SearchSpan(referenceLength, chunkLength, center, channels);
      && s.compareSamples == (if chunkLength < 128 * channels then chunkLength else 128 * channels)
      && s.compareSamples / channels == ComparedFrames(chunkLength, channels)
  {
    DivModUnique(128 * channels, channels, 128, 0);
    if chunkLength < 128 * channels {
      WholeBelow(chunkLength, 128, channels);
    } else {
      DivMonotone(128 * channels, chunkLength, channels);
    }
  }

  lemma WholeBelow(n: nat, k: nat, channels: nat)
    requires channels > 0 && n < k * channels
    ensures n / channels < k
  {
    if n / channels >= k {
      ProductBound(k, channels, n / channels, channels);
      assert false;
    }
  }

  /** The span holds exactly the candidates, whenever there is one. */
  lemma SpanIsCandidates(referenceLength: nat, chunkLength: nat, center: nat, channels: nat, some: nat, frame: nat)
    requires channels > 0 && Candidate(referenceLength, chunkLength, center, channels, some)
    ensures var s := SearchSpan(referenceLength, chunkLength, center, channels);
      s.low <= frame <= s.high <==> Candidate(referenceLength, chunkLength, center, channels, frame)
  {
    ComparedPart(referenceLength, chunkLength, center, channels);
  }

  /** All slices fit exactly when the last one does. */
  lemma LastSliceDecides(referenceLength: nat, s: Search, channels: nat)
    requires s.low <= s.high
    ensures SlicesFit(referenceLength, s, channels) <==> At(s.high, channels) + s.compareSamples <= referenceLength
  {
    if At(s.high, channels) + s.compareSamples <= referenceLength {
      forall frame: nat | s.low <= frame <= s.high
        ensures At(frame, channels) + s.compareSamples <= referenceLength
      {
        assert s.high * channels == frame * channels + (s.high - frame) * channels;
        NonNegativeProduct(s.high - frame, channels);
      }
    }
  }

  lemma LastSpanFits(high: nat, frames: nat, compared: nat, length: nat, channels: nat)
    requires channels > 0 && compared == frames * channels && compared <= length
    requires high + frames <= length / channels
    ensures high * channels + compared <= length
  {
    var total := length / channels;
    ProductBound(high + frames, channels, total, channels);
    assert (high + frames) * channels == high * channels + frames * channels;
    assert length == total * channels + length % channels;
  }

  /** For a chunk of whole frames every comparison is in bounds exactly when the reference holds the compared
    * samples.
    */
  lemma WholeFramesFit(referenceLength: nat, chunkLength: nat, center: nat, channels: nat)
    requires channels > 0 && chunkLength % channels == 0
    ensures var s := SearchSpan(referenceLength, chunkLength, center, channels);
      SlicesFit(referenceLength, s, channels) <==> s.compareSamples <= referenceLength
  {
    var s := SearchSpan(referenceLength, chunkLength, center, channels);
    LastSliceDecides(referenceLength, s, channels);
    NonNegativeProduct(s.high, channels);
    if s.compareSamples <= referenceLength {
      WholeSamples(chunkLength, channels);
      DivMonotone(s.compareSamples, referenceLength, channels);
      LastSpanFits(s.high, s.compareSamples / channels, s.compareSamples, referenceLength, channels);
    }
    hide SearchSpan, SlicesFit;
  }

  lemma WholeSamples(chunkLength: nat, channels: nat)
    requires channels > 0 && chunkLength % channels == 0
    ensures var limit := SEEK_COMPARE_FRAMES * channels;
      var compared := if chunkLength < limit then chunkLength else limit;
      compared == (compared / channels) * channels
  {
    DivModUnique(SEEK_COMPARE_FRAMES * channels, channels, SEEK_COMPARE_FRAMES, 0);
    assert chunkLength == (chunkLength / channels) * channels;
  }

  /** A chunk that ends inside a frame can make the last slice run past the reference. */
  lemma PartialFrameOverruns()
    ensures !SlicesFit(4, SearchSpan(4, 3, 1, 2), 2)
  {
    var s := SearchSpan(4, 3, 1, 2);
    assert s.compareSamples == 3 && s.high == 1;
    LastSliceDecides(4, s, 2);
    assert At(1, 2) == 2;
  }

  /** Without a candidate only the last possible start is tried. */
  lemma SpanWithoutCandidates(referenceLength: nat, chunkLength: nat, center: nat, channels: nat)
    requires channels > 0
    requires forall frame: nat :: !Candidate(referenceLength, chunkLength, center, channels, frame)
    ensures var s := SearchSpan(referenceLength, chunkLength, center, channels);
      s.low == s.high == LastStart(referenceLength, chunkLength, channels)
  {
    ComparedPart(referenceLength, chunkLength, center, channels);
    var last := LastStart(referenceLength, chunkLength, channels);
    var near := if center <= last then center else last;
    assert !Candidate(referenceLength, chunkLength, center, channels, near);
  }

  /** The last start frame from which the compared frames stay in the reference, or zero. */
  function LastStart(referenceLength: nat, chunkLength: nat, channels: nat): nat
    requires channels > 0
  {
    var total, compared := referenceLength / channels, ComparedFrames(chunkLength, channels);
    if compared <= total then total - compared else 0
  }

  /** The mean squared difference of the compared samples from one start sample on. */
  ghost function MeanDelta(reference: seq<real>, chunk: seq<real>, start: nat, n: nat): real
    requires 0 < n <= |chunk| && start + n <= |reference|
  {
    SquaredDelta(chunk[..n], reference[start..start + n], n) / n as real
  }

  /** Mean squared difference between the compared part of the chunk and the reference from a start frame. */
  ghost function ErrorAt(reference: seq<real>, chunk: seq<real>, s: Search, channels: nat, frame: nat): real
    requires 0 < s.compareSamples <= |chunk| && At(frame, channels) + s.compareSamples <= |reference|
  {
    MeanDelta(reference, chunk, At(frame, channels), s.compareSamples)
  }

  /** The start frame whose samples differ least from the chunk, the earliest of several. */
  method NearestReference(reference: seq<real>, chunk: seq<real>, center: nat, channels: nat)
    returns (frame: nat, error: Option<real>)
    requires var c := if channels > 1 then channels else 1;
      SlicesFit(|reference|, SearchSpan(|reference|, |chunk|, center, c), c)
    ensures reference == [] || chunk == [] ==> frame == 0 && error == None
    ensures reference != [] && chunk != [] ==>
      var c := if channels > 1 then channels else 1;
      var s := SearchSpan(|reference|, |chunk|, center, c);
      && s.low <= frame <= s.high && 0 < s.compareSamples <= |chunk|
      && At(frame, c) + s.compareSamples <= |reference|
      && error == Some(ErrorAt(reference, chunk, s, c, frame))
      && forall other: nat :: s.low <= other <= s.high ==>
           At(other, c) + s.compareSamples <= |reference|
           && (if other < frame then ErrorAt(reference, chunk, s, c, frame) < ErrorAt(reference, chunk, s, c, other)
               else ErrorAt(reference, chunk, s, c, frame) <= ErrorAt(reference, chunk, s, c, other))
    ensures reference != [] && chunk != [] ==>
      NearestCandidate(reference, chunk, center, if channels > 1 then channels else 1, frame, error)
  {
    if reference == [] || chunk == [] {
      return 0, None;
    }
    var c := if channels > 1 then channels else 1;
    var s := SearchSpan(|reference|, |chunk|, center, c);
    assert 0 < s.compareSamples <= |chunk| && s.low <= s.high;
    frame, error := NearestIn(reference, chunk, s, c);
    SpanAnswers(reference, chunk, center, c, frame, error);
  }

  /** Among the candidates the frame is the earliest of least difference; without one it is the last possible start. */
  ghost predicate NearestCandidate(reference: seq<real>, chunk: seq<real>, center: nat, channels: nat, frame: nat,
      error: Option<real>)
    requires channels > 0
  {
    var n := if |chunk| < 128 * channels then |chunk| else 128 * channels;
    && 0 < n <= |chunk| && At(frame, channels) + n <= |reference|
    && error == Some(MeanDelta(reference, chunk, At(frame, channels), n))
    && (if exists k: nat :: Candidate(|reference|, |chunk|, center, channels, k) then
          && Candidate(|reference|, |chunk|, center, channels, frame)
          && forall other: nat :: Candidate(|reference|, |chunk|, center, channels, other) ==>
               && At(other, channels) + n <= |reference|
               && (if other < frame then error.value < MeanDelta(reference, chunk, At(other, channels), n)
                   else error.value <= MeanDelta(reference, chunk, At(other, channels), n))
        else frame == LastStart(|reference|, |chunk|, channels))
  }

  lemma SpanAnswers(reference: seq<real>, chunk: seq<real>, center: nat, channels: nat, frame: nat, error: Option<real>)
    requires channels > 0 && chunk != []
    requires var s := SearchSpan(|reference|, |chunk|, center, channels);
      && s.low <= frame <= s.high && 0 < s.compareSamples <= |chunk|
      && At(frame, channels) + s.compareSamples <= |reference|
      && error == Some(ErrorAt(reference, chunk, s, channels, frame))
      && forall other: nat :: s.low <= other <= s.high ==>
           At(other, channels) + s.compareSamples <= |reference|
           && (if other < frame then error.value < ErrorAt(reference, chunk, s, channels, other)
               else error.value <= ErrorAt(reference, chunk, s, channels, other))
    ensures NearestCandidate(reference, chunk, center, channels, frame, error)
  {
    var s := SearchSpan(|reference|, |chunk|, center, channels);
    ComparedPart(|reference|, |chunk|, center, channels);
    hide SearchSpan, Candidate, At, MeanDelta, ComparedFrames, LastStart;
    if k: nat :| Candidate(|reference|, |chunk|, center, channels, k) {
      SpanIsCandidates(|reference|, |chunk|, center, channels, k, frame);
      forall other: nat | Candidate(|reference|, |chunk|, center, channels, other)
        ensures s.low <= other <= s.high
      {
        SpanIsCandidates(|reference|, |chunk|, center, channels, k, other);
      }
    } else {
      SpanWithoutCandidates(|reference|, |chunk|, center, channels);
    }
  }


  method NearestIn(reference: seq<real>, chunk: seq<real>, s: Search, channels: nat)
    returns (best: nat, error: Option<real>)
    requires 0 < s.compareSamples <= |chunk| && s.low <= s.high && SlicesFit(|reference|, s, channels)
    ensures s.low <= best <= s.high && At(best, channels) + s.compareSamples <= |reference|
    ensures error == Some(ErrorAt(reference, chunk, s, channels, best))
    ensures forall other: nat :: s.low <= other <= s.high ==>
      At(other, channels) + s.compareSamples <= |reference|
      && (if other < best
          then ErrorAt(reference, chunk, s, channels, best) < ErrorAt(reference, chunk, s, channels, other)
          else ErrorAt(reference, chunk, s, channels, best) <= ErrorAt(reference, chunk, s, channels, other))
  {
    hide At, SquaredDelta;
    best, error := s.low, None;
    for frame: nat := s.low to s.high + 1
      invariant s.low <= best <= s.high && (frame > s.low ==> best < frame)
      invariant error.None? <==> frame == s.low
      invariant error.Some? ==> At(best, channels) + s.compareSamples <= |reference|
      invariant error.Some? ==> error.value == ErrorAt(reference, chunk, s, channels, best)
      invariant error.Some? ==> forall other: nat :: s.low <= other < frame ==>
        At(other, channels) + s.compareSamples <= |reference|
        && (if other < best then error.value < ErrorAt(reference, chunk, s, channels, other)
            else error.value <= ErrorAt(reference, chunk, s, channels, other))
    {
      var start := At(frame, channels);
      var delta := SampleDelta(chunk[..s.compareSamples], reference[start..start + s.compareSamples]);
      var rms := delta.value.1;
      assert rms == ErrorAt(reference, chunk, s, channels, frame);
      if error.None? || rms < error.value {
        best, error := frame, Some(rms);
      }
    }
  }

  // ---------- seek timestamps ----------

  const I64_MIN := -0x8000_0000_0000_0000
  const I64_MAX := 0x7FFF_FFFF_FFFF_FFFF
  const U64_MAX := 0xFFFF_FFFF_FFFF_FFFF
  const I128_MAX := 0x7FFF_FFFF_FFFF_FFFF_FFFF_FFFF_FFFF_FFFF

  type I64 = n: int | -0x8000_0000_0000_0000 <= n <= 0x7FFF_FFFF_FFFF_FFFF

  type U32 = n: int | 0 <= n <= 0xFFFF_FFFF

  datatype TimeBase = TimeBase(numer: U32, denom: U32)

  function CheckedMul(a: int, b: int): Option<int> {
    if -I128_MAX - 1 <= a * b <= I128_MAX then Some(a * b) else None
  }

  function FrameOffset(timestamp: I64, start: I64, timeBase: Option<TimeBase>, sampleRate: U32): Option<nat>
    requires timeBase.Some? ==> timeBase.value.denom > 0
  {
    var relative := timestamp - start;
    if relative < I64_MIN || relative > I64_MAX then None
    else if relative <= 0 then Some(0)
    else if timeBase.None? then Some(relative)
    else
      var product := CheckedMul(relative, timeBase.value.numer);
      var numerator := if product.Some? then CheckedMul(product.value, sampleRate) else None;
      if numerator.None? then None
      else
        var frames := numerator.value / timeBase.value.denom;
        if 0 <= frames <= U64_MAX then Some(frames) else None
  }

  /** What a seek offset is: nothing for a difference outside 64 bits, zero for none, the difference itself
    * without a time base, and otherwise the whole part of the exact quotient if it fits; the intermediate
    * products never overflow.
    */
  lemma OffsetExact(timestamp: I64, start: I64, timeBase: Option<TimeBase>, sampleRate: U32)
    requires timeBase.Some? ==> timeBase.value.denom > 0
    ensures var relative, offset := timestamp - start, FrameOffset(timestamp, start, timeBase, sampleRate);
      && (relative < I64_MIN || relative > I64_MAX ==> offset == None)
      && (I64_MIN <= relative <= 0 ==> offset == Some(0))
      && (0 < relative <= I64_MAX && timeBase.None? ==> offset == Some(relative))
      && (0 < relative <= I64_MAX && timeBase.Some? ==>
            var numerator := relative * timeBase.value.numer * sampleRate;
            var frames := numerator / timeBase.value.denom;
            offset == (if frames <= U64_MAX then Some(frames) else None)
              && Floors(frames, numerator, timeBase.value.denom))
  {
    var relative := timestamp - start;
    if 0 < relative <= I64_MAX && timeBase.Some? {
      ProductBound(relative, timeBase.value.numer, I64_MAX, 0xFFFF_FFFF);
      var product := relative * timeBase.value.numer;
      ProductBound(product, sampleRate, I64_MAX * 0xFFFF_FFFF, 0xFFFF_FFFF);
      QuotientFloors(product * sampleRate, timeBase.value.denom);
    }
  }

  /** frames is the whole part of numerator over denom. */
  ghost predicate Floors(frames: int, numerator: int, denom: nat) {
    frames >= 0 && frames * denom <= numerator < (frames + 1) * denom
  }

  lemma QuotientFloors(n: nat, denom: nat)
    requires denom > 0
    ensures Floors(n / denom, n, denom)
  {
    var q := n / denom;
    assert n == q * denom + n % denom;
    assert (q + 1) * denom == q * denom + denom;
  }
}
