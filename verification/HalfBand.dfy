/** The Kaiser-windowed half-band lowpass design: a symmetric kernel, zero at even offsets, of unity gain at
  * zero frequency.
  */
module HalfBand {
  import opened Vectors
  import opened Bessel

  const GUARD := 0.000000000001

  /** The circle constant, the trigonometric functions and the square root the design calls. */
  datatype Functions = Functions(pi: real, sine: real -> real, cosine: real -> real, root: real -> real)

  /** The few facts about them that the results below rest on. */
  ghost predicate TrueFunctions(f: Functions) {
    && f.pi >= 3.0 && OddSine(f)
    && f.sine(f.pi * 0.5) == 1.0
    && (forall x: real :: f.sine(x + f.pi) == -f.sine(x))
    && f.cosine(0.0) == 1.0
    && (forall x: real :: f.cosine(-x) == f.cosine(x))
    && (forall x: real :: f.cosine(x + f.pi) == -f.cosine(x))
    && (forall x: real :: x >= 0.0 ==> Mul(f.root(x), f.root(x)) == x)
  }

  /** All that symmetry needs of the sine. */
  ghost predicate OddSine(f: Functions) {
    forall x: real :: f.sine(-x) == -f.sine(x)
  }

  lemma TrueSineIsOdd(f: Functions)
    requires TrueFunctions(f)
    ensures OddSine(f)
  {
  }

  /** The lengths the source accepts: 4m + 3. */
  predicate HalfBandLength(taps: nat) {
    taps % 2 == 1 && ((taps - 1) / 2) % 2 == 1
  }

  function Centre(taps: nat): nat {
    taps / 2
  }

  predicate Carried(d: int) {
    d == 0 || d % 2 != 0
  }

  // ---------- one coefficient ----------

  function Position(taps: nat, i: nat): real
    requires taps > 1
  {
    2.0 * i as real / (taps - 1) as real - 1.0
  }

  function Argument(f: Functions, taps: nat, beta: real, i: nat): real
    requires taps > 1
  {
    var x := Position(taps, i);
    Mul(beta, f.root(1.0 - Mul(x, x)))
  }

  ghost function Order0(value: real): (r: real)
    ensures r >= 1.0
  {
    QuarterSquareSign(value);
    TruncationBound(QuarterSquare(value), TERM_LIMIT);
    Truncated(QuarterSquare(value))
  }

  ghost function Window(f: Functions, taps: nat, beta: real, i: nat): real
    requires taps > 1
  {
    Order0(Argument(f, taps, beta, i)) / Order0(beta)
  }

  function HalfTurns(f: Functions, d: int): real {
    Mul(f.pi, d as real)
  }

  function Ideal(f: Functions, d: int): real
    requires f.pi > 0.0
  {
    if d == 0 then 0.5
    else if d % 2 == 0 then 0.0
    else
      HalfTurnsNonzero(f, d);
      f.sine(HalfTurns(f, d) * 0.5) / HalfTurns(f, d)
  }

  lemma HalfTurnsNonzero(f: Functions, d: int)
    requires f.pi > 0.0 && d != 0
    ensures HalfTurns(f, d) != 0.0
  {
    if HalfTurns(f, d) == 0.0 {
      ZeroProduct(f.pi, d as real);
    }
  }

  ghost function Designed(f: Functions, taps: nat, beta: real, i: nat): real
    requires taps > 1 && f.pi > 0.0
  {
    Ideal(f, i - Centre(taps)) * Window(f, taps, beta, i)
  }

  ghost function DesignedKernel(f: Functions, taps: nat, beta: real): (k: seq<real>)
    requires taps > 1 && f.pi > 0.0
    ensures |k| == taps
  {
    seq(taps, i requires 0 <= i < taps => Designed(f, taps, beta, i))
  }

  // ---------- the rescaling ----------

  /** What the summing loop has after its first n positions. */
  ghost function CarriedSum(k: seq<real>, centre: int, n: nat): real
    requires n <= |k|
  {
    if n == 0 then 0.0
    else CarriedSum(k, centre, n - 1) + if Carried(n - 1 - centre) then k[n - 1] else 0.0
  }

  ghost function Rescaled(k: seq<real>, centre: int): (r: seq<real>)
    ensures |r| == |k|
  {
    var sum := CarriedSum(k, centre, |k|);
    if Abs(sum) > GUARD then
      seq(|k|, i requires 0 <= i < |k| => if Carried(i - centre) then k[i] / sum else k[i])
    else k
  }

  /** The kernel the design returns. */
  ghost function Kernel(f: Functions, taps: nat, beta: real): (k: seq<real>)
    requires taps > 1 && f.pi > 0.0
    ensures |k| == taps
  {
    Rescaled(DesignedKernel(f, taps, beta), Centre(taps))
  }

  method WindowAt(f: Functions, taps: nat, beta: real, i0Beta: real, i: nat) returns (window: real)
    requires taps > 1 && i0Beta == Order0(beta)
    ensures window == Window(f, taps, beta, i)
  {
    var value := ModifiedBesselI0(Argument(f, taps, beta, i));
    window := value / i0Beta;
  }

  method HalfbandLowpassKernel(f: Functions, taps: nat, beta: real) returns (kernel: array<real>)
    requires HalfBandLength(taps) && f.pi > 0.0
    ensures fresh(kernel) && kernel[..] == Kernel(f, taps, beta)
  {
    hide Window, Order0, Ideal, Argument, Truncated;
    var centre := Centre(taps);
    kernel := new real[taps];
    var i0Beta := Design0(beta);
    for i := 0 to taps
      invariant forall j :: 0 <= j < i ==> kernel[j] == Designed(f, taps, beta, j)
    {
      var window := WindowAt(f, taps, beta, i0Beta, i);
      kernel[i] := Ideal(f, i - centre) * window;
    }
    assert kernel[..] == DesignedKernel(f, taps, beta);
    Rescale(kernel, centre);
  }

  method Design0(beta: real) returns (value: real)
    ensures value == Order0(beta)
  {
    value := ModifiedBesselI0(beta);
  }

  method Rescale(kernel: array<real>, centre: nat)
    modifies kernel
    ensures kernel[..] == Rescaled(old(kernel[..]), centre)
  {
    ghost var was := kernel[..];
    var sum := 0.0;
    for i := 0 to kernel.Length
      invariant kernel[..] == was
      invariant sum == CarriedSum(was, centre, i)
    {
      if Carried(i - centre) {
        sum := sum + kernel[i];
      }
    }
    if Abs(sum) > GUARD {
      for i := 0 to kernel.Length
        invariant forall j :: 0 <= j < i ==> kernel[j] == if Carried(j - centre) then was[j] / sum else was[j]
        invariant forall j :: i <= j < kernel.Length ==> kernel[j] == was[j]
      {
        if Carried(i - centre) {
          kernel[i] := kernel[i] / sum;
        }
      }
    }
  }

  // ---------- symmetry and zeros ----------

  /** Positions mirrored about the centre sit at opposite points of the window. */
  lemma PositionMirrors(taps: nat, i: nat)
    requires taps > 1 && i < taps
    ensures Position(taps, taps - 1 - i) == -Position(taps, i)
  {
    var n := (taps - 1) as real;
    var a, b := 2.0 * i as real, 2.0 * (taps - 1 - i) as real;
    assert a + b == 2.0 * n;
    QuotientsAdd(a, b, n);
    SelfQuotient(n);
  }

  lemma QuotientsAdd(a: real, b: real, n: real)
    requires n > 0.0
    ensures a / n + b / n == (a + b) / n
  {
  }

  lemma OppositeSquares(x: real, y: real)
    requires y == -x
    ensures Mul(y, y) == Mul(x, x)
  {
  }

  lemma IdealEven(f: Functions, d: int)
    requires f.pi > 0.0 && OddSine(f)
    ensures Ideal(f, -d) == Ideal(f, d)
  {
    OppositeTurns(f, d);
    hide Mul, HalfTurns;
    if d % 2 != 0 {
      HalfTurnsNonzero(f, d);
      var angle := HalfTurns(f, d) * 0.5;
      assert f.sine(-angle) == -f.sine(angle);
      assert HalfTurns(f, -d) * 0.5 == -angle;
      OppositeQuotients(f.sine(angle), HalfTurns(f, d));
    }
  }

  lemma OppositeTurns(f: Functions, d: int)
    ensures HalfTurns(f, -d) == -HalfTurns(f, d)
  {
    assert (-d) as real == -(d as real);
  }

  lemma OppositeQuotients(a: real, b: real)
    requires b != 0.0
    ensures (-a) / (-b) == a / b
  {
    var q := a / b;
    assert q * (-b) == -a;
  }

  lemma WindowMirrors(f: Functions, taps: nat, beta: real, i: nat)
    requires taps > 1 && i < taps
    ensures Window(f, taps, beta, taps - 1 - i) == Window(f, taps, beta, i)
  {
    hide Mul, Position, Order0;
    PositionMirrors(taps, i);
    OppositeSquares(Position(taps, i), Position(taps, taps - 1 - i));
    assert Argument(f, taps, beta, taps - 1 - i) == Argument(f, taps, beta, i);
  }

  lemma DesignMirrors(f: Functions, taps: nat, beta: real, i: nat)
    requires HalfBandLength(taps) && f.pi > 0.0 && OddSine(f) && i < taps
    ensures Designed(f, taps, beta, taps - 1 - i) == Designed(f, taps, beta, i)
  {
    hide Window, Ideal, OddSine;
    WindowMirrors(f, taps, beta, i);
    IdealEven(f, i - Centre(taps));
    assert taps - 1 - i - Centre(taps) == -(i - Centre(taps));
  }

  predicate Symmetric(k: seq<real>) {
    forall i :: 0 <= i < |k| ==> k[|k| - 1 - i] == k[i]
  }

  /** Exactly zero at every even offset but the centre. */
  predicate HalfBandZeros(k: seq<real>, centre: int) {
    forall i :: 0 <= i < |k| && !Carried(i - centre) ==> k[i] == 0.0
  }

  lemma DesignShape(f: Functions, taps: nat, beta: real)
    requires HalfBandLength(taps) && f.pi > 0.0 && OddSine(f)
    ensures Symmetric(DesignedKernel(f, taps, beta))
    ensures HalfBandZeros(DesignedKernel(f, taps, beta), Centre(taps))
  {
    hide Window, OddSine;
    var k := DesignedKernel(f, taps, beta);
    forall i | 0 <= i < taps ensures k[taps - 1 - i] == k[i] {
      DesignMirrors(f, taps, beta, i);
    }
  }

  lemma RescaledShape(k: seq<real>, centre: int)
    requires |k| == 2 * centre + 1 && Symmetric(k) && HalfBandZeros(k, centre)
    ensures Symmetric(Rescaled(k, centre)) && HalfBandZeros(Rescaled(k, centre), centre)
  {
    hide CarriedSum;
    var r := Rescaled(k, centre);
    forall i | 0 <= i < |r| ensures r[|r| - 1 - i] == r[i] {
      assert k[|k| - 1 - i] == k[i];
      assert |r| - 1 - i - centre == -(i - centre);
    }
  }

  // ---------- the gain at zero frequency ----------

  /** The sum of the positions from lo up to hi. */
  ghost function Total(k: seq<real>, lo: nat, hi: nat): real
    requires lo <= hi <= |k|
  {
    if lo == hi then 0.0 else Total(k, lo, hi - 1) + k[hi - 1]
  }

  lemma {:induction false} TotalIsCarried(k: seq<real>, centre: int, n: nat)
    requires n <= |k| && HalfBandZeros(k, centre)
    ensures Total(k, 0, n) == CarriedSum(k, centre, n)
  {
    if n > 0 {
      TotalIsCarried(k, centre, n - 1);
    }
  }

  lemma {:induction false} CarriedSumScales(k: seq<real>, r: seq<real>, centre: int, s: real, n: nat)
    requires n <= |k| == |r| && s != 0.0
    requires forall i :: 0 <= i < |k| && Carried(i - centre) ==> r[i] == k[i] / s
    ensures CarriedSum(r, centre, n) == CarriedSum(k, centre, n) / s
  {
    if n > 0 {
      CarriedSumScales(k, r, centre, s, n - 1);
      assert CarriedSum(k, centre, n - 1) / s + k[n - 1] / s == (CarriedSum(k, centre, n - 1) + k[n - 1]) / s;
    }
  }

  /** The returned kernel sums to one exactly when the sum before the rescaling passes the guard; otherwise
    * nothing is rescaled.
    */
  lemma UnityGainIff(f: Functions, taps: nat, beta: real)
    requires HalfBandLength(taps) && f.pi > 0.0 && OddSine(f)
    ensures var designed, k := DesignedKernel(f, taps, beta), Kernel(f, taps, beta);
      && Symmetric(k) && HalfBandZeros(k, Centre(taps))
      && (Total(k, 0, taps) == 1.0 <==> Abs(Total(designed, 0, taps)) > GUARD)
      && (Abs(Total(designed, 0, taps)) <= GUARD ==> k == designed)
  {
    hide Window, Ideal, OddSine, Designed, CarriedSum, Total;
    var designed, k, centre := DesignedKernel(f, taps, beta), Kernel(f, taps, beta), Centre(taps);
    DesignShape(f, taps, beta);
    RescaledShape(designed, centre);
    TotalIsCarried(designed, centre, taps);
    TotalIsCarried(k, centre, taps);
    var sum := Total(designed, 0, taps);
    if Abs(sum) > GUARD {
      CarriedSumScales(designed, k, centre, sum, taps);
      UnitQuotient(sum);
    }
  }

  /** A straight line in place of the sine. */
  function StraightLine(): Functions {
    Functions(3.0, (x: real) => x * -0.5, (x: real) => 1.0, (x: real) => x)
  }

  // The length of the example is a parameter that must be three, so that the recursive sums are not unfolded at once.

  /** The straight line is odd, and the three-tap design it gives sums to zero: the guard is missed and nothing
    * is rescaled.
    */
  lemma StraightLineMissesGuard(taps: nat)
    requires taps == 3
    ensures OddSine(StraightLine()) && StraightLine().pi > 0.0 && HalfBandLength(taps)
    ensures var designed := DesignedKernel(StraightLine(), taps, 0.0);
      Total(designed, 0, taps) == 0.0 && Kernel(StraightLine(), taps, 0.0) == designed
  {
    StraightTaps();
    StraightDesign(taps);
    hide StraightLine, DesignedKernel, Kernel, OddSine;
    UnityGainIff(StraightLine(), taps, 0.0);
    ThreeTotal(DesignedKernel(StraightLine(), taps, 0.0));
  }

  lemma StraightDesign(taps: nat)
    requires taps == 3 && StraightLine().pi > 0.0
    ensures DesignedKernel(StraightLine(), taps, 0.0) == [-0.25, 0.5, -0.25]
  {
    hide Window, Ideal, StraightLine, Designed;
    StraightTaps();
    FlatTap(StraightLine(), taps, 0);
    FlatTap(StraightLine(), taps, 1);
    FlatTap(StraightLine(), taps, 2);
  }

  lemma FlatTap(f: Functions, taps: nat, i: nat)
    requires taps > 1 && f.pi > 0.0
    ensures Designed(f, taps, 0.0, i) == Ideal(f, i - Centre(taps))
  {
    hide Window, Ideal;
    FlatWindow(f, taps, i);
    TimesOne(Ideal(f, i - Centre(taps)), Window(f, taps, 0.0, i));
  }

  lemma TimesOne(v: real, w: real)
    requires w == 1.0
    ensures v * w == v
  {
  }

  lemma StraightTaps()
    ensures StraightLine().pi == 3.0 && OddSine(StraightLine())
    ensures var f := StraightLine(); Ideal(f, -1) == -0.25 && Ideal(f, 0) == 0.5 && Ideal(f, 1) == -0.25
  {
    var f := StraightLine();
    assert HalfTurns(f, -1) == -3.0 && HalfTurns(f, 1) == 3.0;
    assert (-3.0 * 0.5) * -0.5 == 0.75 && (3.0 * 0.5) * -0.5 == -0.75;
    assert 0.75 / -3.0 == -0.25 && -0.75 / 3.0 == -0.25;
  }

  lemma ThreeTotal(k: seq<real>)
    requires |k| == 3
    ensures Total(k, 0, 3) == k[0] + k[1] + k[2]
  {
    assert Total(k, 0, 1) == Total(k, 0, 0) + k[0];
    assert Total(k, 0, 2) == Total(k, 0, 1) + k[1];
  }

  /** With a shape parameter of zero the window is flat. */
  lemma FlatWindow(f: Functions, taps: nat, i: nat)
    requires taps > 1
    ensures Window(f, taps, 0.0, i) == 1.0
  {
    var x := Position(taps, i);
    MulUnits(f.root(1.0 - Mul(x, x)));
    SelfQuotient(Order0(0.0));
  }

  // ---------- the guard always passes ----------

  /** The longest kernel a machine word can ask for. */
  const TAP_BOUND := 0xFFFF_FFFF_FFFF_FFFF

  /** Offsets up to which the truncation of the window cannot disturb the decay of the taps at all. */
  const DECAY_BOUND := 625_000_000_000_000

  /** By how much a tap further out can exceed its neighbour. */
  const SLACK := 0.00000000000000000000000000001

  lemma PositionsAscend(taps: nat, i: nat, j: nat)
    requires HalfBandLength(taps) && Centre(taps) <= i <= j < taps
    ensures 0.0 <= Position(taps, i) <= Position(taps, j) <= 1.0
    ensures i == Centre(taps) ==> Position(taps, i) == 0.0
  {
    assert 2 * Centre(taps) == taps - 1;
    WithinSpan(2 * i, 2 * j, taps - 1);
  }

  lemma WithinSpan(a: nat, b: nat, n: nat)
    requires 0 < n <= a <= b <= 2 * n
    ensures 1.0 <= a as real / n as real <= b as real / n as real <= 2.0
    ensures a == n ==> a as real / n as real == 1.0
  {
    RealsWithinSpan(a as real, b as real, n as real);
  }

  lemma RealsWithinSpan(a: real, b: real, d: real)
    requires 0.0 < d <= a <= b <= 2.0 * d
    ensures 1.0 <= a / d <= b / d <= 2.0
    ensures a == d ==> a / d == 1.0
  {
    QuotientMonotone(d, a, d);
    QuotientMonotone(a, b, d);
    QuotientMonotone(b, 2.0 * d, d);
    SelfQuotient(d);
  }

  lemma SelfQuotient(d: real)
    requires d > 0.0
    ensures d / d == 1.0 && (2.0 * d) / d == 2.0
  {
  }

  lemma QuotientMonotone(a: real, b: real, n: real)
    requires n > 0.0 && a <= b
    ensures a / n <= b / n
  {
    assert (b - a) / n >= 0.0;
    assert b / n - a / n == (b - a) / n;
  }

  /** With a true square root the window's argument is known from its square. */
  lemma ArgumentSquare(f: Functions, taps: nat, beta: real, i: nat)
    requires taps > 1 && TrueFunctions(f)
    requires Mul(Position(taps, i), Position(taps, i)) <= 1.0
    ensures QuarterSquare(Argument(f, taps, beta, i))
      == Mul(Mul(beta, beta), 1.0 - Mul(Position(taps, i), Position(taps, i))) * 0.25
  {
    hide Position;
    var x := Position(taps, i);
    var v := 1.0 - Mul(x, x);
    assert Mul(f.root(v), f.root(v)) == v;
    hide TrueFunctions;
    SquareOfProduct(beta, f.root(v));
  }

  lemma SquareOfProduct(a: real, b: real)
    ensures Mul(Mul(a, b), Mul(a, b)) == Mul(Mul(a, a), Mul(b, b))
  {
    assert (a * b) * (a * b) == (a * a) * (b * b);
  }

  lemma SquaresAscend(x: real, y: real)
    requires 0.0 <= x <= y <= 1.0
    ensures 0.0 <= Mul(x, x) <= Mul(y, y) <= 1.0
  {
    MulMonotone(x, 0.0, x);
    MulMonotone(x, x, y);
    MulMonotone(y, x, y);
    MulMonotone(y, y, 1.0);
  }

  /** Away from the centre the window only falls, up to the truncation bound of the series. */
  lemma WindowFalls(f: Functions, taps: nat, beta: real, i: nat, j: nat)
    requires HalfBandLength(taps) && TrueFunctions(f) && Centre(taps) <= i <= j < taps
    ensures 0.0 < Window(f, taps, beta, j) <= Window(f, taps, beta, i) * (1.0 + 32.0 * RELATIVE_EXIT)
    ensures i == Centre(taps) ==> Window(f, taps, beta, i) == 1.0
  {
    hide Mul, Position, TrueFunctions, Truncated;
    var x, y := Position(taps, i), Position(taps, j);
    PositionsAscend(taps, i, j);
    SquaresAscend(x, y);
    ArgumentSquare(f, taps, beta, i);
    ArgumentSquare(f, taps, beta, j);
    SquareSign(beta);
    MulMonotone(Mul(beta, beta), 1.0 - Mul(y, y), 1.0 - Mul(x, x));
    var p, q := Argument(f, taps, beta, i), Argument(f, taps, beta, j);
    QuarterSquareSign(q);
    TruncatedNearlyMonotone(QuarterSquare(q), QuarterSquare(p));
    WindowQuotients(Order0(q), Order0(p), Order0(beta));
    if i == Centre(taps) {
      MulUnits(0.0);
      MulCommutes(Mul(beta, beta), 1.0);
      MulUnits(Mul(beta, beta));
      assert QuarterSquare(p) == QuarterSquare(beta);
    }
  }

  lemma WindowQuotients(a: real, b: real, c: real)
    requires 1.0 <= a <= b * (1.0 + 32.0 * RELATIVE_EXIT) && c >= 1.0
    ensures 0.0 < a / c <= (b / c) * (1.0 + 32.0 * RELATIVE_EXIT)
    ensures c / c == 1.0
  {
    QuotientMonotone(a, b * (1.0 + 32.0 * RELATIVE_EXIT), c);
  }

  // ---------- the value of every tap ----------

  /** Position times the centre is the offset: from minus one at the first tap to one at the last. */
  lemma PositionExact(taps: nat, i: nat)
    requires HalfBandLength(taps) && i < taps
    ensures Mul(Position(taps, i), Centre(taps) as real) == (i - Centre(taps)) as real
    ensures Mul(Position(taps, i), Position(taps, i)) <= 1.0
    ensures i == 0 ==> Position(taps, i) == -1.0
    ensures i == taps - 1 ==> Position(taps, i) == 1.0
  {
    var c := Centre(taps);
    assert taps == 2 * c + 1;
    PositionQuotient(i as real, c as real);
    if i >= c {
      PositionsAscend(taps, i, i);
      SquaresAscend(Position(taps, i), Position(taps, i));
    } else {
      PositionMirrors(taps, i);
      PositionsAscend(taps, taps - 1 - i, taps - 1 - i);
      SquaresAscend(Position(taps, taps - 1 - i), Position(taps, taps - 1 - i));
      OppositeSquares(Position(taps, taps - 1 - i), Position(taps, i));
    }
  }

  lemma PositionQuotient(x: real, c: real)
    requires c > 0.0
    ensures Mul(2.0 * x / (2.0 * c) - 1.0, c) == x - c
    ensures x == 0.0 ==> 2.0 * x / (2.0 * c) - 1.0 == -1.0
    ensures x == 2.0 * c ==> 2.0 * x / (2.0 * c) - 1.0 == 1.0
  {
    var q := 2.0 * x / (2.0 * c);
    assert q * (2.0 * c) == 2.0 * x;
  }

  /** Every tap before the rescaling: the ideal one, times the Bessel function of what the position leaves of beta, over
    * that of beta itself.
    */
  lemma TapValue(f: Functions, taps: nat, beta: real, i: nat)
    requires HalfBandLength(taps) && f.pi > 0.0 && TrueFunctions(f) && i < taps
    ensures var x := Position(taps, i);
      Mul(DesignedKernel(f, taps, beta)[i], Truncated(Mul(beta, beta) * 0.25))
      == Mul(Ideal(f, i - Centre(taps)), Truncated(Mul(Mul(beta, beta), 1.0 - Mul(x, x)) * 0.25))
  {
    hide Position, TrueFunctions, Ideal, Mul, Truncated, Argument;
    PositionExact(taps, i);
    ArgumentSquare(f, taps, beta, i);
    var window, whole := Order0(Argument(f, taps, beta, i)), Order0(beta);
    assert whole == Truncated(Mul(beta, beta) * 0.25);
    DesignedTap(f, taps, beta, i, window, whole);
  }

  lemma DesignedTap(f: Functions, taps: nat, beta: real, i: nat, window: real, whole: real)
    requires taps > 1 && f.pi > 0.0 && i < taps
    requires window == Order0(Argument(f, taps, beta, i)) && whole == Order0(beta)
    ensures Mul(DesignedKernel(f, taps, beta)[i], whole) == Mul(Ideal(f, i - Centre(taps)), window)
  {
    hide Argument, Order0, Ideal;
    TimesQuotient(Ideal(f, i - Centre(taps)), window, whole);
  }

  lemma TimesQuotient(a: real, b: real, c: real)
    requires c != 0.0
    ensures Mul(a * (b / c), c) == Mul(a, b)
  {
    var q := b / c;
    assert q * c == b;
    assert (a * q) * c == a * (q * c);
  }

  /** At the two ends the window has fallen to one over the Bessel function of beta. */
  lemma EdgeTap(f: Functions, taps: nat, beta: real, i: nat)
    requires HalfBandLength(taps) && f.pi > 0.0 && TrueFunctions(f) && (i == 0 || i == taps - 1)
    ensures Mul(DesignedKernel(f, taps, beta)[i], Truncated(Mul(beta, beta) * 0.25)) == Ideal(f, i - Centre(taps))
  {
    hide Position, TrueFunctions, Ideal, DesignedKernel, Truncated, Mul;
    var x, ideal := Position(taps, i), Ideal(f, i - Centre(taps));
    PositionExact(taps, i);
    UnitSquare(x);
    TapValue(f, taps, beta, i);
    TruncatedAtZero();
    NothingLeft(Mul(beta, beta), Mul(x, x));
    MulCommutes(ideal, 1.0);
    MulUnits(ideal);
  }

  lemma UnitSquare(x: real)
    ensures x == 1.0 || x == -1.0 ==> Mul(x, x) == 1.0
  {
  }

  lemma NothingLeft(b: real, s: real)
    ensures s == 1.0 ==> Mul(b, 1.0 - s) * 0.25 == 0.0
  {
  }

  /** The ideal half-band response: one half at the centre, nothing at other even offsets, and at odd offsets plus or
    * minus one over the offset's half turns.
    */
  lemma IdealTap(f: Functions, j: nat)
    requires f.pi > 0.0 && TrueFunctions(f)
    ensures Ideal(f, 0) == 0.5 && (j > 0 ==> Ideal(f, 2 * j) == 0.0)
    ensures Mul(Ideal(f, 2 * j + 1), f.pi * (2 * j + 1) as real) == if j % 2 == 0 then 1.0 else -1.0
  {
    OddIdeal(f, j);
  }

  lemma OddIdeal(f: Functions, j: nat)
    requires f.pi > 0.0 && TrueFunctions(f)
    ensures Mul(Ideal(f, 2 * j + 1), f.pi * (2 * j + 1) as real) == if j % 2 == 0 then 1.0 else -1.0
  {
    assert HalfTurns(f, 2 * j + 1) == f.pi * (2 * j + 1) as real;
    hide TrueFunctions, HalfTurns, Mul;
    QuarterTurns(f, j);
    HalfTurnsNonzero(f, 2 * j + 1);
    QuotientTimes(f.sine(HalfTurns(f, 2 * j + 1) * 0.5), HalfTurns(f, 2 * j + 1));
  }

  lemma QuotientTimes(a: real, b: real)
    requires b != 0.0
    ensures Mul(a / b, b) == a
  {
  }

  /** The sine of an odd number of quarter turns. */
  lemma {:induction false} QuarterTurns(f: Functions, j: nat)
    requires TrueFunctions(f)
    ensures f.sine(HalfTurns(f, 2 * j + 1) * 0.5) == if j % 2 == 0 then 1.0 else -1.0
  {
    hide Mul, HalfTurns, TrueFunctions;
    if j == 0 {
      OneTurn(f);
    } else {
      QuarterTurns(f, j - 1);
      NextTurn(f, 2 * j - 1);
      SineAdvances(f, HalfTurns(f, 2 * j - 1) * 0.5);
      assert HalfTurns(f, 2 * j + 1) * 0.5 == HalfTurns(f, 2 * j - 1) * 0.5 + f.pi;
    }
  }

  lemma OneTurn(f: Functions)
    requires TrueFunctions(f)
    ensures f.sine(HalfTurns(f, 1) * 0.5) == 1.0
  {
    assert HalfTurns(f, 1) == f.pi;
  }

  lemma SineAdvances(f: Functions, x: real)
    requires TrueFunctions(f)
    ensures f.sine(x + f.pi) == -f.sine(x)
  {
  }

  lemma NextTurn(f: Functions, d: int)
    ensures HalfTurns(f, d + 2) == HalfTurns(f, d) + 2.0 * f.pi
  {
    assert (d + 2) as real == d as real + 2.0;
  }

  /** The tap at odd offset 2j + 1, without its sign. */
  ghost function Magnitude(f: Functions, taps: nat, beta: real, j: nat): real
    requires taps > 1 && f.pi > 0.0
  {
    HalfTurnsNonzero(f, 2 * j + 1);
    Window(f, taps, beta, Centre(taps) + 2 * j + 1) / HalfTurns(f, 2 * j + 1)
  }

  lemma HalfTurnsPositive(f: Functions, d: nat)
    requires f.pi > 0.0 && d > 0
    ensures HalfTurns(f, d) > 0.0
  {
  }

  lemma OddTap(f: Functions, taps: nat, beta: real, j: nat)
    requires HalfBandLength(taps) && f.pi > 0.0 && TrueFunctions(f) && Centre(taps) + 2 * j + 1 < taps
    ensures Designed(f, taps, beta, Centre(taps) + 2 * j + 1)
      == if j % 2 == 0 then Magnitude(f, taps, beta, j) else -Magnitude(f, taps, beta, j)
    ensures Magnitude(f, taps, beta, j) > 0.0
  {
    hide Window, TrueFunctions, HalfTurns;
    var i := Centre(taps) + 2 * j + 1;
    QuarterTurns(f, j);
    HalfTurnsPositive(f, 2 * j + 1);
    WindowFalls(f, taps, beta, i, i);
    SignedQuotient(Window(f, taps, beta, i), HalfTurns(f, 2 * j + 1));
  }

  lemma SignedQuotient(w: real, t: real)
    requires w > 0.0 && t > 0.0
    ensures (1.0 / t) * w == w / t && (-1.0 / t) * w == -(w / t) && w / t > 0.0
  {
    var q, x := 1.0 / t, w / t;
    assert q * t == 1.0 && x * t == w;
    assert q * w == (q * t) * x;
    assert -1.0 / t == -q;
    assert -q * w == -(q * w);
  }

  lemma CrossQuotients(a: real, b: real, p: real, q: real)
    requires p > 0.0 && q > 0.0 && Mul(a, p) <= Mul(b, q)
    ensures a / q <= b / p
  {
    assert a == (a / q) * q && b == (b / p) * p;
    assert (a / q) * (q * p) <= (b / p) * (q * p);
    var slack := b / p - a / q;
    assert slack * (q * p) >= 0.0;
    assert q * p > 0.0;
    assert slack == (slack * (q * p)) / (q * p);
  }

  /** Each tap is at most its neighbour nearer the centre, up to a slack that only very long kernels need. */
  lemma TapsDecay(f: Functions, taps: nat, beta: real, j: nat)
    requires HalfBandLength(taps) && f.pi > 0.0 && TrueFunctions(f) && Centre(taps) + 2 * j + 3 < taps
    ensures Magnitude(f, taps, beta, j + 1) <= Magnitude(f, taps, beta, j) + SLACK
  {
    var i, c := Centre(taps) + 2 * j + 1, Centre(taps);
    assert f.pi >= 3.0;
    hide Window, TrueFunctions, HalfTurns, Mul;
    WindowFalls(f, taps, beta, i, i + 2);
    WindowFalls(f, taps, beta, i, i);
    WindowFalls(f, taps, beta, c, i);
    HalfTurnsPositive(f, 2 * j + 1);
    HalfTurnsPositive(f, 2 * j + 3);
    var near, far := Window(f, taps, beta, i), Window(f, taps, beta, i + 2);
    if 2 * j + 1 <= DECAY_BOUND {
      TurnsOutpace(f, 2 * j + 1, near, far);
      CrossQuotients(far, near, HalfTurns(f, 2 * j + 1), HalfTurns(f, 2 * j + 3));
    } else {
      FarTaps(f, 2 * j + 1, near, far);
    }
  }

  /** Far out a tap is so small that the truncation of the window can add next to nothing to it. */
  lemma FarTaps(f: Functions, d: nat, near: real, far: real)
    requires f.pi >= 3.0 && d > DECAY_BOUND && 0.0 < near <= 2.0 && far <= near * (1.0 + 32.0 * RELATIVE_EXIT)
    requires HalfTurns(f, d) > 0.0 && HalfTurns(f, d + 2) > 0.0
    ensures far / HalfTurns(f, d + 2) <= near / HalfTurns(f, d) + SLACK
  {
    var t, t' := HalfTurns(f, d), HalfTurns(f, d + 2);
    NextTurn(f, d);
    MulMonotone(f.pi, DECAY_BOUND as real, d as real);
    MulCommutes(f.pi, DECAY_BOUND as real);
    MulMonotone(DECAY_BOUND as real, 3.0, f.pi);
    assert t' >= 1875000000000000.0;
    hide HalfTurns, Mul;
    QuotientMonotone(far, near + 64.0 * RELATIVE_EXIT, t');
    SplitSum(near, 64.0 * RELATIVE_EXIT, t');
    LargerDivisor(near, t, t');
    SmallQuotient(t');
  }

  lemma SplitSum(a: real, b: real, d: real)
    requires d > 0.0
    ensures (a + b) / d == a / d + b / d
  {
  }

  lemma LargerDivisor(a: real, d: real, e: real)
    requires a >= 0.0 && 0.0 < d <= e
    ensures a / e <= a / d
  {
    QuotientBound(a, d, e);
  }

  lemma SmallQuotient(d: real)
    requires d >= 1875000000000000.0
    ensures (64.0 * RELATIVE_EXIT) / d <= SLACK
  {
    var q := (64.0 * RELATIVE_EXIT) / d;
    assert q * d == 64.0 * RELATIVE_EXIT;
    if q > SLACK {
      assert (q - SLACK) * d > 0.0;
      assert SLACK * d >= SLACK * 1875000000000000.0;
    }
  }

  lemma TurnsOutpace(f: Functions, d: nat, near: real, far: real)
    requires f.pi > 0.0 && d <= DECAY_BOUND && near > 0.0
    requires far <= near * (1.0 + 32.0 * RELATIVE_EXIT)
    ensures Mul(far, HalfTurns(f, d)) <= Mul(near, HalfTurns(f, d + 2))
  {
    var e := 32.0 * RELATIVE_EXIT;
    var t := HalfTurns(f, d);
    NextTurn(f, d);
    MulMonotone(f.pi, 0.0, d as real);
    assert e * d as real <= 2.0;
    MulMonotone(f.pi, e * d as real, 2.0);
    assert Mul(f.pi, e * d as real) == e * t;
    assert t >= 0.0 && t + e * t <= HalfTurns(f, d + 2);
    hide HalfTurns;
    MulMonotone(t, far, near * (1.0 + e));
    MulMonotone(near, t + e * t, HalfTurns(f, d + 2));
    assert Mul(t, near * (1.0 + e)) == Mul(near, t + e * t);
  }

  /** The first n odd taps on one side of the centre. */
  ghost function Arm(f: Functions, taps: nat, beta: real, n: nat): real
    requires taps > 1 && f.pi > 0.0
  {
    if n == 0 then 0.0 else Arm(f, taps, beta, n - 1) + Designed(f, taps, beta, Centre(taps) + 2 * n - 1)
  }

  /** The signs alternate and the taps decay, so no partial sum falls below zero by more than the slack of its steps. */
  lemma {:induction false} ArmNonNegative(f: Functions, taps: nat, beta: real, n: nat)
    requires HalfBandLength(taps) && f.pi > 0.0 && TrueFunctions(f) && Centre(taps) + 2 * n - 1 < taps
    ensures Arm(f, taps, beta, n) + n as real * SLACK >= if n % 2 == 0 then 0.0 else Magnitude(f, taps, beta, n - 1)
    ensures Arm(f, taps, beta, n) + n as real * SLACK >= 0.0
  {
    hide TrueFunctions, Magnitude, Designed;
    if n > 0 {
      ArmNonNegative(f, taps, beta, n - 1);
      OddTap(f, taps, beta, n - 1);
      if n > 1 {
        TapsDecay(f, taps, beta, n - 2);
      }
    }
  }

  lemma {:induction false} TotalFromLow(k: seq<real>, lo: nat, hi: nat)
    requires lo < hi <= |k|
    ensures Total(k, lo, hi) == k[lo] + Total(k, lo + 1, hi)
  {
    if hi > lo + 1 {
      TotalFromLow(k, lo, hi - 1);
    }
  }

  /** One more tap of an arm widens the span by two positions on each side, of which the inner ones are zero. */
  lemma SpanWidens(k: seq<real>, centre: nat, n: nat)
    requires n > 1 && 2 * n <= centre + 1 && |k| == 2 * centre + 1
    requires Symmetric(k) && HalfBandZeros(k, centre)
    ensures var lo, hi := centre + 1 - 2 * n, centre + 2 * n;
      Total(k, lo, hi) == Total(k, lo + 2, hi - 2) + 2.0 * k[hi - 1]
  {
    var lo, hi := centre + 1 - 2 * n, centre + 2 * n;
    assert |k| - 1 - lo == hi - 1 && k[|k| - 1 - lo] == k[lo];
    assert !Carried(lo + 1 - centre) && !Carried(hi - 2 - centre);
    assert k[lo + 1] == 0.0 && k[hi - 2] == 0.0;
    hide Symmetric, HalfBandZeros, Total, Carried;
    PeelBothEnds(k, lo, hi);
  }

  /** A sum, with two positions taken off each end. */
  lemma PeelBothEnds(k: seq<real>, lo: nat, hi: nat)
    requires lo + 4 <= hi <= |k|
    ensures Total(k, lo, hi) == k[lo] + k[lo + 1] + Total(k, lo + 2, hi - 2) + k[hi - 2] + k[hi - 1]
  {
    TotalFromLow(k, lo, hi);
    TotalFromLow(k, lo + 1, hi);
    assert Total(k, lo + 2, hi) == Total(k, lo + 2, hi - 1) + k[hi - 1];
    assert Total(k, lo + 2, hi - 1) == Total(k, lo + 2, hi - 2) + k[hi - 2];
  }

  lemma FirstSpan(k: seq<real>, centre: nat)
    requires centre > 0 && |k| == 2 * centre + 1 && Symmetric(k)
    ensures Total(k, centre - 1, centre + 2) == k[centre] + 2.0 * k[centre + 1]
  {
    assert k[|k| - 1 - (centre - 1)] == k[centre - 1];
    hide Symmetric;
    TotalFromLow(k, centre - 1, centre + 2);
    assert Total(k, centre, centre + 1) == Total(k, centre, centre) + k[centre];
    assert Total(k, centre, centre + 2) == Total(k, centre, centre + 1) + k[centre + 1];
  }

  /** The taps less than 2n away from the centre are the centre and twice one arm. */
  lemma {:induction false} TotalSpreads(f: Functions, taps: nat, beta: real, n: nat)
    requires HalfBandLength(taps) && f.pi > 0.0 && TrueFunctions(f) && 0 < 2 * n <= Centre(taps) + 1
    ensures var k, c := DesignedKernel(f, taps, beta), Centre(taps);
      Total(k, c + 1 - 2 * n, c + 2 * n) == k[c] + 2.0 * Arm(f, taps, beta, n)
  {
    hide TrueFunctions, OddSine, Designed, Symmetric, HalfBandZeros, Total;
    var k, c := DesignedKernel(f, taps, beta), Centre(taps);
    TrueSineIsOdd(f);
    DesignShape(f, taps, beta);
    if n == 1 {
      FirstSpan(k, c);
      assert Arm(f, taps, beta, 1) == Arm(f, taps, beta, 0) + k[c + 1];
    } else {
      TotalSpreads(f, taps, beta, n - 1);
      SpanWidens(k, c, n);
    }
  }

  /** With true functions the design of every length sums to nearly one half or more before the rescaling, so
    * the kernel has gain one.
    */
  lemma UnityGain(f: Functions, taps: nat, beta: real)
    requires HalfBandLength(taps) && f.pi > 0.0 && TrueFunctions(f) && taps <= TAP_BOUND
    ensures Total(DesignedKernel(f, taps, beta), 0, taps) >= 0.499
    ensures Total(Kernel(f, taps, beta), 0, taps) == 1.0
  {
    hide TrueFunctions, OddSine, Window, Total, Arm, Kernel;
    var c := Centre(taps);
    TrueSineIsOdd(f);
    TotalSpreads(f, taps, beta, (c + 1) / 2);
    ArmNonNegative(f, taps, beta, (c + 1) / 2);
    WindowFalls(f, taps, beta, c, c);
    assert DesignedKernel(f, taps, beta)[c] == 0.5;
    UnityGainIff(f, taps, beta);
  }

  // ---------- the response about a quarter of the input rate ----------

  /** The zero-phase response at angle w per sample, over the first n taps. */
  ghost function Response(f: Functions, k: seq<real>, centre: int, w: real, n: nat): real
    requires n <= |k|
  {
    if n == 0 then 0.0
    else Response(f, k, centre, w, n - 1) + Mul(k[n - 1], f.cosine(Mul((n - 1 - centre) as real, w)))
  }

  lemma {:induction false} CosineTurns(f: Functions, x: real, d: nat)
    requires TrueFunctions(f)
    ensures f.cosine(x + Mul(d as real, f.pi)) == if d % 2 == 0 then f.cosine(x) else -f.cosine(x)
  {
    if d == 0 {
      MulUnits(f.pi);
    } else {
      CosineTurns(f, x, d - 1);
      assert Mul(d as real, f.pi) == Mul((d - 1) as real, f.pi) + f.pi;
      hide Mul;
      assert x + Mul(d as real, f.pi) == (x + Mul((d - 1) as real, f.pi)) + f.pi;
    }
  }

  /** At odd offsets the cosine changes sign when the angle is reflected about a quarter turn. */
  lemma ReflectedCosine(f: Functions, d: int, w: real)
    requires TrueFunctions(f) && d % 2 != 0
    ensures f.cosine(Mul(d as real, f.pi - w)) == -f.cosine(Mul(d as real, w))
  {
    var n := Size(d);
    ReflectedProduct(n as real, f.pi, w);
    MulNegates(d as real, w);
    MulNegates(d as real, f.pi - w);
    hide Mul;
    var x := -Mul(n as real, w);
    CosineTurns(f, x, n);
    assert f.cosine(-Mul(n as real, w)) == f.cosine(Mul(n as real, w));
    if d < 0 {
      assert n as real == -(d as real);
      assert f.cosine(-Mul(d as real, w)) == f.cosine(Mul(d as real, w));
      assert f.cosine(-Mul(d as real, f.pi - w)) == f.cosine(Mul(d as real, f.pi - w));
    }
  }

  function Size(d: int): nat {
    if d < 0 then -d else d
  }

  lemma ReflectedProduct(n: real, pi: real, w: real)
    ensures Mul(n, pi - w) == -Mul(n, w) + Mul(n, pi)
  {
  }

  /** The response and its reflection add up to twice the centre tap at every angle. */
  lemma {:induction false} ResponseReflects(f: Functions, k: seq<real>, centre: nat, w: real, n: nat)
    requires TrueFunctions(f) && n <= |k| && HalfBandZeros(k, centre)
    ensures Response(f, k, centre, w, n) + Response(f, k, centre, f.pi - w, n)
      == if centre < n then 2.0 * k[centre] else 0.0
  {
    hide Mul;
    if n > 0 {
      ResponseReflects(f, k, centre, w, n - 1);
      var d := n - 1 - centre;
      var here, there := f.cosine(Mul(d as real, w)), f.cosine(Mul(d as real, f.pi - w));
      if d == 0 {
        MulUnits(w);
        MulUnits(f.pi - w);
        MulCommutes(k[centre], 1.0);
        MulUnits(k[centre]);
      } else if d % 2 != 0 {
        ReflectedCosine(f, d, w);
        MulCommutes(k[n - 1], here);
        MulCommutes(k[n - 1], there);
        MulNegates(here, k[n - 1]);
      } else {
        assert k[n - 1] == 0.0;
        MulUnits(here);
        MulUnits(there);
      }
    }
  }

  /** The returned kernel's response is symmetric about a quarter of the input rate. */
  lemma SymmetricResponse(f: Functions, taps: nat, beta: real, w: real)
    requires HalfBandLength(taps) && f.pi > 0.0 && TrueFunctions(f)
    ensures var k, c := Kernel(f, taps, beta), Centre(taps);
      Response(f, k, c, w, taps) + Response(f, k, c, f.pi - w, taps) == 2.0 * k[c]
  {
    hide TrueFunctions, OddSine, Kernel;
    TrueSineIsOdd(f);
    UnityGainIff(f, taps, beta);
    ResponseReflects(f, Kernel(f, taps, beta), Centre(taps), w, taps);
  }
}
