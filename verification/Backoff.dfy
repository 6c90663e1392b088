/** The waits between tries (azfile/zc_policy_retry.go): defaults and calcDelay. Durations are
    nanoseconds in an int64; the jitter is a real number. */
module Backoff {
  import opened Ranges

  datatype Policy = Exponential | Fixed

  datatype RetryOptions = RetryOptions(policy: Policy, maxTries: int, tryTimeout: int, retryDelay: int,
                                       maxRetryDelay: int)

  const SECOND := 1_000_000_000

  function IfDefault(current: int, desired: int): int {
    if current == 0 then desired else current
  }

  function Defaults(o: RetryOptions): RetryOptions {
    RetryOptions(
      o.policy,
      IfDefault(o.maxTries, 4),
      IfDefault(o.tryTimeout, 60 * SECOND),
      IfDefault(o.retryDelay, if o.policy.Exponential? then 4 * SECOND else 30 * SECOND),
      IfDefault(o.maxRetryDelay, 120 * SECOND))
  }

  /** What callers are asked to pass, and what the defaults keep. */
  predicate Sensible(o: RetryOptions) {
    && o.maxTries >= 0 && o.tryTimeout >= 0
    && 0 <= o.retryDelay <= o.maxRetryDelay <= MAX_INT64
    && (o.retryDelay == 0 <==> o.maxRetryDelay == 0)
  }

  /** Defaults fills every gap, is idempotent, and leaves the delays in order. */
  lemma DefaultsAreSensible(o: RetryOptions)
    requires Sensible(o)
    ensures Sensible(Defaults(o)) && Defaults(Defaults(o)) == Defaults(o)
    ensures Defaults(o).maxTries >= 1 && Defaults(o).retryDelay >= 1
    ensures o.maxTries > 0 && o.retryDelay > 0 && o.tryTimeout > 0 ==> Defaults(o) == o
  {
  }

  function Pow2(n: nat): nat {
    if n == 0 then 1 else 2 * Pow2(n - 1)
  }

  /** The wait before try number `try`, before jitter and before the cap, as a whole number. */
  function Nominal(o: RetryOptions, try: nat): int
    requires try >= 1
  {
    if o.policy.Exponential? then (Pow2(try - 1) - 1) * o.retryDelay
    else if try > 1 then o.retryDelay else 0
  }

  /** With the largest jitter the wait still is an int64. */
  predicate Fits(o: RetryOptions, try: nat)
    requires try >= 1
  {
    13 * Nominal(o, try) <= 10 * TWO_63
  }

  predicate IsJitter(j: real) {
    0.8 <= j < 1.3
  }

  /** The jitter made of a random number. */
  function Jitter(random: real): real {
    random / 2.0 + 0.8
  }

  lemma JitterMeans(j: real)
    ensures IsJitter(j) <==> exists random :: 0.0 <= random < 1.0 && Jitter(random) == j
  {
    assert Jitter((j - 0.8) * 2.0) == j;
  }

  function Power(number: int, n: nat): int {
    if n == 0 then 1 else Power(number, n - 1) * number
  }

  /** The loop of calcDelay's pow: the power modulo 2^64, as int64 arithmetic leaves it. */
  method Pow(number: int64, exponent: int) returns (result: int)
    ensures result == Wrap64(Power(number as int, if exponent < 0 then 0 else exponent))
  {
    result := 1;
    var n := 0;
    while n < exponent
      invariant 0 <= n && (if exponent < 0 then n == 0 else n <= exponent)
      invariant result == Wrap64(Power(number as int, n))
    {
      WrapTimes(Power(number as int, n), number as int);
      result := Wrap64(result * number as int);
      n := n + 1;
    }
  }

  const TWO_63 := 0x8000_0000_0000_0000
  const TWO_64 := 0x1_0000_0000_0000_0000

  lemma WrapTimes(a: int, b: int)
    ensures Wrap64(Wrap64(a) * b) == Wrap64(a * b)
  {
    var k := (a - MIN_INT64) / TWO_64;
    assert Wrap64(a) == a - k * TWO_64;
    Distribute(Wrap64(a), k * TWO_64, b);
    assert (k * TWO_64) * b == (k * b) * TWO_64;
    WrapShift(Wrap64(a) * b, k * b);
  }

  lemma WrapShift(x: int, k: int)
    ensures Wrap64(x + k * TWO_64) == Wrap64(x)
  {
    var y := x - MIN_INT64;
    var q, r := y / TWO_64, y % TWO_64;
    Distribute(q, k, TWO_64);
    Quotient(y + k * TWO_64, q + k, r);
  }

  lemma Quotient(y: int, q: int, r: int)
    requires y == q * TWO_64 + r && 0 <= r < TWO_64
    ensures y % TWO_64 == r
  {
  }

  lemma {:induction false} PowerOfTwo(n: nat)
    ensures Power(2, n) == Pow2(n)
  {
    if n > 0 {
      PowerOfTwo(n - 1);
    }
  }

  lemma {:induction false} Pow2Positive(n: nat)
    ensures Pow2(n) >= 1
  {
    if n > 0 {
      Pow2Positive(n - 1);
    }
  }

  lemma {:induction false} Pow2Add(m: nat, n: nat)
    ensures Pow2(m + n) == Pow2(m) * Pow2(n)
  {
    if m > 0 {
      Pow2Add(m - 1, n);
      assert m + n - 1 == (m - 1) + n;
    }
  }

  lemma Pow2Of62()
    ensures Pow2(30) == 0x4000_0000 && Pow2(31) == 0x8000_0000 && Pow2(32) == 0x1_0000_0000
    ensures Pow2(62) == 0x4000_0000_0000_0000
  {
    assert Pow2(5) == 32;
    Pow2Add(5, 5);
    Pow2Add(10, 10);
    Pow2Add(10, 20);
    Pow2Add(31, 31);
  }

  function Scaled(nominal: real, jitter: real): real {
    nominal * jitter
  }

  function Truncate(x: real): int {
    if x >= 0.0 then x.Floor else -(-x).Floor
  }

  /** Go's conversion of a float to a Duration: truncation where an int64 can hold it, and any int64
      elsewhere. */
  predicate MayConvert(x: real, d: int) {
    MIN_INT64 <= d <= MAX_INT64 && (MIN_INT64 <= Truncate(x) <= MAX_INT64 ==> d == Truncate(x))
  }

  method ToDuration(x: real) returns (d: int)
    ensures MayConvert(x, d)
  {
    var whole := Truncate(x);
    if MIN_INT64 <= whole <= MAX_INT64 {
      d := whole;
    } else {
      d := *;
      d := Wrap64(d);
    }
  }

  /** The wait before jitter and before the cap, as int64 arithmetic leaves it. */
  function Product(o: RetryOptions, try: nat): int
    requires try >= 1
  {
    if o.policy.Exponential? then Wrap64(Wrap64(Wrap64(Pow2(try - 1)) - 1) * o.retryDelay)
    else if try > 1 then o.retryDelay else 0
  }

  /** What calcDelay may return for a try and a jitter. */
  ghost predicate MayDelay(o: RetryOptions, try: nat, jitter: real, delay: int)
    requires try >= 1
  {
    exists d :: MayConvert(Scaled(Product(o, try) as real, jitter), d) && delay == Min(d, o.maxRetryDelay)
  }

  /** What it may return with some jitter. */
  ghost predicate MayWait(o: RetryOptions, try: nat, delay: int)
    requires try >= 1
  {
    exists j :: IsJitter(j) && MayDelay(o, try, j, delay)
  }

  /** The wait with its jitter, capped. */
  function Jittered(o: RetryOptions, nominal: int, jitter: real): int {
    Min(Scaled(nominal as real, jitter).Floor, o.maxRetryDelay)
  }

  /** calcDelay. The cap always holds; while the wait fits, it is the capped nominal wait with
      jitter, and the first try does not wait. */
  method CalcDelay(o: RetryOptions, try: nat, jitter: real) returns (delay: int)
    requires try >= 1 && IsJitter(jitter)
    requires 0 <= o.retryDelay <= o.maxRetryDelay <= MAX_INT64
    ensures MayDelay(o, try, jitter, delay)
    ensures delay <= o.maxRetryDelay
    ensures Fits(o, try) ==> 0 <= delay && delay == Jittered(o, Nominal(o, try), jitter)
    ensures try == 1 ==> delay == 0
  {
    delay := 0;
    match o.policy {
      case Exponential =>
        var pow := Pow(2, try - 1);
        PowerOfTwo(try - 1);
        delay := Wrap64(Wrap64(pow - 1) * o.retryDelay);
      case Fixed =>
        if try > 1 {
          delay := o.retryDelay;
        }
    }
    assert delay == Product(o, try);
    hide Product, Scaled, MayConvert, Nominal, Jittered;
    var d := ToDuration(Scaled(delay as real, jitter));
    delay := d;
    if delay > o.maxRetryDelay {
      delay := o.maxRetryDelay;
    }
    assert delay == Min(d, o.maxRetryDelay);
    DelayMeans(o, try, jitter, delay);
  }

  /** The cap always holds; and while the wait fits, there is but one delay it may be. */
  lemma DelayMeans(o: RetryOptions, try: nat, jitter: real, delay: int)
    requires try >= 1 && IsJitter(jitter) && 0 <= o.retryDelay <= o.maxRetryDelay
    requires MayDelay(o, try, jitter, delay)
    ensures delay <= o.maxRetryDelay
    ensures Fits(o, try) ==> 0 <= delay && delay == Jittered(o, Nominal(o, try), jitter)
    ensures try == 1 ==> delay == 0
  {
    FitsMeans(o, try);
    FittingProduct(o, try);
    hide Nominal, Product;
    if Fits(o, try) || try == 1 {
      JitterRange(Product(o, try), jitter);
    }
    hide Scaled;
  }

  lemma FittingProduct(o: RetryOptions, try: nat)
    requires 1 <= try && 0 <= o.retryDelay
    ensures Fits(o, try) || try == 1 ==> Product(o, try) == Nominal(o, try)
    ensures try == 1 ==> Product(o, try) == 0
  {
    if o.policy.Exponential? {
      ExponentialWait(o, try, Wrap64(Pow2(try - 1)));
    }
    assert try == 1 ==> Nominal(o, try) == 0;
    hide Wrap64;
  }

  lemma ExponentialWait(o: RetryOptions, try: nat, pow: int)
    requires o.policy.Exponential? && 1 <= try && 0 <= o.retryDelay
    requires pow == Wrap64(Pow2(try - 1))
    ensures Fits(o, try) || try == 1 ==> Wrap64(Wrap64(pow - 1) * o.retryDelay) == Nominal(o, try)
  {
    FitsMeans(o, try);
    Pow2Positive(try - 1);
    if o.retryDelay == 0 {
      Distribute(Pow2(try - 1) - 1, 0, 0);
      assert Wrap64(pow - 1) * 0 == 0;
    } else if try <= 63 {
      assert Wrap64(pow - 1) == Pow2(try - 1) - 1;
    }
  }

  /** Only a wait of zero fits beyond the 63rd try. */
  lemma FitsMeans(o: RetryOptions, try: nat)
    requires 1 <= try && 0 <= o.retryDelay
    ensures Nominal(o, try) >= 0
    ensures o.policy.Exponential? && try <= 63 ==> Pow2(try - 1) <= Pow2(62) <= MAX_INT64
    ensures o.policy.Exponential? && Fits(o, try) && try > 63 ==> o.retryDelay == 0
  {
    Pow2Of62();
    Pow2Positive(try - 1);
    Distribute(Pow2(try - 1) - 1, 0, o.retryDelay);
    if try <= 63 {
      Pow2Monotone(try - 1, 62);
    } else if o.retryDelay > 0 {
      Pow2Monotone(63, try - 1);
      Distribute(o.retryDelay - 1, 1, Pow2(try - 1) - 1);
    }
  }

  lemma JitterRange(nominal: int, jitter: real)
    requires 0 <= nominal && 13 * nominal <= 10 * TWO_63 && IsJitter(jitter)
    ensures 0.0 <= Scaled(nominal as real, jitter) < TWO_63 as real
    ensures Scaled(nominal as real, jitter).Floor <= MAX_INT64
    ensures 0 <= 10 * Scaled(nominal as real, jitter).Floor <= 13 * nominal
    ensures nominal == 0 ==> Scaled(nominal as real, jitter) == 0.0
  {
    ScaledBounds(nominal as real, jitter);
    hide Scaled;
    FloorBound(nominal, Scaled(nominal as real, jitter));
  }

  lemma ScaledBounds(x: real, j: real)
    requires 0.0 <= x && IsJitter(j)
    ensures 0.0 <= Scaled(x, j) && 10.0 * Scaled(x, j) <= 13.0 * x
    ensures x > 0.0 ==> 10.0 * Scaled(x, j) < 13.0 * x
  {
    ScaleMonotone(x, 0.0, j);
    ScaleMonotone(x, j, 1.3);
  }

  lemma FloorBound(n: int, y: real)
    requires 0.0 <= y && 10.0 * y <= 13.0 * n as real && (n > 0 ==> 10.0 * y < 13.0 * n as real)
    ensures 0 <= 10 * y.Floor <= 13 * n
    ensures 13 * n <= 10 * TWO_63 ==> y < TWO_63 as real && y.Floor <= MAX_INT64
  {
    var f := y.Floor;
    assert f as real <= y;
    assert (10 * f) as real <= (13 * n) as real;
    if 13 * n <= 10 * TWO_63 {
      assert 13.0 * n as real <= 10.0 * TWO_63 as real;
    }
  }

  lemma ScaleMonotone(x: real, j: real, k: real)
    requires 0.0 <= x && j <= k
    ensures x * j <= x * k
    ensures x > 0.0 && j < k ==> x * j < x * k
  {
  }

  /** At the default delay of four seconds the waits fit up to the 31st primary try, and no further. */
  lemma {:induction false} DefaultFits(try: nat)
    requires 1 <= try
    ensures Fits(DEFAULT, try) <==> try <= 31
  {
    Pow2Of62();
    if try <= 31 {
      Pow2Monotone(try - 1, 30);
    } else {
      Pow2Monotone(31, try - 1);
    }
  }

  lemma {:induction false} Pow2Monotone(m: nat, n: nat)
    requires m <= n
    ensures Pow2(m) <= Pow2(n)
  {
    if m < n {
      Pow2Monotone(m, n - 1);
    }
  }

  // ----- Exactly when no wait is negative -----

  lemma Quotient63(w: int)
    requires w > 0 && 13 * w > 10 * TWO_63 && w <= MAX_INT64
    ensures IsJitter(TWO_63 as real / w as real) && Scaled(w as real, TWO_63 as real / w as real) == TWO_63 as real
  {
    Divide(TWO_63 as real, w as real);
    var j := TWO_63 as real / w as real;
    if j >= 1.3 {
      ScaleMonotone(w as real, 1.3, j);
    }
    if j < 0.8 {
      ScaleMonotone(w as real, j, 0.8);
    }
  }

  lemma Divide(a: real, b: real)
    requires b != 0.0
    ensures b * (a / b) == a
  {
  }

  lemma NegativeWait(o: RetryOptions, try: nat)
    requires try >= 1 && 0 <= o.maxRetryDelay && MIN_INT64 <= Product(o, try) < 0
    ensures exists j, d :: IsJitter(j) && MayDelay(o, try, j, d) && d < 0
  {
    hide Product;
    var w := Product(o, try);
    var x := Scaled(w as real, 1.25);
    assert x <= -1.25 && Truncate(x) <= -1;
    var d := if MIN_INT64 <= Truncate(x) then Truncate(x) else -1;
    assert MayConvert(x, d) && d == Min(d, o.maxRetryDelay);
    assert IsJitter(1.25) && MayDelay(o, try, 1.25, d);
  }

  lemma OverflowingWait(o: RetryOptions, try: nat)
    requires try >= 1 && 0 <= o.maxRetryDelay && 0 <= Product(o, try) <= MAX_INT64 && 13 * Product(o, try) > 10 * TWO_63
    ensures exists j, d :: IsJitter(j) && MayDelay(o, try, j, d) && d < 0
  {
    hide Product;
    var w := Product(o, try);
    var j := TWO_63 as real / w as real;
    Quotient63(w);
    hide Scaled;
    assert Truncate(TWO_63 as real) == TWO_63;
    assert MayConvert(Scaled(w as real, j), -1) && -1 == Min(-1, o.maxRetryDelay);
    assert MayDelay(o, try, j, -1);
  }

  lemma ProductRange(o: RetryOptions, try: nat)
    requires try >= 1 && 0 <= o.retryDelay <= MAX_INT64
    ensures MIN_INT64 <= Product(o, try) <= MAX_INT64
  {
    hide Wrap64;
  }

  /** A wait that calcDelay may return lies between zero and the cap for every jitter, if and only if
      the int64 product is not negative and 1.3 times it is at most 2^63. */
  lemma NeverNegative(o: RetryOptions, try: nat)
    requires try >= 1 && 0 <= o.retryDelay <= o.maxRetryDelay <= MAX_INT64
    ensures (forall j, d :: IsJitter(j) && MayDelay(o, try, j, d) ==> 0 <= d <= o.maxRetryDelay) <==>
            0 <= Product(o, try) && 13 * Product(o, try) <= 10 * TWO_63
  {
    ProductRange(o, try);
    hide Product;
    var w := Product(o, try);
    if w < 0 {
      NegativeWait(o, try);
    } else if 13 * w > 10 * TWO_63 {
      OverflowingWait(o, try);
    } else {
      forall j, d | IsJitter(j) && MayDelay(o, try, j, d)
        ensures 0 <= d <= o.maxRetryDelay
      {
        JitterRange(w, j);
      }
    }
  }

  // ----- The default delay -----

  const DEFAULT: RetryOptions := RetryOptions(Exponential, 4, 60 * SECOND, 4 * SECOND, 120 * SECOND)

  /** The n-th power of two times the default delay, as an int64 holds it. */
  function Shifted(n: nat): int {
    Wrap64(Pow2(n) * (4 * SECOND))
  }

  lemma Doubled(n: nat, x: int, y: int)
    requires Shifted(n) == x && y == Wrap64(2 * x)
    ensures Shifted(n + 1) == y
  {
    WrapTimes(Pow2(n) * (4 * SECOND), 2);
    assert Pow2(n + 1) * (4 * SECOND) == (Pow2(n) * (4 * SECOND)) * 2;
    hide Pow2, Wrap64;
  }

  lemma WrapMinus(a: int, b: int)
    ensures Wrap64(Wrap64(a) - b) == Wrap64(a - b)
  {
    var k := (a - MIN_INT64) / TWO_64;
    assert Wrap64(a) == a - k * TWO_64;
    WrapShift(a - b, -k);
    assert a - b + (-k) * TWO_64 == Wrap64(a) - b;
  }

  lemma DefaultProduct(try: nat)
    requires try >= 1
    ensures Product(DEFAULT, try) == Wrap64(Shifted(try - 1) - 4 * SECOND)
  {
    var p := Pow2(try - 1);
    WrapMinus(p, 1);
    WrapTimes(p - 1, 4 * SECOND);
    WrapMinus(p * (4 * SECOND), 4 * SECOND);
    assert (p - 1) * (4 * SECOND) == p * (4 * SECOND) - 4 * SECOND;
    hide Wrap64, Pow2;
  }

  /** From the 53rd doubling on nothing is left in an int64. */
  lemma ShiftedTable()
    ensures Shifted(31) == 8589934592000000000 && Shifted(32) == -1266874889709551616 &&
            Shifted(33) == -2533749779419103232
    ensures Shifted(34) == -5067499558838206464 && Shifted(35) == 8311744956033138688 &&
            Shifted(36) == -1823254161643274240
    ensures Shifted(37) == -3646508323286548480 && Shifted(38) == -7293016646573096960 &&
            Shifted(39) == 3860710780563357696
    ensures Shifted(40) == 7721421561126715392 && Shifted(41) == -3003900951456120832 &&
            Shifted(42) == -6007801902912241664
    ensures Shifted(43) == 6431140267885068288 && Shifted(44) == -5584463537939415040 &&
            Shifted(45) == 7277816997830721536
    ensures Shifted(46) == -3891110078048108544 && Shifted(47) == -7782220156096217088 &&
            Shifted(48) == 2882303761517117440
    ensures Shifted(49) == 5764607523034234880 && Shifted(50) == -6917529027641081856 &&
            Shifted(51) == 4611686018427387904
    ensures Shifted(52) == -9223372036854775808 && Shifted(53) == 0
  {
    Pow2Of62();
    hide Pow2, Shifted;
    ShiftedStart();
    Doubled(31, 8589934592000000000, -1266874889709551616);
    Doubled(32, -1266874889709551616, -2533749779419103232);
    Doubled(33, -2533749779419103232, -5067499558838206464);
    Doubled(34, -5067499558838206464, 8311744956033138688);
    Doubled(35, 8311744956033138688, -1823254161643274240);
    Doubled(36, -1823254161643274240, -3646508323286548480);
    Doubled(37, -3646508323286548480, -7293016646573096960);
    Doubled(38, -7293016646573096960, 3860710780563357696);
    Doubled(39, 3860710780563357696, 7721421561126715392);
    Doubled(40, 7721421561126715392, -3003900951456120832);
    Doubled(41, -3003900951456120832, -6007801902912241664);
    Doubled(42, -6007801902912241664, 6431140267885068288);
    Doubled(43, 6431140267885068288, -5584463537939415040);
    Doubled(44, -5584463537939415040, 7277816997830721536);
    Doubled(45, 7277816997830721536, -3891110078048108544);
    Doubled(46, -3891110078048108544, -7782220156096217088);
    Doubled(47, -7782220156096217088, 2882303761517117440);
    Doubled(48, 2882303761517117440, 5764607523034234880);
    Doubled(49, 5764607523034234880, -6917529027641081856);
    Doubled(50, -6917529027641081856, 4611686018427387904);
    Doubled(51, 4611686018427387904, -9223372036854775808);
    Doubled(52, -9223372036854775808, 0);
  }

  lemma ShiftedStart()
    ensures Shifted(31) == 8589934592000000000
  {
    Pow2Of62();
    hide Pow2;
  }

  lemma {:induction false} ShiftedOut(n: nat)
    requires n >= 53
    ensures Shifted(n) == 0
  {
    hide Shifted;
    if n == 53 {
      ShiftedTable();
    } else {
      ShiftedOut(n - 1);
      Doubled(n - 1, 0, 0);
    }
  }

  predicate StaysInRange(w: int) {
    0 <= w && 13 * w <= 10 * TWO_63
  }

  lemma EarlyProducts(try: nat)
    requires 1 <= try <= 31
    ensures StaysInRange(Product(DEFAULT, try))
  {
    DefaultFits(try);
    FittingProduct(DEFAULT, try);
    FitsMeans(DEFAULT, try);
    hide Product, Pow2;
  }

  lemma OneProduct(try: nat, x: int)
    requires try >= 1 && Shifted(try - 1) == x
    ensures Product(DEFAULT, try) == Wrap64(x - 4 * SECOND)
  {
    DefaultProduct(try);
  }

  lemma MiddleProducts()
    ensures Product(DEFAULT, 32) == 8589934588000000000 && Product(DEFAULT, 33) == -1266874893709551616
    ensures Product(DEFAULT, 34) == -2533749783419103232 && Product(DEFAULT, 35) == -5067499562838206464
    ensures Product(DEFAULT, 36) == 8311744952033138688 && Product(DEFAULT, 37) == -1823254165643274240
    ensures Product(DEFAULT, 38) == -3646508327286548480 && Product(DEFAULT, 39) == -7293016650573096960
    ensures Product(DEFAULT, 40) == 3860710776563357696 && Product(DEFAULT, 41) == 7721421557126715392
    ensures Product(DEFAULT, 42) == -3003900955456120832
  {
    ShiftedTable();
    hide Product, Shifted;
    OneProduct(32, 8589934592000000000);
    OneProduct(33, -1266874889709551616);
    OneProduct(34, -2533749779419103232);
    OneProduct(35, -5067499558838206464);
    OneProduct(36, 8311744956033138688);
    OneProduct(37, -1823254161643274240);
    OneProduct(38, -3646508323286548480);
    OneProduct(39, -7293016646573096960);
    OneProduct(40, 3860710780563357696);
    OneProduct(41, 7721421561126715392);
    OneProduct(42, -3003900951456120832);
  }

  lemma LateProducts()
    ensures Product(DEFAULT, 43) == -6007801906912241664 && Product(DEFAULT, 44) == 6431140263885068288
    ensures Product(DEFAULT, 45) == -5584463541939415040 && Product(DEFAULT, 46) == 7277816993830721536
    ensures Product(DEFAULT, 47) == -3891110082048108544 && Product(DEFAULT, 48) == -7782220160096217088
    ensures Product(DEFAULT, 49) == 2882303757517117440 && Product(DEFAULT, 50) == 5764607519034234880
    ensures Product(DEFAULT, 51) == -6917529031641081856 && Product(DEFAULT, 52) == 4611686014427387904
    ensures Product(DEFAULT, 53) == 9223372032854775808
  {
    ShiftedTable();
    hide Product, Shifted;
    OneProduct(43, -6007801902912241664);
    OneProduct(44, 6431140267885068288);
    OneProduct(45, -5584463537939415040);
    OneProduct(46, 7277816997830721536);
    OneProduct(47, -3891110078048108544);
    OneProduct(48, -7782220156096217088);
    OneProduct(49, 2882303761517117440);
    OneProduct(50, 5764607523034234880);
    OneProduct(51, -6917529027641081856);
    OneProduct(52, 4611686018427387904);
    OneProduct(53, -9223372036854775808);
  }

  lemma LastProducts(try: nat)
    requires try >= 54
    ensures Product(DEFAULT, try) == -4 * SECOND
  {
    DefaultProduct(try);
    ShiftedOut(try - 1);
    hide Product, Shifted, Pow2;
  }

  lemma DefaultProducts(try: nat)
    requires try >= 1
    ensures StaysInRange(Product(DEFAULT, try)) <==> try <= 31 || try in {40, 44, 49, 50, 52}
  {
    hide Product;
    if try <= 31 {
      EarlyProducts(try);
    } else if try <= 42 {
      MiddleProducts();
    } else if try <= 53 {
      LateProducts();
    } else {
      LastProducts(try);
    }
  }

  /** At the defaults no wait is ever negative up to the 31st primary try, on five later ones, and on
      no others. */
  lemma DefaultDelays(try: nat)
    requires try >= 1
    ensures Defaults(RetryOptions(Exponential, 0, 0, 0, 0)) == DEFAULT
    ensures (forall j, d :: IsJitter(j) && MayDelay(DEFAULT, try, j, d) ==> 0 <= d <= DEFAULT.maxRetryDelay) <==>
            try <= 31 || try in {40, 44, 49, 50, 52}
  {
    DefaultProducts(try);
    hide Product;
    NeverNegative(DEFAULT, try);
  }

  lemma AlwaysNegative(o: RetryOptions, try: nat, j: real, d: int)
    requires try >= 1 && 13 * Product(o, try) >= 10 * MIN_INT64 && Product(o, try) <= -2
    requires IsJitter(j) && MayDelay(o, try, j, d)
    ensures d < 0
  {
    hide Product;
    var w := -Product(o, try);
    ScaledBounds(w as real, j);
    ScaleMonotone(w as real, 0.8, j);
    assert Scaled(Product(o, try) as real, j) == -Scaled(w as real, j);
    FloorBound(w, Scaled(w as real, j));
    assert w as real >= 2.0 && w as real * 0.8 >= 1.6;
    assert Scaled(w as real, j) == w as real * j >= 1.6;
    hide Scaled;
  }

  /** At the defaults the wait before the 33rd primary try is negative whatever the jitter, and so is
      every wait from the 54th on: time.Sleep takes that for no wait at all. */
  lemma WaitTurnsNegative(try: nat, j: real, d: int)
    requires try == 33 || try >= 54
    requires IsJitter(j) && MayDelay(DEFAULT, try, j, d)
    ensures d < 0
  {
    if try == 33 {
      MiddleProducts();
    } else {
      LastProducts(try);
    }
    hide Product;
    AlwaysNegative(DEFAULT, try, j, d);
  }

  function SumNominal(o: RetryOptions, n: nat): int {
    if n == 0 then 0 else SumNominal(o, n - 1) + Nominal(o, n)
  }

  /** Without jitter and cap, n exponential tries wait (2^n - 1 - n) delays in all. */
  lemma {:induction false} NominalSum(o: RetryOptions, n: nat)
    requires o.policy.Exponential?
    ensures SumNominal(o, n) == (Pow2(n) - 1 - n) * o.retryDelay
  {
    if n > 0 {
      NominalSum(o, n - 1);
      Distribute(Pow2(n - 1) - 1 - (n - 1), Pow2(n - 1) - 1, o.retryDelay);
    }
  }

  function Sum(delays: seq<int>): int {
    if delays == [] then 0 else Sum(delays[..|delays| - 1]) + delays[|delays| - 1]
  }

  /** `delay` is what the try waits for with some jitter, and no product overflowed. */
  ghost predicate IsWait(o: RetryOptions, try: nat, delay: int)
    requires try >= 1
  {
    Fits(o, try) && exists j :: IsJitter(j) && delay == Jittered(o, Nominal(o, try), j)
  }

  lemma WaitBounds(o: RetryOptions, try: nat, delay: int)
    requires try >= 1 && 0 <= o.retryDelay <= o.maxRetryDelay && IsWait(o, try, delay)
    ensures 0 <= delay <= o.maxRetryDelay && 10 * delay <= 13 * Nominal(o, try)
    ensures try == 1 ==> delay == 0
  {
    var j :| IsJitter(j) && delay == Jittered(o, Nominal(o, try), j);
    FitsMeans(o, try);
    assert try == 1 ==> Nominal(o, try) == 0;
    hide Nominal, Scaled;
    JitterRange(Nominal(o, try), j);
  }

  /** Over a whole run of primary tries the waits add up to at most 1.3 times the nominal ones,
      and to at most one MaxRetryDelay for each try but the first. */
  lemma {:induction false} TotalWait(o: RetryOptions, delays: seq<int>)
    requires 0 <= o.retryDelay <= o.maxRetryDelay
    requires forall i :: 0 <= i < |delays| ==> IsWait(o, i + 1, delays[i])
    ensures 0 <= Sum(delays)
    ensures 10 * Sum(delays) <= 13 * SumNominal(o, |delays|)
    ensures delays != [] ==> Sum(delays) <= (|delays| - 1) * o.maxRetryDelay
  {
    if delays != [] {
      var n := |delays|;
      TotalWait(o, delays[..n - 1]);
      WaitBounds(o, n, delays[n - 1]);
      if n > 1 {
        Distribute(n - 2, 1, o.maxRetryDelay);
      }
      hide IsWait, Nominal;
    }
  }
}
