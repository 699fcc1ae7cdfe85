// Amounts of bitcoin as whole satoshis and as doubles, and the fee on an amount. Every operation
// on doubles is the exact one followed by a rounding that is only known to obey section 4.3 of
// IEEE 754-2008: the relative error is at most 2^-53 and whole numbers up to 2^53 stay as they are.
module Satoshi {
  type Rounding = real -> real

  function Abs(x: real): real { if x < 0.0 then -x else x }

  // 2^53 == 9007199254740992
  predicate Near(exact: real, rounded: real)
  {
    Abs(rounded - exact) * 9007199254740992.0 <= Abs(exact)
  }

  predicate KeepsWhole(rnd: Rounding, k: int)
  {
    -9007199254740992 <= k <= 9007199254740992 ==> rnd(k as real) == k as real
  }

  ghost predicate IsRounding(rnd: Rounding)
  {
    (forall x: real :: Near(x, rnd(x))) && forall k: int :: KeepsWhole(rnd, k)
  }

  // A C++ cast to an integer
  function Truncate(x: real): int { if x < 0.0 then -((-x).Floor) else x.Floor }

  function Ceil(x: real): int { -((-x).Floor) }

  // ---------- the conversions, with 1e8 satoshis to the bitcoin ----------

  function SatoshiIntToJsonDouble(rnd: Rounding, n: int): real
  {
    rnd(rnd(n as real) / 100000000.0)
  }

  function JsonDoubleToSatoshiInt(rnd: Rounding, x: real): int
  {
    Truncate(rnd(rnd(x * 100000000.0) + (if x < 0.0 then -0.5 else 0.5)))
  }

  function RoundUpToNearestSatoshi(rnd: Rounding, x: real): real
  {
    rnd(rnd(Ceil(rnd(x * 100000000.0)) as real) / 100000000.0)
  }

  // operator* on doubles
  function Times(rnd: Rounding, x: real, y: real): real { rnd(x * y) }

  // 1.5 percent
  function TransactionFee(rnd: Rounding, amount: real): real
  {
    RoundUpToNearestSatoshi(rnd, Times(rnd, amount, rnd(1.5 / 100.0)))
  }

  // ---------- the round trip ----------

  lemma ScaledBack(rnd: Rounding, n: int, x: real)
    requires IsRounding(rnd) && -1000000000000000 <= n <= 1000000000000000 && x == SatoshiIntToJsonDouble(rnd, n)
    ensures Near(n as real, x * 100000000.0)
    ensures n < 0 <==> x < 0.0
  {
    assert KeepsWhole(rnd, n);
    assert Near(n as real / 100000000.0, x);
  }

  lemma FloorIs(x: real, n: int)
    requires n as real <= x < n as real + 1.0
    ensures x.Floor == n
  {
  }

  // Three roundings cannot carry an amount to the next half.
  lemma StaysBelowHalf(n: real, scaled: real, product: real, half: real, sum: real)
    requires Abs(n) <= 1000000000000000.0 && Near(n, scaled) && Near(scaled, product) && Near(product + half, sum)
    requires half == 0.5 || half == -0.5
    ensures n + half - 0.35 <= sum <= n + half + 0.35
  {
    assert Abs(scaled) <= 1000000000000001.0;
    assert Abs(product - n) <= 0.23;
    assert Abs(product + half) <= 1000000000000001.0;
  }

  // Every amount of up to ten million bitcoins, of either sign, survives being a double.
  lemma SatoshiRoundTrip(rnd: Rounding, n: int)
    requires IsRounding(rnd) && -1000000000000000 <= n <= 1000000000000000
    ensures JsonDoubleToSatoshiInt(rnd, SatoshiIntToJsonDouble(rnd, n)) == n
  {
    var x := SatoshiIntToJsonDouble(rnd, n);
    ScaledBack(rnd, n, x);
    var scaled := x * 100000000.0;
    var product := rnd(scaled);
    assert Near(scaled, product);
    var half := if x < 0.0 then -0.5 else 0.5;
    var sum := rnd(product + half);
    assert Near(product + half, sum);
    hide Near;
    StaysBelowHalf(n as real, scaled, product, half, sum);
    if n < 0 { FloorIs(-sum, -n); } else { FloorIs(sum, n); }
  }

  // ---------- any double ----------

  // The whole number nearest to the amount in satoshis, but for the error of two roundings.
  lemma RoundsToNearest(rnd: Rounding, x: real)
    requires IsRounding(rnd)
    ensures var n, satoshis := JsonDoubleToSatoshiInt(rnd, x) as real, x * 100000000.0;
            Abs(n - satoshis) <= 0.5 + (3.0 * Abs(satoshis) + 1.0) / 9007199254740992.0
  {
    var s := x * 100000000.0;
    var half := if x < 0.0 then -0.5 else 0.5;
    RoundedNear(rnd, s);
    RoundedNear(rnd, rnd(s) + half);
    hide IsRounding;
    TruncatedNear(s, rnd(s), half, rnd(rnd(s) + half));
  }

  lemma TruncatedNear(s: real, product: real, half: real, sum: real)
    requires Near(s, product) && Near(product + half, sum) && half == if s < 0.0 then -0.5 else 0.5
    ensures Abs(Truncate(sum) as real - s) <= 0.5 + (3.0 * Abs(s) + 1.0) / 9007199254740992.0
  {
    if s < 0.0 {
      assert product <= 0.0 && sum <= 0.0;
    } else {
      assert product >= 0.0 && sum >= 0.0;
    }
  }

  // A whole number of bitcoins has that double exactly, and a satoshi is a hundred millionth of it.
  lemma WholeBitcoins(rnd: Rounding, bitcoins: int)
    requires IsRounding(rnd) && -90000000 <= bitcoins <= 90000000
    ensures SatoshiIntToJsonDouble(rnd, 100000000 * bitcoins) == bitcoins as real
  {
    assert KeepsWhole(rnd, 100000000 * bitcoins) && KeepsWhole(rnd, bitcoins);
    assert (100000000 * bitcoins) as real / 100000000.0 == bitcoins as real;
  }

  // Rounding up never loses and adds less than a satoshi, for amounts of either sign, but for the
  // error of three roundings.
  lemma RoundsUp(rnd: Rounding, x: real)
    requires IsRounding(rnd)
    ensures var before, after := x * 100000000.0, RoundUpToNearestSatoshi(rnd, x) * 100000000.0;
            var error := (4.0 * Abs(before) + 4.0) / 9007199254740992.0;
            before - error <= after <= before + 1.0 + error
  {
    var s := x * 100000000.0;
    var up := Ceil(rnd(s)) as real;
    var after := rnd(rnd(up) / 100000000.0);
    assert RoundUpToNearestSatoshi(rnd, x) == after;
    hide *;
    RoundedNear(rnd, s);
    RoundedNear(rnd, up);
    RoundedNear(rnd, rnd(up) / 100000000.0);
    RoundedUpNear(s, rnd(s), rnd(up), after);
  }

  lemma RoundedUpNear(s: real, product: real, up: real, after: real)
    requires Near(s, product) && Near(Ceil(product) as real, up) && Near(up / 100000000.0, after)
    ensures var error := (4.0 * Abs(s) + 4.0) / 9007199254740992.0;
            s - error <= after * 100000000.0 <= s + 1.0 + error
  {
    var c := Ceil(product) as real;
    assert product <= c < product + 1.0;
    assert Near(up, after * 100000000.0);
    assert Abs(c) <= Abs(product) + 1.0;
    assert Abs(product) <= 1.001 * Abs(s);
    assert Abs(up) <= 1.001 * Abs(c);
  }

  // ---------- the fee ----------

  // Three two hundredths of the amount, rounded up.
  function ExactFee(n: nat): (e: nat)
    ensures 200 * e >= 3 * n && 200 * (e - 1) < 3 * n
  {
    (3 * n + 199) / 200
  }

  // The number of satoshis the fee is rounded up to.
  function FeeInSatoshis(rnd: Rounding, amount: real): int
  {
    Ceil(rnd(Times(rnd, amount, rnd(1.5 / 100.0)) * 100000000.0))
  }

  lemma Scale(d: real, lo: real, k: real, hi: real)
    requires 0.0 <= d && lo <= k <= hi
    ensures d * lo <= d * k <= d * hi
  {
  }

  // A rounded rate times a positive amount.
  lemma RateTimes(d: real, rate: real)
    requires 0.0 <= d && Near(0.015, rate)
    ensures Abs(d * rate - 0.015 * d) * 9007199254740992.0 <= 0.015 * d
  {
    var low := 0.015 - 0.015 / 9007199254740992.0;
    var high := 0.015 + 0.015 / 9007199254740992.0;
    Scale(d, low, rate, high);
    assert d * low == 0.015 * d - 0.015 * d / 9007199254740992.0;
    assert d * high == 0.015 * d + 0.015 * d / 9007199254740992.0;
  }

  lemma FourRoundings(n: real, a: real, b: real, c: real, w: real)
    requires 0.0 <= n && Near(n, a) && Near(c, w) && Near(b, c)
    requires Abs(b - 0.015 * a) * 9007199254740992.0 <= 0.015 * a
    ensures Abs(w - 0.015 * n) * 9007199254740992.0 <= 0.0602 * n
  {
    assert 0.0 <= a;
    assert Abs(b - 0.015 * n) * 9007199254740992.0 <= 0.03001 * n;
    assert Abs(c - 0.015 * n) * 9007199254740992.0 <= 0.04502 * n;
  }

  // Before it is rounded up the fee is off by four roundings.
  lemma FeeIsClose(rnd: Rounding, n: nat) returns (w: real)
    requires IsRounding(rnd) && n <= 1000000000000000
    ensures Ceil(w) == FeeInSatoshis(rnd, SatoshiIntToJsonDouble(rnd, n))
    ensures Abs(w - 0.015 * n as real) * 9007199254740992.0 <= 0.0602 * n as real
  {
    hide Near; hide IsRounding; hide Ceil; hide SatoshiIntToJsonDouble; hide Times; hide NearProduct;
    var d := SatoshiIntToJsonDouble(rnd, n);
    ScaledBack(rnd, n, d);
    var rate := rnd(1.5 / 100.0);
    RoundedNear(rnd, 0.015);
    var fee := Times(rnd, d, rate);
    TimesNear(rnd, d, rate);
    w := rnd(fee * 100000000.0);
    RoundedNear(rnd, fee * 100000000.0);
    FeeChain(n as real, d, rate, fee, w);
  }

  lemma RoundedNear(rnd: Rounding, x: real)
    requires IsRounding(rnd)
    ensures Near(x, rnd(x))
  {
  }

  predicate NearProduct(x: real, y: real, rounded: real) { Near(x * y, rounded) }

  lemma TimesNear(rnd: Rounding, x: real, y: real)
    requires IsRounding(rnd)
    ensures NearProduct(x, y, Times(rnd, x, y))
  {
    RoundedNear(rnd, x * y);
  }

  lemma FeeChain(n: real, d: real, rate: real, fee: real, w: real)
    requires 0.0 <= n && Near(n, d * 100000000.0) && Near(0.015, rate)
    requires NearProduct(d, rate, fee) && Near(fee * 100000000.0, w)
    ensures Abs(w - 0.015 * n) * 9007199254740992.0 <= 0.0602 * n
  {
    NearIsPositive(n, d * 100000000.0);
    RateTimes(d, rate);
    Scaled(d * rate, fee, 0.015 * d);
    hide Near;
    FourRoundings(n, d * 100000000.0, d * rate * 100000000.0, fee * 100000000.0, w);
  }

  lemma NearIsPositive(x: real, r: real)
    requires 0.0 <= x && Near(x, r)
    ensures 0.0 <= r
  {
  }

  lemma Scaled(x: real, r: real, y: real)
    requires Near(x, r)
    ensures Near(x * 100000000.0, r * 100000000.0)
    ensures Abs(x * 100000000.0 - y * 100000000.0) == Abs(x - y) * 100000000.0
  {
  }

  lemma CeilIs(x: real, k: int)
    requires k as real - 1.0 < x <= k as real
    ensures Ceil(x) == k
  {
    FloorIs(-x, -k);
  }

  // The fee is never more than one satoshi off. Up to seven million bitcoins it is never too
  // small, and it is the exact one unless the exact one needed no rounding up.
  lemma FeeWithinOneSatoshi(rnd: Rounding, n: nat)
    requires IsRounding(rnd) && n <= 1000000000000000
    ensures var fee := FeeInSatoshis(rnd, SatoshiIntToJsonDouble(rnd, n));
            && ExactFee(n) - 1 <= fee <= ExactFee(n) + 1
            && (n <= 700000000000000 ==> ExactFee(n) <= fee)
            && (n <= 700000000000000 && n % 200 != 0 ==> fee == ExactFee(n))
  {
    var w := FeeIsClose(rnd, n);
    hide IsRounding; hide FeeInSatoshis; hide SatoshiIntToJsonDouble; hide Ceil;
    var e: int := ExactFee(n);
    Granularity(n, e, w);
    if w <= (e - 1) as real { CeilIs(w, e - 1); }
    else if w <= e as real { CeilIs(w, e); }
    else { CeilIs(w, e + 1); }
  }

  // Exact fees are multiples of a two hundredth of a satoshi.
  lemma Granularity(n: nat, e: nat, w: real)
    requires e == ExactFee(n) && n <= 1000000000000000
    requires Abs(w - 0.015 * n as real) * 9007199254740992.0 <= 0.0602 * n as real
    ensures e as real - 2.0 < w < e as real + 1.0
    ensures n <= 700000000000000 ==> w > e as real - 1.0
    ensures n <= 700000000000000 && n % 200 != 0 ==> w <= e as real
  {
    Hundredths(n, e);
    hide ExactFee;
    WithinError(n as real, 0.015 * n as real, e as real, w);
  }

  lemma Hundredths(n: nat, e: nat)
    requires e == ExactFee(n)
    ensures e as real - 0.995 <= 0.015 * n as real <= e as real
    ensures n % 200 != 0 ==> 0.015 * n as real <= e as real - 0.005
  {
    var m := 200 * e - 3 * n;
    assert 0 <= m <= 199 && (n % 200 != 0 ==> m >= 1);
    assert m as real == 200.0 * e as real - 3.0 * n as real;
  }

  lemma WithinError(n: real, f: real, e: real, w: real)
    requires 0.0 <= n <= 1000000000000000.0 && e - 0.995 <= f <= e
    requires Abs(w - f) * 9007199254740992.0 <= 0.0602 * n
    ensures e - 2.0 < w < e + 1.0
    ensures n <= 700000000000000.0 ==> w > e - 1.0
    ensures n <= 700000000000000.0 && f <= e - 0.005 ==> w <= e
  {
  }

  // The double that is returned stands for exactly that many satoshis.
  lemma FeeReadsBack(rnd: Rounding, n: nat)
    requires IsRounding(rnd) && n <= 1000000000000000
    ensures var d := SatoshiIntToJsonDouble(rnd, n);
            JsonDoubleToSatoshiInt(rnd, TransactionFee(rnd, d)) == FeeInSatoshis(rnd, d)
  {
    var d := SatoshiIntToJsonDouble(rnd, n);
    FeeWithinOneSatoshi(rnd, n);
    var fee := FeeInSatoshis(rnd, d);
    hide ExactFee;
    assert TransactionFee(rnd, d) == SatoshiIntToJsonDouble(rnd, fee);
    ExactFeeIsSmall(n);
    SatoshiRoundTrip(rnd, fee);
  }

  lemma ExactFeeIsSmall(n: nat)
    requires n <= 1000000000000000
    ensures ExactFee(n) <= 999999999999999
  {
  }
}
