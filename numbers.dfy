/** JavaScript numbers as the order book's analytics produce them.
    Divisions in the component can hit a zero denominator (an ask price of
    0.00, or two empty book sides), which JavaScript answers with NaN or an
    infinity rather than an exception; `Num` keeps those outcomes explicit. */
module Numbers {

  /** A finite value, NaN, or an infinity of the given sign. */
  datatype Num = Finite(value: real) | NaN | Infinity(negative: bool)

  /** IEEE division `n / d` where a zero `d` is always +0 (the model's
      prices and sums are never -0). */
  function Quotient(n: real, d: real): (r: Num)
    ensures r.Finite? <==> d != 0.0
    ensures r.Finite? ==> r.value * d == n
    ensures r.NaN? <==> d == 0.0 && n == 0.0
    ensures r.Infinity? ==> (r.negative <==> n < 0.0)
  {
    if d != 0.0 then Finite(n / d)
    else if n == 0.0 then NaN
    else Infinity(n < 0.0)
  }

  /** The integer nearest to `y`, ties away from zero: how `toFixed`
      rounds once its argument is scaled to whole digits. */
  function RoundHalfAway(y: real): (k: int)
    ensures -0.5 <= k as real - y <= 0.5
    ensures 0.0 <= y ==> 0 <= k
    ensures y <= 0.0 ==> k <= 0
    ensures k as real - y == 0.5 ==> y >= 0.0
    ensures k as real - y == -0.5 ==> y <= 0.0
  {
    if y >= 0.0 then (y + 0.5).Floor else -((-y + 0.5).Floor)
  }

  /** `parseFloat(x.toFixed(4))` on a finite number: the nearest multiple
      of 1/10000, ties away from zero, since `toFixed` rounds the magnitude
      and keeps the sign. */
  function Round4(x: real): (r: real)
    ensures (r * 10000.0).Floor as real == r * 10000.0
    ensures -0.00005 <= r - x <= 0.00005
    ensures 0.0 <= x ==> 0.0 <= r
    ensures x <= 0.0 ==> r <= 0.0
    ensures -1.0 <= x <= 1.0 ==> -1.0 <= r <= 1.0
  {
    var k := RoundHalfAway(x * 10000.0);
    assert -1.0 <= x <= 1.0 ==> -10000 <= k <= 10000;
    k as real / 10000.0
  }

  /** `parseFloat(x.toFixed(4))` on any number: NaN and infinities survive
      the round trip through their text forms unchanged. */
  function RoundNum(x: Num): (r: Num)
    ensures r.Finite? <==> x.Finite?
    ensures r.Finite? ==> -0.00005 <= r.value - x.value <= 0.00005
    ensures !x.Finite? ==> r == x
  {
    match x
    case Finite(v) => Finite(Round4(v))
    case _ => x
  }
}
