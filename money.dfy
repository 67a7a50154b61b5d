// Money arithmetic. Prices are exact reals here; the source works on binary
// floats and rounds with Python's round(x, 2).
module Money {

  function Abs(x: real): (r: real)
    ensures r >= 0.0 && (r == x || r == -x)
  {
    if x < 0.0 then -x else x
  }

  /** The number of whole cents in `x`, rounded to the nearest cent, ties to the even cent. */
  function RoundCents(x: real): (k: int)
    ensures Abs(k as real - x * 100.0) <= 0.5
  {
    var scaled := x * 100.0;
    var n := scaled.Floor;
    var frac := scaled - n as real;
    if frac < 0.5 then n
    else if frac > 0.5 then n + 1
    else if n % 2 == 0 then n
    else n + 1
  }

  /** round(x, 2): the nearest multiple of 0.01, ties to even. */
  function Round2(x: real): (r: real)
    ensures Abs(r - x) <= 0.005
    ensures (r * 100.0).Floor as real == r * 100.0
  {
    var k := RoundCents(x);
    assert Abs(k as real / 100.0 - x) == Abs(k as real - x * 100.0) / 100.0;
    assert (k as real / 100.0) * 100.0 == k as real;
    k as real / 100.0
  }

  /** A value that is already a whole number of cents is left unchanged by rounding. */
  lemma Round2OfCents(k: int)
    ensures Round2(k as real / 100.0) == k as real / 100.0
  {
    var x := k as real / 100.0;
    assert x * 100.0 == k as real;
    assert (x * 100.0).Floor == k;
  }

  /** Rounding never reverses the order of two amounts. */
  lemma Round2Monotone(x: real, y: real)
    requires x <= y
    ensures Round2(x) <= Round2(y)
  {
    var sx, sy := x * 100.0, y * 100.0;
    assert sx <= sy;
    var nx, ny := sx.Floor, sy.Floor;
    assert nx <= ny;
    if nx == ny {
      assert RoundCents(x) <= RoundCents(y);
    } else {
      assert RoundCents(x) <= nx + 1 <= ny <= RoundCents(y);
    }
  }
}
