/** Real arithmetic shared by the other modules. Products and quotients are named here, so that proofs about
    them need only the lemmas of this module. */
module Arithmetic {
  import opened Wrappers

  function Max(a: real, b: real): (m: real)
    ensures m >= a && m >= b && (m == a || m == b)
  {
    if a >= b then a else b
  }

  function Min(a: real, b: real): (m: real)
    ensures m <= a && m <= b && (m == a || m == b)
  {
    if a <= b then a else b
  }

  /** How far `value` lies above `basis`, in percent; nothing without a positive basis. */
  function Percent(value: real, basis: real): Option<real> {
    if basis <= 0.0 then None else Some((value / basis - 1.0) * 100.0)
  }

  function Times(x: real, y: real): real { x * y }

  function Ratio(x: real, p: real): real
    requires p > 0.0
  {
    x / p
  }

  lemma {:induction false} TimesUnits(x: real)
    ensures Times(x, 0.0) == Times(0.0, x) == 0.0 && Times(1.0, x) == x
  {
  }

  lemma {:induction false} TimesOneMore(x: real, n: real)
    ensures Times(x, n + 1.0) == Times(x, n) + x
  {
  }

  lemma {:induction false} TimesSum(x: real, m: real, n: real)
    ensures Times(x, m + n) == Times(x, m) + Times(x, n)
  {
  }

  lemma {:induction false} TimesMonotone(a: real, x: real, y: real)
    requires a >= 0.0 && x <= y
    ensures Times(a, x) <= Times(a, y) && Times(x, a) <= Times(y, a)
  {
    assert a * (y - x) >= 0.0;
  }

  lemma {:induction false} TimesAssociates(a: real, b: real, c: real)
    ensures Times(a, Times(b, c)) == Times(Times(a, b), c)
  {
  }

  lemma {:induction false} RatioTimes(x: real, p: real)
    requires p > 0.0
    ensures Times(Ratio(x, p), p) == x
  {
  }

  lemma {:induction false} RatioUnique(x: real, p: real, q: real)
    requires p > 0.0 && Times(q, p) == x
    ensures Ratio(x, p) == q
  {
    var r := x / p;
    assert r * p == x;
    assert (r - q) * p == 0.0;
  }

  lemma {:induction false} RatioMonotone(x: real, y: real, p: real)
    requires p > 0.0 && x <= y
    ensures Ratio(x, p) <= Ratio(y, p)
  {
    var q, r := x / p, y / p;
    assert q * p == x && r * p == y;
    if r < q { assert (q - r) * p > 0.0; }
  }

  lemma {:induction false} RatioBounds(x: real, p: real, lo: real, hi: real)
    requires p > 0.0 && Times(lo, p) <= x <= Times(hi, p)
    ensures lo <= Ratio(x, p) <= hi
  {
    hide Ratio, Times;
    RatioMonotone(Times(lo, p), x, p);
    RatioMonotone(x, Times(hi, p), p);
    RatioUnique(Times(lo, p), p, lo);
    RatioUnique(Times(hi, p), p, hi);
  }

  /** One step of size 1/p from w towards t, as a weighted sum. */
  lemma {:induction false} StepWeights(w: real, t: real, p: real)
    requires p >= 1.0
    ensures var a := Ratio(1.0, p);
      0.0 <= a <= 1.0 && w + Ratio(t - w, p) == Times(1.0 - a, w) + Times(a, t)
  {
    var a := 1.0 / p;
    assert a * p == 1.0;
    RatioBounds(1.0, p, 0.0, 1.0);
    var d := t - w;
    assert (a * d) * p == d * (a * p) == d;
    RatioUnique(d, p, a * d);
    assert a * d == a * t - a * w;
  }
}
