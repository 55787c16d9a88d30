/** Products of reals in the unit interval, stated one fact at a time. */
module RealMath {

  predicate Unit(x: real) {
    0.0 <= x <= 1.0
  }

  function Min(a: real, b: real): real {
    if a <= b then a else b
  }

  function Max(a: real, b: real): real {
    if a >= b then a else b
  }

  function Clamp01(x: real): (r: real)
    ensures Unit(r) && (Unit(x) ==> r == x)
  {
    if x <= 0.0 then 0.0 else if x >= 1.0 then 1.0 else x
  }

  function Abs(x: real): real {
    if x < 0.0 then -x else x
  }

  function Pow(x: real, n: nat): real {
    if n == 0 then 1.0 else x * Pow(x, n - 1)
  }

  lemma ClampMono(x: real, y: real)
    requires x <= y
    ensures Clamp01(x) <= Clamp01(y)
  {
  }

  lemma MulMono(a: real, b: real, c: real)
    requires a <= b && 0.0 <= c
    ensures a * c <= b * c && c * a <= c * b
  {
    assert (b - a) * c >= 0.0;
    assert b * c - a * c == (b - a) * c;
  }

  lemma MulNonNeg(a: real, b: real)
    requires 0.0 <= a && 0.0 <= b
    ensures 0.0 <= a * b
  {
  }

  lemma MulUnit(a: real, b: real)
    requires Unit(a) && Unit(b)
    ensures Unit(a * b) && a * b <= a && a * b <= b
  {
    MulMono(b, 1.0, a);
    MulMono(a, 1.0, b);
    MulNonNeg(a, b);
  }

  lemma DivMono(x: real, y: real, span: real)
    requires x <= y && span > 0.0
    ensures x / span <= y / span
  {
    var f := 1.0 / span;
    assert f > 0.0;
    assert x / span == x * f && y / span == y * f;
    MulMono(x, y, f);
  }

  // The solver does not chain inequalities between products by itself.
  lemma Chain(a: real, b: real, c: real)
    requires a <= b <= c
    ensures a <= c
  {
  }

  lemma MulBoth(a: real, b: real, c: real, d: real)
    requires 0.0 <= a <= b && 0.0 <= c <= d
    ensures 0.0 <= a * c <= b * d
  {
    MulNonNeg(a, c);
    MulMono(a, b, c);
    MulMono(c, d, b);
    Chain(a * c, b * c, b * d);
  }

  lemma MulAssoc(a: real, b: real, c: real)
    ensures (a * b) * c == a * (b * c)
  {
  }

  // Probabilistic or: 1 - (1 - a)(1 - b).
  function Or(a: real, b: real): real {
    1.0 - Free(1.0 - a, 1.0 - b)
  }

  function Free(a: real, b: real): real {
    a * b
  }

  lemma FreeUnit(a: real, b: real)
    requires Unit(a) && Unit(b)
    ensures Unit(Free(a, b)) && Free(a, b) <= a && Free(a, b) <= b
  {
    MulUnit(a, b);
    Chain(a * b, a, 1.0);
    assert 0.0 <= a * b && a * b <= 1.0;
  }

  lemma FreeMono(a: real, b: real, c: real, d: real)
    requires 0.0 <= a <= b && 0.0 <= c <= d
    ensures 0.0 <= Free(a, c) <= Free(b, d)
  {
    MulBoth(a, b, c, d);
  }

  lemma OrIsBoundedAndMonotone(a: real, x: real, b: real, y: real)
    requires Unit(a) && Unit(x) && Unit(b) && Unit(y) && a <= b && x <= y
    ensures a <= Or(a, x) && x <= Or(a, x) && Unit(Or(a, x)) && Unit(Or(b, y))
    ensures Or(a, x) <= Or(b, y)
  {
    hide Free;
    FreeUnit(1.0 - a, 1.0 - x);
    FreeUnit(1.0 - b, 1.0 - y);
    FreeMono(1.0 - b, 1.0 - a, 1.0 - y, 1.0 - x);
  }

  // A part of something is at most the whole of it.
  lemma Portion(w: real, whole: real)
    requires Unit(w)
    ensures 0.0 <= whole ==> 0.0 <= Free(w, whole) <= whole
  {
    if 0.0 <= whole {
      MulNonNeg(w, whole);
      MulMono(w, 1.0, whole);
    }
  }
}
