/** Disk pressure: one number per disk from latency, queue and utilisation, and one for
    the machine from all disks. The logistic curve is any function into [0, 1]. */
module DiskPressure {
  import opened RealMath

  datatype Model = Model(latency: real, queue: real, util: real, maxWeight: real)

  predicate Sensible(m: Model) {
    && 0.0 <= m.latency && 0.0 <= m.queue && 0.0 <= m.util
    && m.latency + m.queue + m.util <= 1.0 && Unit(m.maxWeight)
  }

  // The three curve readings of a disk, its utilisation, and the utilisation from which
  // latency and queue are trusted in full.
  datatype Reading = Reading(latency: real, queue: real, util: real, utilisation: real, activityHalf: real)

  predicate InRange(r: Reading) {
    Unit(r.latency) && Unit(r.queue) && Unit(r.util) && r.utilisation >= 0.0
  }

  function Activity(utilisation: real, half: real): real {
    if half > 0.0 then Min(1.0, utilisation / half) else 1.0
  }

  // _disk_pressure
  function Pressure(r: Reading, m: Model): real {
    Free(Activity(r.utilisation, r.activityHalf), Load(r, m)) + Free(m.util, r.util)
  }

  // Latency and queue, which only count as far as the disk is active; Free is a product.
  function Load(r: Reading, m: Model): real {
    Free(m.latency, r.latency) + Free(m.queue, r.queue)
  }

  function Sum(ps: seq<real>): real {
    if ps == [] then 0.0 else Sum(ps[..|ps| - 1]) + ps[|ps| - 1]
  }

  function Worst(ps: seq<real>): real
    requires ps != []
  {
    if |ps| == 1 then ps[0] else Max(Worst(ps[..|ps| - 1]), ps[|ps| - 1])
  }

  function Average(ps: seq<real>): real
    requires ps != []
  {
    Sum(ps) / |ps| as real
  }

  // The noisy-OR of the average and the weighted worst disk.
  function Combined(ps: seq<real>, maxWeight: real): real {
    if ps == [] then 0.0 else Or(Average(ps), Free(Worst(ps), maxWeight))
  }

  // --------------------------------------------------------------- one disk

  lemma ActivityMonotone(u: real, v: real, half: real)
    requires 0.0 <= u <= v
    ensures 0.0 <= Activity(u, half) <= Activity(v, half) <= 1.0
  {
    if half > 0.0 {
      DivMono(0.0, u, half);
      DivMono(u, v, half);
    }
  }

  predicate NoWorse(r: Reading, s: Reading) {
    && r.latency <= s.latency && r.queue <= s.queue && r.util <= s.util
    && r.utilisation <= s.utilisation && r.activityHalf == s.activityHalf
  }

  // A disk's pressure is in [0, 1], and rises with each of its readings.
  lemma PressureIsBoundedAndMonotone(r: Reading, s: Reading, m: Model)
    requires Sensible(m) && InRange(r) && InRange(s) && NoWorse(r, s)
    ensures 0.0 <= Pressure(r, m) <= Pressure(s, m) <= 1.0
  {
    hide Activity, Load, Free;
    ActivityMonotone(r.utilisation, s.utilisation, r.activityHalf);
    LoadMonotone(r, s, m);
    Term(m.util, r.util, s.util);
    var a, b := Activity(r.utilisation, r.activityHalf), Activity(s.utilisation, s.activityHalf);
    Scaled(a, b, Load(r, m), Load(s, m), m.latency + m.queue);
    AddUp(Free(a, Load(r, m)), Free(b, Load(s, m)), m.latency + m.queue, Free(m.util, r.util), Free(m.util, s.util), m.util);
  }

  lemma LoadMonotone(r: Reading, s: Reading, m: Model)
    requires Sensible(m) && InRange(r) && InRange(s) && NoWorse(r, s)
    ensures 0.0 <= Load(r, m) <= Load(s, m) <= m.latency + m.queue
  {
    hide Free;
    Term(m.latency, r.latency, s.latency);
    Term(m.queue, r.queue, s.queue);
  }

  lemma Scaled(a: real, b: real, x: real, y: real, top: real)
    requires 0.0 <= a <= b <= 1.0 && 0.0 <= x <= y <= top
    ensures 0.0 <= Free(a, x) <= Free(b, y) <= top
  {
    hide Free;
    FreeMono(a, b, x, y);
    FreeMono(b, 1.0, y, y);
    FreeOne(y);
  }

  lemma FreeOne(x: real)
    ensures Free(1.0, x) == x && Free(x, 1.0) == x
  {
  }

  lemma Term(w: real, x: real, y: real)
    requires 0.0 <= w && Unit(x) && Unit(y) && x <= y
    ensures 0.0 <= Free(w, x) <= Free(w, y) <= w
  {
    hide Free;
    FreeMono(w, w, x, y);
    FreeMono(w, w, y, 1.0);
    FreeOne(w);
  }

  lemma AddUp(a: real, b: real, c: real, x: real, y: real, z: real)
    requires 0.0 <= a <= b <= c && 0.0 <= x <= y <= z
    ensures 0.0 <= a + x <= b + y <= c + z
  {
  }

  // Utilisation is what makes the other two count: on a disk from its activity mark on each
  // of the three adds its own weight; on an idle disk with a mark only the utilisation
  // counts; and on one halfway to the mark latency and queue count half.
  lemma EachReadingHasItsWeight(r: Reading, m: Model)
    requires r.activityHalf > 0.0
    ensures r.utilisation >= r.activityHalf ==>
      Pressure(r, m) == m.latency * r.latency + m.queue * r.queue + m.util * r.util
    ensures r.utilisation == 0.0 ==> Pressure(r, m) == m.util * r.util
    ensures r.utilisation + r.utilisation == r.activityHalf ==>
      Pressure(r, m) == 0.5 * (m.latency * r.latency + m.queue * r.queue) + m.util * r.util
  {
    var f := 1.0 / r.activityHalf;
    assert f > 0.0 && r.utilisation / r.activityHalf == r.utilisation * f && r.activityHalf * f == 1.0;
    if r.utilisation >= r.activityHalf {
      MulMono(r.activityHalf, r.utilisation, f);
    }
  }

  // --------------------------------------------------------------- all disks

  predicate AllUnit(ps: seq<real>) {
    forall i :: 0 <= i < |ps| ==> Unit(ps[i])
  }

  predicate Pointwise(ps: seq<real>, qs: seq<real>) {
    |ps| == |qs| && forall i :: 0 <= i < |ps| ==> ps[i] <= qs[i]
  }

  lemma {:induction false} SumMonotone(ps: seq<real>, qs: seq<real>)
    requires AllUnit(ps) && AllUnit(qs) && Pointwise(ps, qs)
    ensures 0.0 <= Sum(ps) <= Sum(qs) <= |qs| as real
  {
    if ps != [] {
      SumMonotone(ps[..|ps| - 1], qs[..|qs| - 1]);
    }
  }

  lemma {:induction false} WorstMonotone(ps: seq<real>, qs: seq<real>)
    requires ps != [] && AllUnit(ps) && AllUnit(qs) && Pointwise(ps, qs)
    ensures 0.0 <= Worst(ps) <= Worst(qs) <= 1.0
    ensures forall i :: 0 <= i < |ps| ==> ps[i] <= Worst(ps)
    ensures Worst(ps) in ps
  {
    if |ps| > 1 {
      WorstMonotone(ps[..|ps| - 1], qs[..|qs| - 1]);
    }
  }

  lemma AverageMonotone(ps: seq<real>, qs: seq<real>)
    requires ps != [] && AllUnit(ps) && AllUnit(qs) && Pointwise(ps, qs)
    ensures 0.0 <= Average(ps) <= Average(qs) <= 1.0
  {
    hide Sum;
    SumMonotone(ps, qs);
    Fraction(Sum(ps), Sum(qs), |ps| as real);
  }

  lemma Fraction(x: real, y: real, n: real)
    requires 0.0 <= x <= y <= n && n > 0.0
    ensures 0.0 <= x / n <= y / n <= 1.0
  {
    var f := 1.0 / n;
    assert f > 0.0 && n * f == 1.0;
    assert x / n == x * f && y / n == y * f;
    MulBoth(x, y, f, f);
    MulBoth(y, n, f, f);
  }

  // However many disks there are, the machine's pressure is at least their average, at
  // least the weighted worst one, at most one, and rises with every single disk.
  lemma CombinedIsBoundedAndMonotone(ps: seq<real>, qs: seq<real>, maxWeight: real)
    requires ps != [] && AllUnit(ps) && AllUnit(qs) && Pointwise(ps, qs) && Unit(maxWeight)
    ensures Average(ps) <= Combined(ps, maxWeight) && maxWeight * Worst(ps) <= Combined(ps, maxWeight)
    ensures 0.0 <= Combined(ps, maxWeight) <= 1.0
    ensures Combined(ps, maxWeight) <= Combined(qs, maxWeight)
  {
    hide Average, Worst, Or, Free;
    AverageMonotone(ps, qs);
    WorstMonotone(ps, qs);
    FreeMono(Worst(ps), Worst(qs), maxWeight, maxWeight);
    FreeUnit(Worst(qs), maxWeight);
    FreeIs(Worst(ps), maxWeight);
    OrIsBoundedAndMonotone(Average(ps), Free(Worst(ps), maxWeight), Average(qs), Free(Worst(qs), maxWeight));
  }

  // With one disk nothing but its own pressure counts; and while both the average and the
  // weighted worst leave room, the machine's pressure is above each of them.
  lemma CombinedExceedsBoth(ps: seq<real>, maxWeight: real)
    requires ps != [] && AllUnit(ps) && Unit(maxWeight)
    ensures |ps| == 1 ==> Combined(ps, maxWeight) == 1.0 - (1.0 - ps[0]) * (1.0 - maxWeight * ps[0])
    ensures 0.0 < Average(ps) < 1.0 && 0.0 < maxWeight * Worst(ps) < 1.0 ==>
      Average(ps) < Combined(ps, maxWeight) && maxWeight * Worst(ps) < Combined(ps, maxWeight)
    ensures maxWeight == 0.0 ==> Combined(ps, maxWeight) == Average(ps)
  {
    hide Average, Worst, Or, Free;
    var a, p := Average(ps), Free(Worst(ps), maxWeight);
    FreeIs(Worst(ps), maxWeight);
    OrIs(a, p);
    assert Combined(ps, maxWeight) == Or(a, p) && p == maxWeight * Worst(ps);
    if 0.0 < a < 1.0 && 0.0 < p < 1.0 {
      Above(a, p);
    }
    if |ps| == 1 {
      OneDisk(ps);
    }
  }

  lemma OrIs(a: real, p: real)
    ensures Or(a, p) == 1.0 - (1.0 - a) * (1.0 - p)
    ensures p == 0.0 ==> Or(a, p) == a
  {
  }

  lemma Above(a: real, p: real)
    requires 0.0 < a < 1.0 && 0.0 < p < 1.0
    ensures a < Or(a, p) && p < Or(a, p)
  {
    Positive(1.0 - a, p);
    Positive(a, 1.0 - p);
    assert Or(a, p) == a + (1.0 - a) * p;
    assert Or(a, p) == p + a * (1.0 - p);
  }

  lemma Positive(x: real, y: real)
    requires x > 0.0 && y > 0.0
    ensures x * y > 0.0
  {
  }

  lemma OneDisk(ps: seq<real>)
    requires |ps| == 1
    ensures Average(ps) == ps[0] && Worst(ps) == ps[0]
  {
    assert ps[..0] == [];
    assert Sum(ps) == ps[0];
  }

  lemma FreeIs(a: real, b: real)
    ensures Free(a, b) == b * a
  {
  }

  // ------------------------------------------------------------------ the evaluation

  // evaluate(): the pressures of the disks in one pass, and what is made of them.
  method Evaluate(disks: seq<string>, readings: seq<Reading>, m: Model, busy: real)
    returns (combined: real, pressures: seq<real>, stressed: seq<string>)
    requires |disks| == |readings| && Sensible(m) && forall r :: r in readings ==> InRange(r)
    ensures |pressures| == |disks| && AllUnit(pressures) && Unit(combined)
    ensures forall i :: 0 <= i < |disks| ==> pressures[i] == Pressure(readings[i], m)
    ensures combined == Combined(pressures, m.maxWeight)
    ensures forall d :: d in stressed <==> exists i :: 0 <= i < |disks| && disks[i] == d && pressures[i] >= busy
  {
    hide Pressure, Average, Worst, Or, Free, Sensible, InRange;
    pressures, stressed := [], [];
    var total, worst := 0.0, 0.0;
    var i := 0;
    while i < |disks|
      invariant 0 <= i <= |disks| && |pressures| == i && AllUnit(pressures)
      invariant forall j :: 0 <= j < i ==> pressures[j] == Pressure(readings[j], m)
      invariant total == Sum(pressures) && (i > 0 ==> worst == Worst(pressures))
      invariant forall d :: d in stressed <==> exists j :: 0 <= j < i && disks[j] == d && pressures[j] >= busy
    {
      var p := Pressure(readings[i], m);
      PressureIsBoundedAndMonotone(readings[i], readings[i], m);
      if p >= busy { stressed := stressed + [disks[i]]; }
      WorstGrows(pressures, p);
      assert (pressures + [p])[..i] == pressures;
      worst := if i == 0 then p else Max(worst, p);
      total := total + p;
      pressures := pressures + [p];
      i := i + 1;
    }
    if i == 0 {
      combined := 0.0;
    } else {
      var average := total / i as real;
      combined := Or(average, Free(worst, m.maxWeight));
      AverageIs(pressures);
      CombinedIsUnit(pressures, m);
    }
  }

  lemma CombinedIsUnit(ps: seq<real>, m: Model)
    requires ps != [] && AllUnit(ps) && Sensible(m)
    ensures Unit(Combined(ps, m.maxWeight))
  {
    hide Combined, Worst, Average;
    CombinedIsBoundedAndMonotone(ps, ps, m.maxWeight);
    AverageMonotone(ps, ps);
  }

  lemma WorstGrows(ps: seq<real>, p: real)
    ensures Worst(ps + [p]) == if ps == [] then p else Max(Worst(ps), p)
  {
    assert (ps + [p])[..|ps|] == ps;
  }

  lemma AverageIs(ps: seq<real>)
    requires ps != []
    ensures Average(ps) == Sum(ps) / |ps| as real
  {
  }
}
