/** The pressure level that the balancer and the dashboard act on: a smoothed score,
    banded, with a margin that a level must fall through before it is left. */
module PressureLevel {
  import opened Text
  import opened Levels
  import opened RealMath

  datatype Bands = Bands(low: real, medium: real, high: real, critical: real)

  predicate Ascending(b: Bands) {
    b.low <= b.medium <= b.high <= b.critical
  }

  const SELF_GATE: real := 0.7
  const ALPHA: real := 0.3
  const MARGIN: real := 0.05

  function Entry(b: Bands, l: Level): real {
    match l
    case Low => b.low
    case Medium => b.medium
    case High => b.high
    case Critical => b.critical
  }

  // get_pressure_level
  function LevelOf(score: real, b: Bands): Level {
    if score >= b.critical then Critical
    else if score >= b.high then High
    else if score >= b.medium then Medium
    else Low
  }

  // _apply_level_hysteresis
  function Held(candidate: Level, score: real, b: Bands, prev: Option<Level>): Level {
    if prev.None? then candidate
    else if Rank(candidate) >= Rank(prev.value) then candidate
    else if prev.value == Critical then candidate
    else if score < Entry(b, prev.value) - MARGIN then candidate
    else prev.value
  }

  // One channel: the smoothed score and the level of the last sample.
  datatype Channel = Channel(smoothed: Option<real>, level: Option<Level>)

  function Sample(c: Channel, raw: real, b: Bands): Channel {
    if raw >= b.critical then Channel(Some(raw), Some(Critical))
    else
      var s := if c.smoothed.None? then raw else ALPHA * raw + (1.0 - ALPHA) * c.smoothed.value;
      Channel(Some(s), Some(Held(LevelOf(s, b), s, b, c.level)))
  }

  // ----------------------------------------------------- what a sample guarantees

  // The level is never below that of the smoothed score, never above that of the score
  // raised by the margin, and critical exactly from the critical entry on.
  lemma LevelIsSandwiched(c: Channel, raw: real, b: Bands)
    requires Ascending(b)
    ensures var next := Sample(c, raw, b);
            && Rank(LevelOf(next.smoothed.value, b)) <= Rank(next.level.value)
            && Rank(next.level.value) <= Rank(LevelOf(next.smoothed.value + MARGIN, b))
            && (next.level.value == Critical <==> next.smoothed.value >= b.critical)
  {
  }

  // A first sample counts as it is; from then on the smoothed score keeps seven tenths of
  // its distance to the new one, and a critical score is taken as it is.
  lemma SampleSmooths(c: Channel, raw: real, b: Bands)
    ensures var next := Sample(c, raw, b);
      && next.smoothed.Some? && next.level.Some?
      && (c.smoothed.None? || raw >= b.critical ==> next.smoothed.value == raw)
      && (c.smoothed.Some? && raw < b.critical ==> next.smoothed.value - raw == 0.7 * (c.smoothed.value - raw))
  {
  }

  // n samples of one raw score.
  function Steady(c: Channel, raw: real, n: nat, b: Bands): Channel {
    if n == 0 then c else Sample(Steady(c, raw, n - 1, b), raw, b)
  }

  // So n samples of one score below critical leave 0.7^n of the distance to it.
  lemma {:induction false} SteadyScoreIsApproached(c: Channel, raw: real, n: nat, b: Bands)
    requires raw < b.critical && c.smoothed.Some?
    ensures var next := Steady(c, raw, n, b);
      next.smoothed.Some? && next.smoothed.value - raw == Pow(0.7, n) * (c.smoothed.value - raw)
  {
    hide Sample;
    if n > 0 {
      SteadyScoreIsApproached(c, raw, n - 1, b);
      SampleSmooths(Steady(c, raw, n - 1, b), raw, b);
      MulAssoc(0.7, Pow(0.7, n - 1), c.smoothed.value - raw);
    }
  }

  // A level below critical is left downwards exactly when the smoothed score is more than
  // 0.05 below its entry, and upwards at once; and then the level is that of the score.
  lemma LeftBelowTheMargin(c: Channel, raw: real, b: Bands)
    requires Ascending(b) && c.level.Some? && c.level.value != Critical
    ensures var next := Sample(c, raw, b);
      && (Rank(next.level.value) < Rank(c.level.value)
          <==> c.level.value != Low && next.smoothed.value < Entry(b, c.level.value) - 0.05)
      && (next.level.value != c.level.value ==> next.level.value == LevelOf(next.smoothed.value, b))
  {
  }

  function Start(): Channel {
    Channel(None, None)
  }

  // A run of raw scores from the start.
  function Run(raws: seq<real>, b: Bands): Channel {
    if raws == [] then Start() else Sample(Run(raws[..|raws| - 1], b), raws[|raws| - 1], b)
  }

  // How far the smoothed score has moved in all.
  function Variation(raws: seq<real>, b: Bands): real {
    if |raws| <= 1 then 0.0
    else
      Variation(raws[..|raws| - 1], b)
      + Abs(Run(raws, b).smoothed.value - Run(raws[..|raws| - 1], b).smoothed.value)
  }

  // How often a level other than critical was left downwards.
  function Falls(raws: seq<real>, b: Bands): nat {
    if |raws| <= 1 then 0
    else
      var before, now := Run(raws[..|raws| - 1], b).level.value, Run(raws, b).level.value;
      Falls(raws[..|raws| - 1], b) + (if before != Critical && Rank(now) < Rank(before) then 1 else 0)
  }

  // How far the score has sunk below the entry of the level that is being held.
  function Credit(c: Channel, b: Bands): real
    requires c.smoothed.Some? && c.level.Some?
  {
    if c.level.value == Low || c.level.value == Critical then 0.0
    else Max(0.0, Entry(b, c.level.value) - c.smoothed.value)
  }

  // A level is entered at its entry or above, and left a margin below it; between two
  // falls the score has to climb back.
  lemma CreditStep(c: Channel, raw: real, b: Bands)
    requires Ascending(b) && c.smoothed.Some? && c.level.Some?
    ensures var next := Sample(c, raw, b);
            var moved := Abs(next.smoothed.value - c.smoothed.value);
            && (c.level.value != Critical && Rank(next.level.value) < Rank(c.level.value)
                ==> MARGIN + Credit(next, b) <= Credit(c, b) + moved)
            && Credit(next, b) <= Credit(c, b) + moved
  {
  }

  // Chattering has a price: over any run, the margin times the number of falls from a
  // level below critical is at most the total movement of the smoothed score.
  lemma {:induction false} FallsAreBoundedByVariation(raws: seq<real>, b: Bands)
    requires Ascending(b) && raws != []
    ensures MARGIN * Falls(raws, b) as real + Credit(Run(raws, b), b) <= Variation(raws, b)
  {
    hide Sample, Credit;
    var front := raws[..|raws| - 1];
    SampleKnows(Run(front, b), raws[|raws| - 1], b);
    if |raws| == 1 {
      FirstSample(raws[0], b);
    } else {
      FallsAreBoundedByVariation(front, b);
      SampleKnows(Run(front[..|front| - 1], b), front[|front| - 1], b);
      CreditStep(Run(front, b), raws[|raws| - 1], b);
    }
  }

  lemma SampleKnows(c: Channel, raw: real, b: Bands)
    ensures Sample(c, raw, b).smoothed.Some? && Sample(c, raw, b).level.Some?
  {
  }

  lemma FirstSample(raw: real, b: Bands)
    ensures var c := Sample(Start(), raw, b); c.smoothed.Some? && c.level.Some? && Credit(c, b) == 0.0
  {
  }

  // ------------------------------------------------------- the disk channel's raw score

  datatype Weights = Weights(some: real, full: real)

  function Stall(some: real, full: real, self: real, w: Weights): real {
    Min(1.0, Part(some, self, w.some) + Part(full, self, w.full))
  }

  // One kind of stall, discounted by what limited applications cause themselves.
  function Part(x: real, self: real, weight: real): real {
    Max(0.0, x) * (1.0 - self * SELF_GATE) * weight
  }

  function Saturation(combined: real, b: Bands): real {
    Clamp01(if b.high > b.low then (combined - b.low) / (b.high - b.low) else 1.0)
  }

  // Before rounding.
  function Gated(combined: real, some: real, full: real, self: real, w: Weights, b: Bands): real {
    Clamp01(combined + (1.0 - combined) * Stall(some, full, self, w) * Saturation(combined, b))
  }

  predicate Sensible(w: Weights) {
    w.some >= 0.0 && w.full >= 0.0
  }

  lemma StallMonotone(some: real, full: real, some': real, full': real, self: real, w: Weights)
    requires Unit(self) && Sensible(w) && some <= some' && full <= full'
    ensures 0.0 <= Stall(some, full, self, w) <= Stall(some', full', self, w) <= 1.0
  {
    hide Part;
    PartMonotone(some, some', self, w.some);
    PartMonotone(full, full', self, w.full);
  }

  lemma PartMonotone(x: real, y: real, self: real, weight: real)
    requires Unit(self) && weight >= 0.0 && x <= y
    ensures 0.0 <= Part(x, self, weight) <= Part(y, self, weight)
  {
    Weighted(Max(0.0, x), Max(0.0, y), 1.0 - self * SELF_GATE, weight);
  }

  lemma Weighted(a: real, b: real, d: real, w: real)
    requires 0.0 <= a <= b && 0.0 <= d && 0.0 <= w
    ensures 0.0 <= a * d * w <= b * d * w
  {
    MulBoth(a, b, d, d);
    MulBoth(a * d, b * d, w, w);
  }

  lemma SaturationMonotone(x: real, y: real, b: Bands)
    requires x <= y
    ensures 0.0 <= Saturation(x, b) <= Saturation(y, b) <= 1.0
  {
    if b.high > b.low {
      DivMono(x - b.low, y - b.low, b.high - b.low);
      ClampMono((x - b.low) / (b.high - b.low), (y - b.low) / (b.high - b.low));
    }
  }

  // The gate never lowers the score and never lifts it past one, and it is monotone in
  // the saturation of the disks and in both stall inputs.
  lemma GateIsBoundedAndMonotone(x: real, y: real, some: real, full: real, some': real, full': real,
                                 self: real, w: Weights, b: Bands)
    requires Unit(x) && Unit(y) && x <= y && Unit(self) && Sensible(w) && some <= some' && full <= full'
    ensures x <= Gated(x, some, full, self, w, b) <= 1.0
    ensures Gated(x, some, full, self, w, b) <= Gated(y, some', full', self, w, b)
  {
    hide Stall, Saturation, Gated;
    StallMonotone(some, full, some', full', self, w);
    SaturationMonotone(x, y, b);
    var p, q := Stall(some, full, self, w), Stall(some', full', self, w);
    var s, t := Saturation(x, b), Saturation(y, b);
    UnitProducts(p, q, s, t);
    GatedIs(x, some, full, self, w, b);
    GatedIs(y, some', full', self, w, b);
    Lift(x, y, p * s, q * t);
  }

  lemma UnitProducts(p: real, q: real, s: real, t: real)
    requires Unit(p) && Unit(q) && Unit(s) && Unit(t) && p <= q && s <= t
    ensures Unit(p * s) && Unit(q * t) && p * s <= q * t
  {
    MulUnit(p, s);
    MulUnit(q, t);
    MulBoth(p, q, s, t);
  }

  lemma GatedIs(x: real, some: real, full: real, self: real, w: Weights, b: Bands)
    requires Unit(x) && Unit(Stall(some, full, self, w))
    ensures var m := Stall(some, full, self, w) * Saturation(x, b);
            Gated(x, some, full, self, w, b) == x + (1.0 - x) * m && x <= x + (1.0 - x) * m <= 1.0
  {
    hide Stall, Saturation;
    var p, s := Stall(some, full, self, w), Saturation(x, b);
    UnitSaturation(x, b);
    MulUnit(p, s);
    Headroom(x, p * s);
    MulAssoc(1.0 - x, p, s);
  }

  lemma UnitSaturation(x: real, b: Bands)
    ensures Unit(Saturation(x, b))
  {
  }

  lemma Headroom(x: real, m: real)
    requires Unit(x) && Unit(m)
    ensures x <= x + (1.0 - x) * m <= 1.0
  {
    var room := 1.0 - x;
    MulUnit(room, m);
    var lift := room * m;
    assert 0.0 <= lift && lift <= room;
    assert (1.0 - x) * m == lift;
  }

  lemma Lift(x: real, y: real, m: real, n: real)
    requires Unit(x) && Unit(y) && x <= y && Unit(m) && Unit(n) && m <= n
    ensures x + (1.0 - x) * m <= y + (1.0 - y) * n
  {
    MulMono(m, n, 1.0 - y);
    MulNonNeg(y - x, 1.0 - m);
    assert (y - x) * (1.0 - m) == (y + (1.0 - y) * m) - (x + (1.0 - x) * m);
  }

  // Without a stall, and up to the low band, the score is the saturation itself.
  lemma NothingIsAddedBelow(x: real, some: real, full: real, self: real, w: Weights, b: Bands)
    requires Unit(x) && ((some <= 0.0 && full <= 0.0) || (b.low < b.high && x <= b.low))
    ensures Gated(x, some, full, self, w, b) == x
  {
    hide Clamp01;
    if some <= 0.0 && full <= 0.0 {
      assert Stall(some, full, self, w) == 0.0;
      assert (1.0 - x) * 0.0 * Saturation(x, b) == 0.0;
    } else {
      AtOrBelowLow(x, b);
      assert (1.0 - x) * Stall(some, full, self, w) * 0.0 == 0.0;
    }
    ClampOfUnit(x);
  }

  lemma AtOrBelowLow(x: real, b: Bands)
    requires b.low < b.high && x <= b.low
    ensures Saturation(x, b) == 0.0
  {
    DivMono(x - b.low, 0.0, b.high - b.low);
  }

  lemma ClampOfUnit(x: real)
    requires Unit(x)
    ensures Clamp01(x) == x
  {
  }

  // From the high band on the stall alone decides what part of the headroom is added: a
  // whole stall makes the score one, and half a stall takes half of it. With 0.3 of the
  // pressure left when all of it is self-inflicted, each kind counts by its own weight.
  lemma StallFillsHeadroomFromHigh(x: real, some: real, full: real, self: real, w: Weights, b: Bands)
    requires Unit(x) && Unit(self) && Sensible(w) && b.low < b.high <= x
    ensures some >= 0.0 && full <= 0.0 && (1.0 - 0.7 * self) * some * w.some <= 1.0 ==>
      Gated(x, some, full, self, w, b) == x + (1.0 - x) * ((1.0 - 0.7 * self) * some * w.some)
    ensures full >= 0.0 && some <= 0.0 && (1.0 - 0.7 * self) * full * w.full <= 1.0 ==>
      Gated(x, some, full, self, w, b) == x + (1.0 - x) * ((1.0 - 0.7 * self) * full * w.full)
    ensures some >= 0.0 && full >= 0.0 && (1.0 - 0.7 * self) * (some * w.some + full * w.full) >= 1.0 ==>
      Gated(x, some, full, self, w, b) == 1.0
  {
    hide Stall, Gated;
    AtOrAboveHigh(x, b);
    StallMonotone(some, full, some, full, self, w);
    GatedIs(x, some, full, self, w, b);
    StallIs(some, full, self, w);
  }

  // Between the bands what is added grows with the way from the low to the high one.
  lemma HeadroomFillsGradually(x: real, some: real, full: real, self: real, w: Weights, b: Bands)
    requires Unit(x) && Unit(self) && Sensible(w) && b.low <= x <= b.high && b.low < b.high
    ensures (Gated(x, some, full, self, w, b) - x) * (b.high - b.low)
         == (1.0 - x) * Stall(some, full, self, w) * (x - b.low)
  {
    hide Stall, Gated;
    StallMonotone(some, full, some, full, self, w);
    GatedIs(x, some, full, self, w, b);
    OnTheWay(x, b);
    Rearrange(1.0 - x, Stall(some, full, self, w), Saturation(x, b), b.high - b.low);
  }

  lemma OnTheWay(x: real, b: Bands)
    requires b.low <= x <= b.high && b.low < b.high
    ensures Saturation(x, b) * (b.high - b.low) == x - b.low
  {
    DivMono(x - b.low, b.high - b.low, b.high - b.low);
    DivMono(0.0, x - b.low, b.high - b.low);
  }

  lemma Rearrange(a: real, p: real, s: real, span: real)
    ensures (a * (p * s)) * span == a * p * (s * span)
  {
    MulAssoc(a, p, s);
    MulAssoc(a * p, s, span);
  }

  lemma AtOrAboveHigh(x: real, b: Bands)
    requires b.low < b.high <= x
    ensures Saturation(x, b) == 1.0
  {
    DivMono(b.high - b.low, x - b.low, b.high - b.low);
  }

  lemma StallIs(some: real, full: real, self: real, w: Weights)
    requires Unit(self) && Sensible(w)
    ensures some >= 0.0 && full <= 0.0 && (1.0 - 0.7 * self) * some * w.some <= 1.0 ==>
      Stall(some, full, self, w) == (1.0 - 0.7 * self) * some * w.some
    ensures full >= 0.0 && some <= 0.0 && (1.0 - 0.7 * self) * full * w.full <= 1.0 ==>
      Stall(some, full, self, w) == (1.0 - 0.7 * self) * full * w.full
    ensures some >= 0.0 && full >= 0.0 && (1.0 - 0.7 * self) * (some * w.some + full * w.full) >= 1.0 ==>
      Stall(some, full, self, w) == 1.0
  {
    hide Part;
    PartIs(some, self, w.some);
    PartIs(full, self, w.full);
    if some >= 0.0 && full >= 0.0 {
      Spread(1.0 - 0.7 * self, some * w.some, full * w.full);
      MulAssoc(1.0 - 0.7 * self, some, w.some);
      MulAssoc(1.0 - 0.7 * self, full, w.full);
    }
  }

  lemma PartIs(x: real, self: real, weight: real)
    ensures x <= 0.0 ==> Part(x, self, weight) == 0.0
    ensures x >= 0.0 ==> Part(x, self, weight) == (1.0 - 0.7 * self) * x * weight
  {
    if x >= 0.0 {
      Swap(x, 1.0 - 0.7 * self, weight);
    }
  }

  lemma Swap(a: real, d: real, w: real)
    ensures a * d * w == d * a * w
  {
  }

  lemma Spread(d: real, a: real, b: real)
    ensures d * (a + b) == d * a + d * b
  {
  }

  // --------------------------------------------------------------- the analyzer

  class PressureAnalyzer {
    var scoreSmoothed: Option<real>
    var lastLevel: Option<Level>
    var diskScoreSmoothed: Option<real>
    var diskLastLevel: Option<Level>

    constructor ()
      ensures System() == Start() && Disk() == Start()
    {
      scoreSmoothed, lastLevel, diskScoreSmoothed, diskLastLevel := None, None, None, None;
    }

    function System(): Channel
      reads this
    {
      Channel(scoreSmoothed, lastLevel)
    }

    function Disk(): Channel
      reads this
    {
      Channel(diskScoreSmoothed, diskLastLevel)
    }

    method ClassifyLevel(raw: real, b: Bands) returns (level: Level, smoothed: real)
      requires Ascending(b)
      modifies this`scoreSmoothed, this`lastLevel
      ensures System() == Sample(old(System()), raw, b)
      ensures System() == Channel(Some(smoothed), Some(level))
      ensures Rank(LevelOf(smoothed, b)) <= Rank(level) <= Rank(LevelOf(smoothed + MARGIN, b))
      ensures raw >= b.critical ==> level == Critical && smoothed == raw
      ensures old(scoreSmoothed) == None ==> smoothed == raw
      ensures old(scoreSmoothed).Some? && raw < b.critical ==> smoothed - raw == 0.7 * (old(scoreSmoothed).value - raw)
    {
      LevelIsSandwiched(System(), raw, b);
      if raw >= b.critical {
        smoothed, level := raw, Critical;
      } else {
        smoothed := raw;
        if scoreSmoothed.Some? { smoothed := ALPHA * raw + (1.0 - ALPHA) * scoreSmoothed.value; }
        level := Held(LevelOf(smoothed, b), smoothed, b, lastLevel);
      }
      scoreSmoothed := Some(smoothed);
      lastLevel := Some(level);
    }

    method ClassifyDiskPressure(combined: real, some: real, full: real, self: real, w: Weights, b: Bands)
      returns (level: Level, smoothed: real, stressed: bool)
      requires Ascending(b)
      modifies this`diskScoreSmoothed, this`diskLastLevel
      ensures Disk() == Sample(old(Disk()), Gated(combined, some, full, self, w, b), b)
      ensures Disk() == Channel(Some(smoothed), Some(level))
      ensures stressed <==> smoothed >= b.high || (level == High && smoothed >= b.high - MARGIN)
      ensures var raw := Gated(combined, some, full, self, w, b);
        if old(diskScoreSmoothed) == None || raw >= b.critical then smoothed == raw
        else smoothed - raw == 0.7 * (old(diskScoreSmoothed).value - raw)
    {
      hide Gated;
      var raw := Gated(combined, some, full, self, w, b);
      LevelIsSandwiched(Disk(), raw, b);
      if raw >= b.critical {
        smoothed, level := raw, Critical;
      } else {
        smoothed := raw;
        if diskScoreSmoothed.Some? { smoothed := ALPHA * raw + (1.0 - ALPHA) * diskScoreSmoothed.value; }
        level := Held(LevelOf(smoothed, b), smoothed, b, diskLastLevel);
      }
      diskScoreSmoothed := Some(smoothed);
      diskLastLevel := Some(level);
      stressed := Rank(level) >= Rank(High);
    }
  }
}
