/** Network pressure: noisy-OR, the gap-aware moving average, the decaying maximum, and
    the monitor that fuses them per direction. The clock counts whole ticks. */
module NetPressure {
  import opened RealMath
  import opened Text

  // --------------------------------------------------------------- noisy-OR

  // The product of the chances that each signal stays silent.
  function Silent(vals: seq<real>): real {
    if vals == [] then 1.0 else Free(Silent(vals[..|vals| - 1]), 1.0 - Clamp01(vals[|vals| - 1]))
  }

  function NoisyOrOf(vals: seq<real>): real {
    1.0 - Silent(vals)
  }

  method NoisyOr(vals: seq<real>) returns (r: real)
    ensures r == NoisyOrOf(vals)
  {
    var prod := 1.0;
    for i := 0 to |vals|
      invariant prod == Silent(vals[..i])
    {
      assert vals[..i + 1][..i] == vals[..i];
      prod := prod * (1.0 - Clamp01(vals[i]));
    }
    assert vals[..|vals|] == vals;
    r := 1.0 - prod;
  }

  lemma {:induction false} SilentIsUnit(vals: seq<real>)
    ensures Unit(Silent(vals))
  {
    if vals != [] {
      SilentIsUnit(vals[..|vals| - 1]);
      FreeUnit(Silent(vals[..|vals| - 1]), 1.0 - Clamp01(vals[|vals| - 1]));
    }
  }

  // The result lies in [0, 1], is no less than any single signal, and a signal that
  // rises never lowers it.
  lemma {:induction false} NoisyOrIsBoundedAndMonotone(vals: seq<real>, more: seq<real>)
    requires |vals| == |more| && forall i :: 0 <= i < |vals| ==> vals[i] <= more[i]
    ensures Unit(NoisyOrOf(vals)) && NoisyOrOf(vals) <= NoisyOrOf(more)
    ensures forall i :: 0 <= i < |vals| ==> Clamp01(vals[i]) <= NoisyOrOf(vals)
  {
    hide Free;
    SilentIsUnit(vals);
    if vals != [] {
      var n := |vals| - 1;
      NoisyOrIsBoundedAndMonotone(vals[..n], more[..n]);
      SilentIsUnit(vals[..n]);
      SilentIsUnit(more[..n]);
      FreeUnit(Silent(vals[..n]), 1.0 - Clamp01(vals[n]));
      FreeMono(Silent(more[..n]), Silent(vals[..n]), 1.0 - Clamp01(more[n]), 1.0 - Clamp01(vals[n]));
      forall i | 0 <= i < |vals|
        ensures Clamp01(vals[i]) <= NoisyOrOf(vals)
      {
        if i < n {
          assert vals[..n][i] == vals[i];
        }
      }
    }
  }

  // Grouping does not matter: the OR of two groups is the OR of their ORs.
  lemma {:induction false} NoisyOrGroups(a: seq<real>, b: seq<real>)
    ensures NoisyOrOf(a + b) == Or(NoisyOrOf(a), NoisyOrOf(b))
  {
    if b == [] {
      assert a + b == a;
      assert Free(Silent(a), 1.0) == Silent(a);
    } else {
      var n := |b| - 1;
      NoisyOrGroups(a, b[..n]);
      assert (a + b)[..|a + b| - 1] == a + b[..n];
      FreeAssoc(Silent(a), Silent(b[..n]), 1.0 - Clamp01(b[n]));
    }
  }

  lemma FreeAssoc(a: real, b: real, c: real)
    ensures Free(Free(a, b), c) == Free(a, Free(b, c))
  {
  }

  // --------------------------------------------------------------- powers

  lemma {:induction false} PowUnit(x: real, n: nat)
    requires Unit(x)
    ensures Unit(Pow(x, n))
  {
    if n > 0 {
      PowUnit(x, n - 1);
      MulUnit(x, Pow(x, n - 1));
    }
  }

  lemma {:induction false} PowAdds(x: real, m: nat, n: nat)
    ensures Pow(x, m + n) == Pow(x, m) * Pow(x, n)
  {
    if m > 0 {
      PowAdds(x, m - 1, n);
      assert m + n - 1 == m - 1 + n;
      MulAssoc(x, Pow(x, m - 1), Pow(x, n));
    }
  }

  // --------------------------------------------------------------- moving average

  // _ema_step
  function EmaStep(prev: Option<real>, instant: real, alpha: real, dt: nat): real {
    match prev
    case None => instant
    case Some(p) =>
      var share := 1.0 - Pow(1.0 - Clamp01(alpha), dt);
      share * instant + (1.0 - share) * p
  }

  // The distance to the instant value shrinks by one factor per tick.
  lemma EmaCloses(p: real, instant: real, alpha: real, dt: nat)
    ensures EmaStep(Some(p), instant, alpha, dt) == instant + Pow(1.0 - Clamp01(alpha), dt) * (p - instant)
  {
    hide Pow, Clamp01;
  }

  // Two steps on one instant value are one step over both gaps.
  lemma EmaStepsAdd(prev: Option<real>, instant: real, alpha: real, dt1: nat, dt2: nat)
    ensures EmaStep(Some(EmaStep(prev, instant, alpha, dt1)), instant, alpha, dt2)
         == EmaStep(prev, instant, alpha, dt1 + dt2)
  {
    hide Pow, Clamp01;
    var keep := 1.0 - Clamp01(alpha);
    EmaCloses(EmaStep(prev, instant, alpha, dt1), instant, alpha, dt2);
    if prev.Some? {
      EmaCloses(prev.value, instant, alpha, dt1);
      EmaCloses(prev.value, instant, alpha, dt1 + dt2);
      PowAdds(keep, dt2, dt1);
      MulAssoc(Pow(keep, dt2), Pow(keep, dt1), prev.value - instant);
    }
  }

  lemma EmaStaysBetween(prev: Option<real>, instant: real, alpha: real, dt: nat, lo: real, hi: real)
    requires lo <= instant <= hi && (prev.Some? ==> lo <= prev.value <= hi)
    ensures lo <= EmaStep(prev, instant, alpha, dt) <= hi
  {
    if prev.Some? {
      var w := Pow(1.0 - Clamp01(alpha), dt);
      PowUnit(1.0 - Clamp01(alpha), dt);
      EmaCloses(prev.value, instant, alpha, dt);
      Between(prev.value, instant, w, lo, hi);
    }
  }

  lemma Between(p: real, i: real, w: real, lo: real, hi: real)
    requires Unit(w) && lo <= p <= hi && lo <= i <= hi
    ensures lo <= i + Free(w, p - i) <= hi
  {
    hide Free;
    Portion(w, p - i);
    Portion(w, i - p);
    FreeNegates(w, p - i);
  }

  lemma FreeNegates(w: real, gap: real)
    ensures Free(w, -gap) == -Free(w, gap)
  {
  }

  // A sample: the instant value, and the ticks since the sample before it.
  datatype Sample = Sample(instant: real, dt: nat)

  function EmaRun(prev: Option<real>, samples: seq<Sample>, alpha: real): Option<real> {
    if samples == [] then prev
    else Some(EmaStep(EmaRun(prev, samples[..|samples| - 1], alpha), Last(samples).instant, alpha, Last(samples).dt))
  }

  function Last(samples: seq<Sample>): Sample
    requires samples != []
  {
    samples[|samples| - 1]
  }

  // The same signal, sampled at every tick.
  function EveryTick(samples: seq<Sample>): seq<Sample> {
    if samples == [] then []
    else EveryTick(samples[..|samples| - 1]) + Repeated(Last(samples).instant, Last(samples).dt)
  }

  function Repeated(instant: real, n: nat): seq<Sample> {
    if n == 0 then [] else Repeated(instant, n - 1) + [Sample(instant, 1)]
  }

  lemma {:induction false} EmaRunJoins(prev: Option<real>, a: seq<Sample>, b: seq<Sample>, alpha: real)
    ensures EmaRun(prev, a + b, alpha) == EmaRun(EmaRun(prev, a, alpha), b, alpha)
  {
    if b == [] {
      assert a + b == a;
    } else {
      EmaRunJoins(prev, a, b[..|b| - 1], alpha);
      assert (a + b)[..|a + b| - 1] == a + b[..|b| - 1];
    }
  }

  lemma {:induction false} EmaRepeats(prev: Option<real>, instant: real, n: nat, alpha: real)
    requires n > 0
    ensures EmaRun(prev, Repeated(instant, n), alpha) == Some(EmaStep(prev, instant, alpha, n))
  {
    hide Pow, Clamp01, EmaStep;
    var r := Repeated(instant, n - 1);
    assert (r + [Sample(instant, 1)])[..|r|] == r;
    if n > 1 {
      EmaRepeats(prev, instant, n - 1, alpha);
      EmaStepsAdd(prev, instant, alpha, n - 1, 1);
    }
  }

  // An irregular cadence leaves no trace: the average is the one a sampler that wakes at
  // every tick would hold for the same signal.
  lemma {:induction false} CadenceIsInvisible(prev: Option<real>, samples: seq<Sample>, alpha: real)
    requires forall k :: 0 <= k < |samples| ==> samples[k].dt > 0
    ensures EmaRun(prev, samples, alpha) == EmaRun(prev, EveryTick(samples), alpha)
  {
    hide Pow, Clamp01, EmaStep;
    if samples != [] {
      var n := |samples| - 1;
      CadenceIsInvisible(prev, samples[..n], alpha);
      EmaRunJoins(prev, EveryTick(samples[..n]), Repeated(samples[n].instant, samples[n].dt), alpha);
      EmaRepeats(EmaRun(prev, samples[..n], alpha), samples[n].instant, samples[n].dt, alpha);
    }
  }

  // --------------------------------------------------------------- decaying maximum

  // What is left of x after dt ticks.
  function Fade(x: real, decay: real, dt: nat): real {
    Free(x, Pow(Clamp01(decay), dt))
  }

  function HoldStep(held: real, instant: real, decay: real, dt: nat): real {
    Max(Fade(held, decay, dt), instant)
  }

  function Held(samples: seq<Sample>, decay: real): real {
    if samples == [] then 0.0
    else HoldStep(Held(samples[..|samples| - 1], decay), Last(samples).instant, decay, Last(samples).dt)
  }

  // Ticks from sample k to the last one.
  function Age(samples: seq<Sample>, k: nat): nat
    requires k < |samples|
  {
    if k == |samples| - 1 then 0 else Age(samples[..|samples| - 1], k) + Last(samples).dt
  }

  // What is left of sample k at the last sample.
  function Faded(samples: seq<Sample>, decay: real, k: nat): real
    requires k < |samples|
  {
    Fade(samples[k].instant, decay, Age(samples, k))
  }

  lemma FadesAdd(x: real, decay: real, m: nat, n: nat)
    ensures Fade(Fade(x, decay, m), decay, n) == Fade(x, decay, m + n)
  {
    hide Clamp01, Pow;
    var q := Clamp01(decay);
    PowAdds(q, m, n);
    MulAssoc(x, Pow(q, m), Pow(q, n));
  }

  lemma FadeIsMonotone(x: real, y: real, decay: real, dt: nat)
    requires 0.0 <= x <= y
    ensures 0.0 <= Fade(x, decay, dt) <= Fade(y, decay, dt) <= y
  {
    hide Clamp01, Pow, Free;
    var q := Pow(Clamp01(decay), dt);
    PowUnit(Clamp01(decay), dt);
    FreeMono(x, y, q, q);
    Portion(q, y);
    FreeCommutes(q, y);
  }

  lemma FreeCommutes(a: real, b: real)
    ensures Free(a, b) == Free(b, a)
  {
  }

  lemma FadesFurther(samples: seq<Sample>, decay: real, k: nat)
    requires k < |samples| - 1
    ensures Faded(samples, decay, k) == Fade(Faded(samples[..|samples| - 1], decay, k), decay, Last(samples).dt)
  {
    hide Fade;
    FadesAdd(samples[k].instant, decay, Age(samples[..|samples| - 1], k), Last(samples).dt);
  }

  lemma {:induction false} FadedIsNonNegative(samples: seq<Sample>, decay: real, k: nat)
    requires k < |samples| && samples[k].instant >= 0.0
    ensures Faded(samples, decay, k) >= 0.0
  {
    hide Fade;
    FadeIsMonotone(0.0, samples[k].instant, decay, Age(samples, k));
  }

  // The held value is exactly the largest faded sample of the whole run.
  lemma {:induction false} HeldIsTheLargestFaded(samples: seq<Sample>, decay: real)
    requires forall k :: 0 <= k < |samples| ==> samples[k].instant >= 0.0
    ensures Held(samples, decay) >= 0.0
    ensures forall k :: 0 <= k < |samples| ==> Faded(samples, decay, k) <= Held(samples, decay)
    ensures samples != [] ==> exists k :: 0 <= k < |samples| && Faded(samples, decay, k) == Held(samples, decay)
  {
    if samples != [] {
      hide Fade, Faded;
      var n := |samples| - 1;
      var before, dt := samples[..n], Last(samples).dt;
      HeldIsTheLargestFaded(before, decay);
      FadedNow(samples, decay);
      FadeIsMonotone(Held(before, decay), Held(before, decay), decay, dt);
      forall k | 0 <= k < n
        ensures Faded(samples, decay, k) <= Fade(Held(before, decay), decay, dt)
      {
        FadesFurther(samples, decay, k);
        assert before[k] == samples[k];
        FadedIsNonNegative(before, decay, k);
        FadeIsMonotone(Faded(before, decay, k), Held(before, decay), decay, dt);
      }
      if n > 0 && Fade(Held(before, decay), decay, dt) >= samples[n].instant {
        var k :| 0 <= k < n && Faded(before, decay, k) == Held(before, decay);
        FadesFurther(samples, decay, k);
        assert Faded(samples, decay, k) == Held(samples, decay);
      } else {
        HeldNow(samples, decay);
        assert Faded(samples, decay, n) == Held(samples, decay);
      }
    }
  }

  lemma HeldNow(samples: seq<Sample>, decay: real)
    requires samples != [] && samples[|samples| - 1].instant >= 0.0
    requires |samples| == 1 || Fade(Held(samples[..|samples| - 1], decay), decay, Last(samples).dt) < Last(samples).instant
    ensures Held(samples, decay) == Last(samples).instant
  {
  }

  lemma FadedNow(samples: seq<Sample>, decay: real)
    requires samples != []
    ensures Faded(samples, decay, |samples| - 1) == Last(samples).instant
  {
  }

  lemma {:induction false} HeldIsUnit(samples: seq<Sample>, decay: real)
    requires forall k :: 0 <= k < |samples| ==> Unit(samples[k].instant)
    ensures Unit(Held(samples, decay))
  {
    hide Fade;
    if samples != [] {
      var before := samples[..|samples| - 1];
      HeldIsUnit(before, decay);
      FadeIsMonotone(Held(before, decay), Held(before, decay), decay, Last(samples).dt);
    }
  }

  // --------------------------------------------------------------- the monitor

  datatype Direction = Rx | Tx

  // What one sampling round reads for a direction: utilisation by bandwidth and by packet
  // rate, and the distress of the window just past.
  datatype Reading = Reading(bandwidth: real, packets: real, distress: real)

  datatype Model = Model(alpha: real, decay: real)

  datatype Channel = Channel(bandwidth: Option<real>, packets: Option<real>, distress: real, score: real)

  function Value(x: Option<real>): real {
    if x.Some? then x.value else 0.0
  }

  // The larger of the two averages.
  function Load(c: Channel): real {
    Max(Value(c.bandwidth), Value(c.packets))
  }

  function Other(d: Direction): Direction {
    if d == Rx then Tx else Rx
  }

  function Smoothed(c: Channel, r: Reading, m: Model, dt: nat): Channel {
    c.(bandwidth := Some(EmaStep(c.bandwidth, r.bandwidth, m.alpha, dt)),
       packets := Some(EmaStep(c.packets, r.packets, m.alpha, dt)))
  }

  function Fused(c: Channel, gate: real -> real): Channel {
    c.(score := NoisyOrOf([gate(Load(c)), c.distress]))
  }

  function Tick(c: Channel, r: Reading, m: Model, dt: nat, gate: real -> real): Channel {
    var smoothed := Smoothed(c, r, m, dt);
    Fused(smoothed.(distress := HoldStep(smoothed.distress, r.distress, m.decay, dt)), gate)
  }

  const Idle := Channel(None, None, 0.0, 0.0)

  datatype Round = Round(reading: Reading, dt: nat)

  function Rounds(rounds: seq<Round>, m: Model, gate: real -> real): Channel {
    if rounds == [] then Idle
    else Tick(Rounds(rounds[..|rounds| - 1], m, gate), rounds[|rounds| - 1].reading, m, rounds[|rounds| - 1].dt, gate)
  }

  function Distresses(rounds: seq<Round>): (s: seq<Sample>)
    ensures |s| == |rounds|
    ensures forall k :: 0 <= k < |s| ==> s[k] == Sample(rounds[k].reading.distress, rounds[k].dt)
  {
    seq(|rounds|, k requires 0 <= k < |rounds| => Sample(rounds[k].reading.distress, rounds[k].dt))
  }

  lemma {:induction false} DistressIsHeld(rounds: seq<Round>, m: Model, gate: real -> real)
    ensures Rounds(rounds, m, gate).distress == Held(Distresses(rounds), m.decay)
  {
    hide HoldStep, EmaStep, NoisyOrOf;
    if rounds != [] {
      var n := |rounds| - 1;
      DistressIsHeld(rounds[..n], m, gate);
      assert Distresses(rounds)[..n] == Distresses(rounds[..n]);
    }
  }

  // Over any run of rounds the score stays in [0, 1] and never falls below what is left
  // of the distress of any past round.
  lemma ScoreRemembersDistress(rounds: seq<Round>, m: Model, gate: real -> real, k: nat)
    requires k < |rounds| && forall j :: 0 <= j < |rounds| ==> Unit(rounds[j].reading.distress)
    ensures Unit(Rounds(rounds, m, gate).score)
    ensures Faded(Distresses(rounds), m.decay, k) <= Rounds(rounds, m, gate).score
  {
    hide Faded, Held;
    var samples := Distresses(rounds);
    HeldIsTheLargestFaded(samples, m.decay);
    HeldIsUnit(samples, m.decay);
    DistressIsHeld(rounds, m, gate);
    ScoreCovers(rounds, m, gate);
  }

  lemma ScoreCovers(rounds: seq<Round>, m: Model, gate: real -> real)
    requires rounds != []
    ensures Unit(Rounds(rounds, m, gate).score)
    ensures Clamp01(Rounds(rounds, m, gate).distress) <= Rounds(rounds, m, gate).score
    ensures Clamp01(gate(Load(Rounds(rounds, m, gate)))) <= Rounds(rounds, m, gate).score
  {
    hide HoldStep, EmaStep, Silent, Clamp01;
    var c := Rounds(rounds, m, gate);
    var signals := [gate(Load(c)), c.distress];
    NoisyOrIsBoundedAndMonotone(signals, signals);
    assert signals[0] == gate(Load(c)) && signals[1] == c.distress;
    LoadIgnoresScore(rounds, m, gate);
  }

  function Bandwidths(rounds: seq<Round>): (s: seq<Sample>)
    ensures |s| == |rounds|
    ensures forall k :: 0 <= k < |s| ==> s[k] == Sample(rounds[k].reading.bandwidth, rounds[k].dt)
  {
    seq(|rounds|, k requires 0 <= k < |rounds| => Sample(rounds[k].reading.bandwidth, rounds[k].dt))
  }

  function PacketRates(rounds: seq<Round>): (s: seq<Sample>)
    ensures |s| == |rounds|
    ensures forall k :: 0 <= k < |s| ==> s[k] == Sample(rounds[k].reading.packets, rounds[k].dt)
  {
    seq(|rounds|, k requires 0 <= k < |rounds| => Sample(rounds[k].reading.packets, rounds[k].dt))
  }

  // Each of a direction's two averages is the moving average of its own readings.
  lemma {:induction false} AveragesAreTheirOwn(rounds: seq<Round>, m: Model, gate: real -> real)
    ensures Rounds(rounds, m, gate).bandwidth == EmaRun(None, Bandwidths(rounds), m.alpha)
    ensures Rounds(rounds, m, gate).packets == EmaRun(None, PacketRates(rounds), m.alpha)
  {
    hide HoldStep, EmaStep, NoisyOrOf;
    if rounds != [] {
      var n := |rounds| - 1;
      AveragesAreTheirOwn(rounds[..n], m, gate);
      assert Bandwidths(rounds)[..n] == Bandwidths(rounds[..n]);
      assert PacketRates(rounds)[..n] == PacketRates(rounds[..n]);
    }
  }

  // So either load raises the score by itself: with a gate that rises, the score is at
  // least the gated average of the bandwidth, and at least that of the packet rate.
  lemma EitherLoadRaisesTheScore(rounds: seq<Round>, m: Model, gate: real -> real)
    requires rounds != [] && forall x, y :: x <= y ==> gate(x) <= gate(y)
    ensures EmaRun(None, Bandwidths(rounds), m.alpha).Some? && EmaRun(None, PacketRates(rounds), m.alpha).Some?
    ensures Clamp01(gate(EmaRun(None, Bandwidths(rounds), m.alpha).value)) <= Rounds(rounds, m, gate).score
    ensures Clamp01(gate(EmaRun(None, PacketRates(rounds), m.alpha).value)) <= Rounds(rounds, m, gate).score
  {
    hide Rounds, Clamp01, EmaStep;
    AveragesAreTheirOwn(rounds, m, gate);
    ScoreCovers(rounds, m, gate);
    var c := Rounds(rounds, m, gate);
    ClampMono(gate(Value(c.bandwidth)), gate(Load(c)));
    ClampMono(gate(Value(c.packets)), gate(Load(c)));
  }

  // And nothing else does: a direction without load above the gate's zero and without
  // distress scores zero.
  lemma QuietScoresZero(rounds: seq<Round>, m: Model, gate: real -> real)
    requires rounds != []
    requires var c := Rounds(rounds, m, gate);
      Clamp01(gate(Value(c.bandwidth))) == 0.0 && Clamp01(gate(Value(c.packets))) == 0.0 && c.distress == 0.0
    ensures Rounds(rounds, m, gate).score == 0.0
  {
    hide Rounds;
    var c := Rounds(rounds, m, gate);
    LoadIgnoresScore(rounds, m, gate);
    NoisyOrOfNothing(gate(Load(c)));
  }

  lemma NoisyOrOfNothing(x: real)
    requires Clamp01(x) == 0.0
    ensures NoisyOrOf([x, 0.0]) == 0.0
  {
    assert [x, 0.0][..1] == [x] && [x][..0] == [];
    assert Silent([x]) == Free(1.0, 1.0);
  }

  lemma LoadIgnoresScore(rounds: seq<Round>, m: Model, gate: real -> real)
    requires rounds != []
    ensures var c := Rounds(rounds, m, gate); c.score == NoisyOrOf([gate(Load(c)), c.distress])
  {
    hide HoldStep, EmaStep, NoisyOrOf;
  }

  class NetworkMonitor {
    const model: Model
    const gate: real -> real
    var lastTime: Option<int>
    var emaBandwidth: map<Direction, Option<real>>
    var emaPackets: map<Direction, Option<real>>
    var distress: map<Direction, real>
    var score: map<Direction, real>

    ghost predicate Valid()
      reads `emaBandwidth, `emaPackets, `distress, `score
    {
      && emaBandwidth.Keys == emaPackets.Keys == distress.Keys == score.Keys == {Rx, Tx}
    }

    ghost function ChannelOf(d: Direction): Channel
      requires Valid()
      reads `emaBandwidth, `emaPackets, `distress, `score
    {
      Has(d);
      Channel(emaBandwidth[d], emaPackets[d], distress[d], score[d])
    }

    static lemma Has(d: Direction)
      ensures d in {Rx, Tx}
    {
    }

    constructor (model: Model, gate: real -> real)
      ensures Valid() && lastTime == None && this.model == model && this.gate == gate
      ensures ChannelOf(Rx) == Idle && ChannelOf(Tx) == Idle
    {
      this.model := model;
      this.gate := gate;
      lastTime := None;
      emaBandwidth := map[Rx := None, Tx := None];
      emaPackets := map[Rx := None, Tx := None];
      distress := map[Rx := 0.0, Tx := 0.0];
      score := map[Rx := 0.0, Tx := 0.0];
    }

    method Smooth(d: Direction, r: Reading, dt: nat)
      requires Valid()
      modifies `emaBandwidth, `emaPackets
      ensures Valid() && ChannelOf(Other(d)) == old(ChannelOf(Other(d)))
      ensures ChannelOf(d) == Smoothed(old(ChannelOf(d)), r, model, dt)
    {
      hide EmaStep;
      Has(d);
      emaBandwidth := emaBandwidth[d := Some(EmaStep(emaBandwidth[d], r.bandwidth, model.alpha, dt))];
      emaPackets := emaPackets[d := Some(EmaStep(emaPackets[d], r.packets, model.alpha, dt))];
    }

    method Hold(d: Direction, instant: real, dt: nat)
      requires Valid()
      modifies `distress
      ensures Valid() && ChannelOf(Other(d)) == old(ChannelOf(Other(d)))
      ensures ChannelOf(d) == old(ChannelOf(d)).(distress := HoldStep(old(ChannelOf(d)).distress, instant, model.decay, dt))
    {
      hide HoldStep;
      Has(d);
      distress := distress[d := HoldStep(distress[d], instant, model.decay, dt)];
    }

    method Fuse(d: Direction)
      requires Valid()
      modifies `score
      ensures Valid() && ChannelOf(Other(d)) == old(ChannelOf(Other(d)))
      ensures ChannelOf(d) == Fused(old(ChannelOf(d)), gate)
    {
      hide NoisyOrOf;
      Has(d);
      var load := Max(Value(emaBandwidth[d]), Value(emaPackets[d]));
      var fused := NoisyOr([gate(load), distress[d]]);
      score := score[d := fused];
    }

    method Scores() returns (pair: (real, real))
      requires Valid()
      ensures pair == (ChannelOf(Rx).score, ChannelOf(Tx).score)
    {
      pair := (score[Rx], score[Tx]);
    }

    // The first call only seeds the clock; a clock that has not advanced changes nothing.
    method UpdatePressure(now: int, rx: Reading, tx: Reading) returns (scores: Option<(real, real)>)
      requires Valid()
      modifies this
      ensures Valid()
      ensures old(lastTime) == None ==> scores == None && lastTime == Some(now)
      ensures old(lastTime).Some? ==> scores == Some((ChannelOf(Rx).score, ChannelOf(Tx).score))
      ensures old(lastTime).Some? ==> lastTime == Some(if now > old(lastTime).value then now else old(lastTime).value)
      ensures ChannelOf(Rx) == Next(old(ChannelOf(Rx)), old(lastTime), now, rx)
      ensures ChannelOf(Tx) == Next(old(ChannelOf(Tx)), old(lastTime), now, tx)
    {
      hide Smoothed, HoldStep, Fused, Valid, ChannelOf;
      if lastTime == None {
        lastTime := Some(now);
        return None;
      }
      var dt := now - lastTime.value;
      if dt <= 0 {
        var pair := Scores();
        return Some(pair);
      }
      Smooth(Rx, rx, dt);
      Smooth(Tx, tx, dt);
      Hold(Rx, rx.distress, dt);
      Hold(Tx, tx.distress, dt);
      Fuse(Rx);
      Fuse(Tx);
      lastTime := Some(now);
      var pair := Scores();
      return Some(pair);
    }

    ghost function Next(c: Channel, last: Option<int>, now: int, r: Reading): Channel
    {
      if last.None? || now <= last.value then c else Tick(c, r, model, now - last.value, gate)
    }
  }
}
