/** What the reported rates say about the true traffic, and what the shipped register maps
    say about the guard. */
module PmtTraffic {
  import opened Text
  import opened PmtCounters
  import opened PmtSampler
  import opened PmtRuns

  // The bytes a rate stands for over its window.
  function Bytes(rate: real, dt: real): real {
    rate * dt * 1000000000.0
  }

  lemma RateStandsForBytes(counts: nat, unit: nat, dt: real)
    requires dt > 0.0
    ensures Bytes(Rate(counts, unit, dt), dt) == (counts * unit) as real
  {
    var x := (counts * unit) as real;
    var per := x / dt;
    assert per * dt == x;
    assert (per / 1000000000.0) * dt * 1000000000.0 == per * dt;
  }

  // --------------------------------------------------------------- the flows

  // What the sampler reports of memory traffic; the GPU's where it has counters of its own.
  datatype Flow = Cpu | Io | Gpu | SysRead | SysWrite | Hit | Miss | Npu

  function Field(bw: Bandwidth, flow: Flow): Option<real> {
    match flow
    case Cpu => bw.cpu
    case Io => bw.io
    case Gpu => bw.gpu
    case SysRead => bw.sysRead
    case SysWrite => bw.sysWrite
    case Hit => bw.hit
    case Miss => bw.miss
    case Npu => Some(bw.npu)
  }

  // The platform measures the flow.
  predicate Measured(p: Platform, flow: Flow) {
    match flow
    case Cpu => p.cpu != []
    case Io => p.gpu == [] && p.io != []
    case Gpu => p.gpu != []
    case SysRead => p.sys.Some?
    case SysWrite => p.sys.Some?
    case Hit => p.hit.Some? && p.miss.Some?
    case Miss => p.hit.Some? && p.miss.Some?
    case Npu => true
  }

  // The counters behind a flow, their unit and their width.
  function CountersOf(p: Platform, flow: Flow): seq<nat>
    requires Measured(p, flow)
  {
    match flow
    case Cpu => p.cpu
    case Io => p.io
    case Gpu => p.gpu
    case SysRead => [p.sys.value.0]
    case SysWrite => [p.sys.value.1]
    case Hit => [p.hit.value]
    case Miss => [p.miss.value]
    case Npu => [p.noc]
  }

  function UnitOf(p: Platform, flow: Flow): nat {
    match flow
    case Cpu => EgressUnit(p)
    case Io => EgressUnit(p)
    case Gpu => EgressUnit(p)
    case SysRead => p.unit
    case SysWrite => p.unit
    case Hit => p.cacheUnit
    case Miss => p.cacheUnit
    case Npu => p.nocUnit
  }

  function EgressUnit(p: Platform): nat {
    if p.egressUnit.Some? && p.egressUnit.value != 0 then p.egressUnit.value else p.unit
  }

  function Width(flow: Flow): (modulus: nat)
    ensures modulus > 0
  {
    if flow.Npu? then HALF else WORD
  }

  // What the sampler takes a flow to have counted between two regions.
  function Difference(p: Platform, flow: Flow, prev: Region, cur: Region): nat
    requires Measured(p, flow)
  {
    if flow.Npu? then Delta32(prev, cur, p.noc) else Deltas(prev, cur, CountersOf(p, flow))
  }

  // --------------------------------------------------------------- true counts

  // The counters at the offsets have counted this much in all.
  predicate HoldAll(region: Region, offsets: seq<nat>, totals: seq<nat>) {
    |totals| == |offsets| && forall j :: 0 <= j < |offsets| ==> Holds(region, offsets[j], totals[j])
  }

  predicate Risen(before: seq<nat>, after: seq<nat>) {
    |before| == |after| && forall j :: 0 <= j < |before| ==> before[j] <= after[j]
  }

  // No counter rose by a whole wrap or more.
  predicate Close(before: seq<nat>, after: seq<nat>, modulus: nat) {
    |before| == |after| && forall j :: 0 <= j < |before| ==> after[j] < before[j] + modulus
  }

  function Sum(totals: seq<nat>): nat {
    if totals == [] then 0 else Sum(totals[..|totals| - 1]) + totals[|totals| - 1]
  }

  lemma WordOfCounter(region: Region, o: nat, total: nat)
    requires Holds(region, o, total)
    ensures Word(region, o, 63) == total % WORD && Word(region, o, 31) == total % HALF
  {
    CounterReads(region, o, total);
  }

  lemma DeltaOfCounter(prev: Region, cur: Region, o: nat, before: nat, after: nat)
    requires Holds(prev, o, before) && Holds(cur, o, after) && before <= after
    ensures Delta64(prev, cur, o) <= after - before && Delta32(prev, cur, o) <= after - before
    ensures Delta64(prev, cur, o) == after - before <==> after < before + WORD
    ensures Delta32(prev, cur, o) == after - before <==> after < before + HALF
  {
    hide Delta, Word, Holds;
    WordOfCounter(prev, o, before);
    WordOfCounter(cur, o, after);
    DeltaOfTotals(before, after, WORD);
    DeltaOfTotals(before, after, HALF);
  }

  lemma {:induction false} DeltasOfTotals(prev: Region, cur: Region, offsets: seq<nat>, before: seq<nat>, after: seq<nat>)
    requires HoldAll(prev, offsets, before) && HoldAll(cur, offsets, after) && Risen(before, after)
    ensures Deltas(prev, cur, offsets) <= Sum(after) - Sum(before)
    ensures Deltas(prev, cur, offsets) == Sum(after) - Sum(before) <==> Close(before, after, WORD)
  {
    if offsets != [] {
      hide Delta64, Delta32, Holds, Close;
      var n := |offsets| - 1;
      DeltasOfTotals(prev, cur, offsets[..n], before[..n], after[..n]);
      assert Holds(prev, offsets[n], before[n]) && Holds(cur, offsets[n], after[n]);
      DeltaOfCounter(prev, cur, offsets[n], before[n], after[n]);
      CloseSplits(before, after, WORD);
    } else {
      assert Close(before, after, WORD);
    }
  }

  lemma CloseSplits(before: seq<nat>, after: seq<nat>, modulus: nat)
    requires before != [] && |before| == |after|
    ensures var n := |before| - 1;
      Close(before, after, modulus) <==> Close(before[..n], after[..n], modulus) && after[n] < before[n] + modulus
  {
  }

  // A difference is never too large, and right exactly when no counter rose by a whole wrap.
  lemma DifferenceOfTotals(p: Platform, flow: Flow, prev: Region, cur: Region, before: seq<nat>, after: seq<nat>)
    requires Measured(p, flow) && Risen(before, after)
    requires HoldAll(prev, CountersOf(p, flow), before) && HoldAll(cur, CountersOf(p, flow), after)
    ensures Difference(p, flow, prev, cur) <= Sum(after) - Sum(before)
    ensures Difference(p, flow, prev, cur) == Sum(after) - Sum(before) <==> Close(before, after, Width(flow))
  {
    hide Delta64, Delta32, Holds;
    if flow.Npu? {
      assert Holds(prev, p.noc, before[0]) && Holds(cur, p.noc, after[0]);
      DeltaOfCounter(prev, cur, p.noc, before[0], after[0]);
      assert Sum(before[..0]) == 0 && Sum(after[..0]) == 0;
    } else {
      DeltasOfTotals(prev, cur, CountersOf(p, flow), before, after);
    }
  }

  // --------------------------------------------------------------- what a run reports

  // The reading that the sampler returns in the last round.
  function Returned(p: Platform, run: seq<Sample>): Option<Bandwidth>
    requires run != []
  {
    Step(p, After(p, run[..|run| - 1]), run[|run| - 1]).1
  }

  // The last round measures the interval before it.
  predicate Answered(p: Platform, run: seq<Sample>) {
    run != [] && Computed(run, |run| - 1) && !After(p, run).disabled
  }

  // The bytes that all the readings returned stand for.
  function Reported(p: Platform, run: seq<Sample>, flow: Flow): real {
    if run == [] then 0.0
    else
      var n := |run| - 1;
      var reading := Returned(p, run);
      Reported(p, run[..n], flow)
      + (if n > 0 && reading.Some? && Field(reading.value, flow).Some?
         then Bytes(Field(reading.value, flow).value, run[n].now - run[n - 1].now) else 0.0)
  }

  // The true counts of the intervals that were measured.
  function Moved(p: Platform, run: seq<Sample>, totals: seq<seq<nat>>): int
    requires |totals| == |run|
  {
    if run == [] then 0
    else
      var n := |run| - 1;
      Moved(p, run[..n], totals[..n]) + (if Answered(p, run) then Sum(totals[n]) - Sum(totals[n - 1]) else 0)
  }

  // totals[k] is what the flow's counters have counted by round k: each region read shows
  // it, and it never falls.
  predicate Counts(p: Platform, run: seq<Sample>, flow: Flow, totals: seq<seq<nat>>)
    requires Measured(p, flow)
  {
    && |totals| == |run|
    && (forall k :: 0 <= k < |run| && run[k].read.Some? ==> HoldAll(run[k].read.value, CountersOf(p, flow), totals[k]))
    && (forall k :: 0 < k < |run| ==> Risen(totals[k - 1], totals[k]))
  }

  // The interval before round k was not measured, or carried no whole wrap of a counter.
  predicate Followed(p: Platform, run: seq<Sample>, flow: Flow, totals: seq<seq<nat>>, k: nat)
    requires 0 < k < |run| == |totals|
  {
    Answered(p, run[..k + 1]) ==> Close(totals[k - 1], totals[k], Width(flow))
  }

  predicate NoWrapMissed(p: Platform, run: seq<Sample>, flow: Flow, totals: seq<seq<nat>>)
    requires |totals| == |run|
  {
    forall k :: 0 < k < |run| ==> Followed(p, run, flow, totals, k)
  }

  lemma FlowIsRate(p: Platform, prev: Region, cur: Region, dt: real, floor: real, flow: Flow)
    requires Measured(p, flow) && Fits(p, prev) && Fits(p, cur) && dt > 0.0
    ensures Field(ComputeBandwidth(p, prev, cur, dt, floor), flow)
         == Some(Rate(Difference(p, flow, prev, cur), UnitOf(p, flow), dt))
  {
    hide Fits, Rate, GpuIdle, Floored, Deltas, Delta64, Delta32;
    if p.sys.Some? {
      OneCounter(prev, cur, p.sys.value.0);
      OneCounter(prev, cur, p.sys.value.1);
    }
  }

  lemma OneCounter(prev: Region, cur: Region, o: nat)
    ensures Deltas(prev, cur, [o]) == Delta64(prev, cur, o)
  {
    assert [o][..0] == [];
  }

  // Beside GPU counters the platform reports no IO, so no reading of it is implausible.
  lemma NoIoBesideGpu(p: Platform, prev: Region, cur: Region, dt: real, floor: real)
    requires Fits(p, prev) && Fits(p, cur) && dt > 0.0 && p.gpu != []
    ensures ComputeBandwidth(p, prev, cur, dt, floor).io == None
  {
    hide Fits, Rate, GpuIdle, Floored;
  }

  // Judging a reading changes no measured flow.
  lemma JudgingKeepsFlows(p: Platform, st: State, bw: Bandwidth, flow: Flow)
    requires Measured(p, flow) && !st.disabled && (p.gpu != [] ==> bw.io.None? && st.bad == 0)
    ensures var (next, reading) := Judge(p, st, bw);
      && next.prev == st.prev
      && (reading.Some? <==> !next.disabled)
      && (reading.Some? ==> Field(reading.value, flow) == Field(bw, flow))
      && (p.gpu != [] ==> next.bad == 0)
  {
    hide Learned, Observed, GpuFromCache;
  }

  // The sampler remembers the region it read last; with GPU counters it never counts a
  // reading as bad.
  predicate Remembers(p: Platform, run: seq<Sample>, st: State) {
    !st.disabled ==> st.prev == LastRead(run) && (p.gpu != [] ==> st.bad == 0)
  }

  lemma StepReturns(p: Platform, run: seq<Sample>, st: State, flow: Flow)
    requires run != [] && Sound(p, st) && Remembers(p, run[..|run| - 1], st) && Measured(p, flow)
    ensures var n := |run| - 1;
      var (next, reading) := Step(p, st, run[n]);
      && Remembers(p, run, next)
      && (reading.Some? <==> Computed(run, n) && !next.disabled)
      && (reading.Some? ==>
            var dt := run[n].now - run[n - 1].now;
            && dt > 0.0
            && Field(reading.value, flow)
               == Some(Rate(Difference(p, flow, run[n - 1].read.value, run[n].read.value), UnitOf(p, flow), dt)))
  {
    hide Fits, Rate, Judge, ComputeBandwidth, Difference, CountersOf, Span, Field, UnitOf;
    var n := |run| - 1;
    var s := run[n];
    assert n > 0 ==> run[..n][n - 1] == run[n - 1];
    if !st.disabled && s.read.Some? {
      SpanIsExact(p, s.read.value);
      if Computed(run, n) && Fits(p, s.read.value) {
        var prev, dt := run[n - 1].read.value, s.now - run[n - 1].now;
        var bw := ComputeBandwidth(p, prev, s.read.value, dt, st.floor);
        FlowIsRate(p, prev, s.read.value, dt, st.floor, flow);
        if p.gpu != [] {
          NoIoBesideGpu(p, prev, s.read.value, dt, st.floor);
        }
        JudgingKeepsFlows(p, st.(prev := Some((s.read.value, s.now))), bw, flow);
      }
    }
  }

  lemma {:induction false} RunRemembers(p: Platform, run: seq<Sample>)
    ensures Remembers(p, run, After(p, run))
  {
    hide Step;
    if run != [] {
      RunRemembers(p, run[..|run| - 1]);
      StepReturns(p, run, After(p, run[..|run| - 1]), Npu);
    }
  }

  // What the sampler took the flow to have counted over the run.
  function Taken(p: Platform, run: seq<Sample>, flow: Flow): nat
    requires Measured(p, flow)
  {
    if run == [] then 0
    else
      var n := |run| - 1;
      Taken(p, run[..n], flow)
      + (if Answered(p, run) then Difference(p, flow, run[n - 1].read.value, run[n].read.value) else 0)
  }

  lemma {:induction false} ReportedIsTaken(p: Platform, run: seq<Sample>, flow: Flow)
    requires Measured(p, flow)
    ensures Reported(p, run, flow) == (Taken(p, run, flow) * UnitOf(p, flow)) as real
  {
    hide Step, Rate, Bytes, Difference, UnitOf, Field, Measured, Computed;
    if run != [] {
      var n := |run| - 1;
      ReportedIsTaken(p, run[..n], flow);
      RunRemembers(p, run[..n]);
      StepReturns(p, run, After(p, run[..n]), flow);
      RoundIsTaken(p, run, flow);
    }
  }

  lemma RoundIsTaken(p: Platform, run: seq<Sample>, flow: Flow)
    requires run != [] && Measured(p, flow)
    requires Reported(p, run[..|run| - 1], flow) == (Taken(p, run[..|run| - 1], flow) * UnitOf(p, flow)) as real
    requires Returned(p, run).Some? <==> Answered(p, run)
    requires Answered(p, run) ==>
      var n := |run| - 1;
      && Field(Returned(p, run).value, flow)
         == Some(Rate(Difference(p, flow, run[n - 1].read.value, run[n].read.value), UnitOf(p, flow), run[n].now - run[n - 1].now))
    ensures Reported(p, run, flow) == (Taken(p, run, flow) * UnitOf(p, flow)) as real
  {
    hide Returned, After, Rate, Bytes, Difference, UnitOf, Field, Measured;
    var n := |run| - 1;
    if Answered(p, run) {
      var counted := Difference(p, flow, run[n - 1].read.value, run[n].read.value);
      RateStandsForBytes(counted, UnitOf(p, flow), run[n].now - run[n - 1].now);
      AddUp(Taken(p, run[..n], flow), counted, UnitOf(p, flow));
    }
  }

  lemma {:induction false} TakenAgainstMoved(p: Platform, run: seq<Sample>, flow: Flow, totals: seq<seq<nat>>)
    requires Measured(p, flow) && Counts(p, run, flow, totals)
    ensures Taken(p, run, flow) <= Moved(p, run, totals)
    ensures Taken(p, run, flow) == Moved(p, run, totals) <==> NoWrapMissed(p, run, flow, totals)
  {
    hide After, Difference, CountersOf, Close, Risen, HoldAll, Measured, Sum;
    if run != [] {
      var n := |run| - 1;
      CountsPrefix(p, run, flow, totals);
      TakenAgainstMoved(p, run[..n], flow, totals[..n]);
      if Answered(p, run) {
        DifferenceOfTotals(p, flow, run[n - 1].read.value, run[n].read.value, totals[n - 1], totals[n]);
      }
      LastIntervalDecides(p, run, flow, totals);
    }
  }

  lemma CountsPrefix(p: Platform, run: seq<Sample>, flow: Flow, totals: seq<seq<nat>>)
    requires Measured(p, flow) && run != [] && Counts(p, run, flow, totals)
    ensures Counts(p, run[..|run| - 1], flow, totals[..|run| - 1])
  {
    hide CountersOf, Risen, HoldAll, Measured;
  }

  lemma LastIntervalDecides(p: Platform, run: seq<Sample>, flow: Flow, totals: seq<seq<nat>>)
    requires run != [] && |totals| == |run|
    ensures var n := |run| - 1;
      NoWrapMissed(p, run, flow, totals)
      <==> NoWrapMissed(p, run[..n], flow, totals[..n])
           && (Answered(p, run) ==> Close(totals[n - 1], totals[n], Width(flow)))
  {
    hide After, Close;
    var n := |run| - 1;
    assert run[..n + 1] == run;
    if n > 0 {
      assert Followed(p, run, flow, totals, n) <==> (Answered(p, run) ==> Close(totals[n - 1], totals[n], Width(flow)));
    }
    forall k | 0 < k < n
      ensures Followed(p, run[..n], flow, totals[..n], k) <==> Followed(p, run, flow, totals, k)
    {
      assert run[..n][..k + 1] == run[..k + 1];
    }
  }

  // Over any run of rounds, failed reads, standing clocks and disabling included, what the
  // sampler returns for a flow, multiplied out, never exceeds the true traffic of the
  // intervals it measured, and equals it exactly when none of them carried a whole wrap of
  // a counter: 2^32 counts for the NPU, 2^64 for the others.
  lemma TrafficIsConserved(p: Platform, run: seq<Sample>, flow: Flow, totals: seq<seq<nat>>)
    requires Measured(p, flow) && Counts(p, run, flow, totals) && UnitOf(p, flow) > 0
    ensures Reported(p, run, flow) <= (Moved(p, run, totals) * UnitOf(p, flow)) as real
    ensures Reported(p, run, flow) == (Moved(p, run, totals) * UnitOf(p, flow)) as real
      <==> NoWrapMissed(p, run, flow, totals)
  {
    hide Reported, Taken, Moved, NoWrapMissed, Counts, UnitOf, Measured;
    LengthsAgree(p, run, flow, totals);
    ReportedIsTaken(p, run, flow);
    TakenAgainstMoved(p, run, flow, totals);
    Products(Taken(p, run, flow), Moved(p, run, totals), UnitOf(p, flow));
  }

  lemma LengthsAgree(p: Platform, run: seq<Sample>, flow: Flow, totals: seq<seq<nat>>)
    requires Measured(p, flow) && Counts(p, run, flow, totals)
    ensures |totals| == |run|
  {
  }

  lemma Products(a: int, b: int, unit: nat)
    requires a <= b && unit > 0
    ensures (a * unit) as real <= (b * unit) as real
    ensures (a * unit) as real == (b * unit) as real <==> a == b
  {
    Scale(a, b, unit);
    if a < b {
      Scale(a + 1, b, unit);
      assert (a + 1) * unit == a * unit + unit;
    }
  }

  lemma AddUp(a: nat, b: nat, unit: nat)
    ensures (a * unit) as real + (b * unit) as real == ((a + b) * unit) as real
  {
    assert a * unit + b * unit == (a + b) * unit;
  }

  lemma DisabledStays(p: Platform, run: seq<Sample>)
    requires run != [] && !After(p, run).disabled
    ensures !After(p, run[..|run| - 1]).disabled
  {
  }

  // Without a failed read or a standing clock the measured intervals are the whole run.
  lemma {:induction false} GaplessRunMovesEverything(p: Platform, run: seq<Sample>, totals: seq<seq<nat>>)
    requires run != [] && |totals| == |run| && !After(p, run).disabled
    requires forall k :: 0 < k < |run| ==> Computed(run, k)
    ensures Moved(p, run, totals) == Sum(totals[|totals| - 1]) - Sum(totals[0])
  {
    hide Sum, Step;
    var n := |run| - 1;
    if n > 0 {
      DisabledStays(p, run);
      forall k | 0 < k < n
        ensures Computed(run[..n], k)
      {
        assert Computed(run, k);
      }
      GaplessRunMovesEverything(p, run[..n], totals[..n]);
    }
  }

  // --------------------------------------------------------------- the sleeping GPU

  // The ticks a counter rose by, against a share of all ticks of the interval.
  function Ticks(before: nat, after: nat): real
    requires before <= after
  {
    (after - before) as real
  }

  function Share(share: real, dt: real): real {
    share * (dt * 38400000.0)
  }

  // The GPU sleeps when every residency counter rose for 95 percent of the interval's ticks;
  // a counter that rose by more than 110 percent of them makes the answer unknown.
  lemma GpuIdleCountsTicks(p: Platform, prev: Region, cur: Region, dt: real, before: seq<nat>, after: seq<nat>)
    requires dt > 0.0 && Risen(before, after) && Close(before, after, WORD)
    requires HoldAll(prev, p.gpuIdle, before) && HoldAll(cur, p.gpuIdle, after)
    ensures p.gpuIdle == [] ==> GpuIdle(p, prev, cur, dt) == None
    ensures p.gpuIdle != [] && (exists j :: 0 <= j < |before| && Ticks(before[j], after[j]) > Share(1.1, dt)) ==>
      GpuIdle(p, prev, cur, dt) == None
    ensures p.gpuIdle != [] && (forall j :: 0 <= j < |before| ==> Ticks(before[j], after[j]) <= Share(1.1, dt)) ==>
      GpuIdle(p, prev, cur, dt) == Some(forall j :: 0 <= j < |before| ==> Ticks(before[j], after[j]) >= Share(0.95, dt))
  {
    hide Residency, Holds, Share;
    forall j | 0 <= j < |before|
      ensures p.gpuIdle[j] in p.gpuIdle
      ensures Residency(prev, cur, p.gpuIdle[j], dt) > 1.1 <==> Ticks(before[j], after[j]) > Share(1.1, dt)
      ensures Residency(prev, cur, p.gpuIdle[j], dt) >= 0.95 <==> Ticks(before[j], after[j]) >= Share(0.95, dt)
    {
      OneResidency(prev, cur, p.gpuIdle[j], dt, before[j], after[j]);
    }
    forall o | o in p.gpuIdle
      ensures exists j :: 0 <= j < |before| && p.gpuIdle[j] == o
    {
    }
  }

  lemma OneResidency(prev: Region, cur: Region, o: nat, dt: real, before: nat, after: nat)
    requires dt > 0.0 && Holds(prev, o, before) && Holds(cur, o, after) && before <= after < before + WORD
    ensures Residency(prev, cur, o, dt) > 1.1 <==> Ticks(before, after) > Share(1.1, dt)
    ensures Residency(prev, cur, o, dt) >= 0.95 <==> Ticks(before, after) >= Share(0.95, dt)
  {
    hide Holds, Delta64;
    DeltaOfCounter(prev, cur, o, before, after);
    Quotient((after - before) as real, dt * 38400000.0, 1.1);
    Quotient((after - before) as real, dt * 38400000.0, 0.95);
  }

  // --------------------------------------------------------------- the shipped platforms

  const METEOR_LAKE := Platform(false, 0, 1000, [0x728, 0x730], [], Some((0x7e0, 0x7d8)), 32, Some(64),
    [0x698, 0x6a0, 0x6e8, 0x6f0], None, None, 64, [], 0.0)
  const LUNAR_LAKE := Platform(false, 0xc18, 1024, [0x620, 0x628, 0x630, 0x638], [0x640, 0x648], Some((0x778, 0x770)),
    32, None, [], None, None, 64, [], 0.0)
  const PANTHER_LAKE := Platform(true, 0xc18, 1024, [0x6c0, 0x6c8, 0x6d0, 0x6d8], [0x6e0, 0x6e8], Some((0x818, 0x810)),
    32, None, [], Some(0x6a0), Some(0x6a8), 64, [0x4d0, 0x4d8], 0.0)
  const WILDCAT_LAKE := PANTHER_LAKE.(ioFloor := 1.91)

  predicate Shipped(p: Platform) {
    p == METEOR_LAKE || p == LUNAR_LAKE || p == PANTHER_LAKE || p == WILDCAT_LAKE
  }

  // The guard never disables a shipped platform, since the unverified ones lack the cache
  // counters it compares with: over any run the sampler is disabled exactly when some
  // region it read was too short.
  lemma GuardNeverDisablesShipped(p: Platform, run: seq<Sample>)
    requires Shipped(p)
    ensures After(p, run).disabled <==> !Usable(p, run)
  {
    hide After, Flags, Usable, FiveInARow;
    DisabledAfterFiveInARow(p, run);
    if Usable(p, run) && !p.verified {
      NothingImplausible(p, run);
      NoRowOfFive(Flags(p, run));
    }
  }

  lemma {:induction false} NothingImplausible(p: Platform, run: seq<Sample>)
    requires Usable(p, run) && p.hit.None?
    ensures true !in Flags(p, run)
  {
    hide Fits, ReadingAt, Implausible;
    if run != [] {
      var n := |run| - 1;
      UsablePrefix(p, run);
      NothingImplausible(p, run[..n]);
      if Computed(run, n) {
        PlausibleWithoutCache(p, run, n);
      }
    }
  }

  lemma PlausibleWithoutCache(p: Platform, run: seq<Sample>, n: nat)
    requires Usable(p, run) && Computed(run, n) && p.hit.None?
    ensures !Implausible(ReadingAt(p, run, n))
  {
    hide Fits, Rate, Deltas, GpuIdle, Floored;
  }

  lemma NoRowOfFive(flags: seq<bool>)
    requires true !in flags
    ensures !FiveInARow(flags)
  {
    forall i: nat
      ensures !Row(flags, i, BAD_SAMPLES)
    {
      if i + BAD_SAMPLES <= |flags| {
        assert flags[i] in flags;
      }
    }
  }
}
