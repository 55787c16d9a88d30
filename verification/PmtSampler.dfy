/** The memory bandwidth sampler: rates from two telemetry regions, the guard against wrong
    layouts, and the learned idle floor. */
module PmtSampler {
  import opened Text
  import opened PmtCounters

  type Region = seq<byte>

  datatype Platform = Platform(
    verified: bool, noc: nat, nocUnit: nat, cpu: seq<nat>, io: seq<nat>, sys: Option<(nat, nat)>, unit: nat,
    egressUnit: Option<nat>, gpu: seq<nat>, hit: Option<nat>, miss: Option<nat>, cacheUnit: nat,
    gpuIdle: seq<nat>, ioFloor: real)

  datatype Bandwidth = Bandwidth(
    cpu: Option<real>, gpu: Option<real>, npu: real, sysRead: Option<real>, sysWrite: Option<real>,
    io: Option<real>, hit: Option<real>, miss: Option<real>, gpuIdle: Option<bool>, gpuEstimated: bool)

  const TOLERANCE: real := 0.2
  const GUARD_MIN: real := 1.0
  const BAD_SAMPLES: nat := 5
  const TICKS_PER_SECOND: real := 38400000.0
  const IDLE_RESIDENCY: real := 0.95
  const SANE_RESIDENCY: real := 1.1
  const FLOOR_WEIGHT: real := 0.2

  // --------------------------------------------------------------- regions

  function One(offset: Option<nat>): seq<nat> {
    if offset.Some? then [offset.value] else []
  }

  function Both(offsets: Option<(nat, nat)>): seq<nat> {
    if offsets.Some? then [offsets.value.0, offsets.value.1] else []
  }

  function Offsets(p: Platform): seq<nat> {
    p.cpu + p.io + p.gpu + Both(p.sys) + p.gpuIdle + One(p.hit) + One(p.miss) + [p.noc]
  }

  function Largest(offsets: seq<nat>): (r: nat)
    ensures forall o :: o in offsets ==> o <= r
    ensures offsets != [] ==> r in offsets
  {
    if offsets == [] then 0
    else
      assert offsets == [offsets[0]] + offsets[1..];
      var r := Largest(offsets[1..]);
      if offsets[0] >= r then offsets[0] else r
  }

  // _bandwidth_span
  function Span(p: Platform): nat {
    Largest(Offsets(p)) + 8
  }

  predicate Readable(buf: Region, offsets: seq<nat>) {
    forall o :: o in offsets ==> o + 8 <= |buf|
  }

  predicate Fits(p: Platform, buf: Region) {
    Readable(buf, Offsets(p))
  }

  // The length check lets through exactly the regions no counter read can fail on.
  lemma SpanIsExact(p: Platform, buf: Region)
    ensures |buf| >= Span(p) <==> Fits(p, buf)
    ensures Fits(p, buf) ==> forall o :: o in Offsets(p) ==> ReadBits(buf, o, 63, 0).Some?
  {
    hide Offsets;
    assert p.noc in Offsets(p) by {
      NocIsAnOffset(p);
    }
  }

  lemma NocIsAnOffset(p: Platform)
    ensures p.noc in Offsets(p)
  {
  }

  // --------------------------------------------------------------- rates

  // Bits msb:0 of the word at o. The sampler reads only regions where no read fails.
  function Word(buf: Region, o: nat, msb: nat): nat {
    var bits := ReadBits(buf, o, msb, 0);
    if bits.Some? then bits.value else 0
  }

  function Delta64(prev: Region, cur: Region, o: nat): nat {
    Delta(Word(prev, o, 63), Word(cur, o, 63), WORD)
  }

  function Delta32(prev: Region, cur: Region, o: nat): nat {
    Delta(Word(prev, o, 31), Word(cur, o, 31), HALF)
  }

  function Deltas(prev: Region, cur: Region, offsets: seq<nat>): nat {
    if offsets == [] then 0
    else Deltas(prev, cur, offsets[..|offsets| - 1]) + Delta64(prev, cur, offsets[|offsets| - 1])
  }

  // Counts of this many bytes each, in GB/s.
  function Rate(counts: nat, unit: nat, dt: real): real
    requires dt > 0.0
  {
    (counts * unit) as real / dt / 1000000000.0
  }

  function Maybe(b: bool, r: real): Option<real> {
    if b then Some(r) else None
  }

  function Residency(prev: Region, cur: Region, o: nat, dt: real): real
    requires dt > 0.0
  {
    Delta64(prev, cur, o) as real / (dt * TICKS_PER_SECOND)
  }

  function GpuIdle(p: Platform, prev: Region, cur: Region, dt: real): Option<bool>
    requires dt > 0.0
  {
    if p.gpuIdle == [] then None
    else if exists o :: o in p.gpuIdle && Residency(prev, cur, o, dt) > SANE_RESIDENCY then None
    else Some(forall o :: o in p.gpuIdle ==> Residency(prev, cur, o, dt) >= IDLE_RESIDENCY)
  }

  function Floored(x: real): real {
    if x > 0.0 then x else 0.0
  }

  function ComputeBandwidth(p: Platform, prev: Region, cur: Region, dt: real, floor: real): Bandwidth
    requires Fits(p, prev) && Fits(p, cur) && dt > 0.0
  {
    var egress := if p.egressUnit.Some? && p.egressUnit.value != 0 then p.egressUnit.value else p.unit;
    var npu := Rate(Delta32(prev, cur, p.noc), p.nocUnit, dt);
    var idle := GpuIdle(p, prev, cur, dt);
    var io := Maybe(p.gpu == [] && p.io != [], Rate(Deltas(prev, cur, p.io), egress, dt));
    var cached := p.hit.Some? && p.miss.Some?;
    Bandwidth(
      Maybe(p.cpu != [], Rate(Deltas(prev, cur, p.cpu), egress, dt)),
      if p.gpu != [] then Some(Rate(Deltas(prev, cur, p.gpu), egress, dt))
      else if io.Some? then Some(if idle == Some(true) then 0.0 else Floored(io.value - npu - floor))
      else None,
      npu,
      if p.sys.Some? then Some(Rate(Delta64(prev, cur, p.sys.value.0), p.unit, dt)) else None,
      if p.sys.Some? then Some(Rate(Delta64(prev, cur, p.sys.value.1), p.unit, dt)) else None,
      io,
      Maybe(cached, Rate(Deltas(prev, cur, One(p.hit)), p.cacheUnit, dt)),
      Maybe(cached, Rate(Deltas(prev, cur, One(p.miss)), p.cacheUnit, dt)),
      idle, false)
  }

  function CacheTotal(bw: Bandwidth): Option<real> {
    if bw.hit.Some? && bw.miss.Some? then Some(bw.hit.value + bw.miss.value) else None
  }

  function GpuFromCache(bw: Bandwidth, floor: real): Option<real> {
    if CacheTotal(bw).None? || bw.cpu.None? then None
    else Some(Floored(CacheTotal(bw).value - bw.cpu.value - bw.npu - floor))
  }

  predicate Implausible(bw: Bandwidth) {
    && CacheTotal(bw).Some? && bw.cpu.Some? && bw.io.Some? && CacheTotal(bw).value >= GUARD_MIN
    && var gap := (bw.cpu.value + bw.io.value) / CacheTotal(bw).value - 1.0;
       gap > TOLERANCE || gap < -TOLERANCE
  }

  // What a GPU-idle reading says about the idle floor.
  function Observed(bw: Bandwidth): Option<real> {
    if bw.gpuIdle == Some(true) && bw.io.Some? then Some(Floored(bw.io.value - bw.npu)) else None
  }

  function Learned(floor: real, observed: Option<real>): real {
    if observed.Some? then floor + FLOOR_WEIGHT * (observed.value - floor) else floor
  }

  // --------------------------------------------------------------- the sampler

  datatype State = State(prev: Option<(Region, real)>, bad: nat, disabled: bool, diverging: bool, floor: real)

  function Start(p: Platform): State {
    State(None, 0, false, false, p.ioFloor)
  }

  // A sampling round: the region, when it could be read, and the clock.
  datatype Sample = Sample(read: Option<Region>, now: real)

  function Judge(p: Platform, st: State, bw: Bandwidth): (State, Option<Bandwidth>) {
    var bad := if Implausible(bw) then st.bad + 1 else 0;
    if bad >= BAD_SAMPLES && !p.verified then (st.(bad := bad, disabled := true), None)
    else
      var out := if bad >= BAD_SAMPLES && bw.gpuIdle != Some(true)
                 then bw.(gpu := GpuFromCache(bw, st.floor), gpuEstimated := true) else bw;
      (st.(bad := bad, diverging := bad >= BAD_SAMPLES,
           floor := if bad == 0 then Learned(st.floor, Observed(bw)) else st.floor), Some(out))
  }

  predicate Sound(p: Platform, st: State) {
    st.prev.Some? ==> Fits(p, st.prev.value.0)
  }

  function Step(p: Platform, st: State, s: Sample): (State, Option<Bandwidth>)
    requires Sound(p, st)
  {
    if st.disabled then (st, None)
    else if s.read.None? then (st.(prev := None), None)
    else if |s.read.value| < Span(p) then (st.(disabled := true), None)
    else
      SpanIsExact(p, s.read.value);
      var next := st.(prev := Some((s.read.value, s.now)));
      if st.prev.None? || s.now <= st.prev.value.1 then (next, None)
      else Judge(p, next, ComputeBandwidth(p, st.prev.value.0, s.read.value, s.now - st.prev.value.1, st.floor))
  }

  // --------------------------------------------------------------- the GPU's figure

  // Without counters of its own the GPU is what the IO traffic leaves beside the NPU and
  // the idle floor, and nothing while the GPU sleeps.
  predicate GpuIsTheRest(bw: Bandwidth, floor: real) {
    if bw.io.None? then bw.gpu == None
    else
      && bw.gpu.Some? && bw.gpu.value >= 0.0
      && (bw.gpu.value == 0.0 <==> bw.gpuIdle == Some(true) || bw.io.value <= bw.npu + floor)
      && (bw.gpu.value > 0.0 ==> bw.gpu.value + bw.npu + floor == bw.io.value)
  }

  // Estimated from the cache it is what the CPU, the NPU and the floor leave of its traffic.
  predicate GpuFillsTheCache(bw: Bandwidth, floor: real) {
    if bw.hit.None? || bw.miss.None? || bw.cpu.None? then bw.gpu == None
    else
      && bw.gpu.Some? && bw.gpu.value >= 0.0
      && (bw.gpu.value == 0.0 <==> bw.hit.value + bw.miss.value <= bw.cpu.value + bw.npu + floor)
      && (bw.gpu.value > 0.0 ==> bw.gpu.value + bw.cpu.value + bw.npu + floor == bw.hit.value + bw.miss.value)
  }

  lemma DerivedGpu(p: Platform, prev: Region, cur: Region, dt: real, floor: real)
    requires Fits(p, prev) && Fits(p, cur) && dt > 0.0 && p.gpu == []
    ensures var bw := ComputeBandwidth(p, prev, cur, dt, floor); GpuIsTheRest(bw, floor) && !bw.gpuEstimated
  {
    hide Fits, Rate, Deltas, GpuIdle;
  }

  lemma EstimatedGpu(bw: Bandwidth, floor: real)
    ensures GpuFillsTheCache(bw.(gpu := GpuFromCache(bw, floor), gpuEstimated := true), floor)
  {
  }

  // What a round returns without GPU counters, with the floor learned before it: the rest of
  // the IO traffic, or of the cache's from the fifth implausible reading in a row on while
  // the GPU is awake.
  predicate GpuAccounted(p: Platform, bad: nat, bw: Bandwidth, floor: real) {
    p.gpu == [] ==>
      && (bw.gpuEstimated <==> bad >= 5 && bw.gpuIdle != Some(true))
      && (if bw.gpuEstimated then GpuFillsTheCache(bw, floor) else GpuIsTheRest(bw, floor))
  }

  lemma ReturnedGpu(p: Platform, st: State, s: Sample)
    requires Sound(p, st)
    ensures var (next, reading) := Step(p, st, s);
      reading.Some? ==> GpuAccounted(p, next.bad, reading.value, st.floor)
  {
    hide Fits, ComputeBandwidth, Implausible, Learned, Observed, GpuFromCache, GpuIsTheRest, GpuFillsTheCache, Span;
    if p.gpu == [] && Step(p, st, s).1.Some? {
      SpanIsExact(p, s.read.value);
      var dt := s.now - st.prev.value.1;
      var bw := ComputeBandwidth(p, st.prev.value.0, s.read.value, dt, st.floor);
      DerivedGpu(p, st.prev.value.0, s.read.value, dt, st.floor);
      EstimatedGpu(bw, st.floor);
    }
  }

  // Only a reading with a sleeping GPU moves the floor, a fifth of the way to the IO traffic
  // that is not the NPU's.
  predicate FloorMoves(bw: Bandwidth, before: real, after: real) {
    if bw.gpuIdle != Some(true) || bw.io.None? then after == before
    else
      var rest := if bw.io.value > bw.npu then bw.io.value - bw.npu else 0.0;
      after - rest == 0.8 * (before - rest)
  }

  // The guard compares what CPU and IO moved with the cache's traffic: a reading is found
  // implausible when there is at least 1 GB/s of it and they differ by more than a fifth.
  lemma ImplausibleExactly(bw: Bandwidth)
    ensures Implausible(bw) <==>
      && bw.hit.Some? && bw.miss.Some? && bw.cpu.Some? && bw.io.Some?
      && var total, seen := bw.hit.value + bw.miss.value, bw.cpu.value + bw.io.value;
         total >= 1.0 && (seen > 1.2 * total || seen < 0.8 * total)
  {
    if CacheTotal(bw).Some? && bw.cpu.Some? && bw.io.Some? && CacheTotal(bw).value >= GUARD_MIN {
      Quotient(bw.cpu.value + bw.io.value, CacheTotal(bw).value, 1.2);
      Quotient(bw.cpu.value + bw.io.value, CacheTotal(bw).value, 0.8);
    }
  }

  lemma Quotient(x: real, y: real, share: real)
    requires y > 0.0
    ensures x / y > share <==> x > share * y
    ensures x / y >= share <==> x >= share * y
  {
    var q := x / y;
    assert q * y == x;
    if q > share {
      assert (q - share) * y > 0.0;
    } else {
      assert (share - q) * y >= 0.0;
    }
    if q >= share {
      assert (q - share) * y >= 0.0;
    } else {
      assert (share - q) * y > 0.0;
    }
  }

  class PmtBandwidthSampler {
    const platform: Platform
    var prev: Option<(Region, real)>
    var bad: nat
    var disabled: bool
    var diverging: bool
    var floor: real

    ghost function Now(): State
      reads this
    {
      State(prev, bad, disabled, diverging, floor)
    }

    constructor (platform: Platform)
      ensures this.platform == platform && Now() == Start(platform) && Sound(platform, Now())
    {
      this.platform := platform;
      prev, bad, disabled, diverging, floor := None, 0, false, false, platform.ioFloor;
    }

    method Take(s: Sample) returns (reading: Option<Bandwidth>)
      requires Sound(platform, Now())
      modifies this
      ensures Sound(platform, Now())
      ensures (Now(), reading) == Step(platform, old(Now()), s)
      ensures reading.Some? ==> GpuAccounted(platform, bad, reading.value, old(floor))
    {
      hide GpuAccounted, FloorMoves, ComputeBandwidth, Fits, Implausible, Span, Learned, Observed, GpuFromCache;
      if disabled {
        return None;
      }
      if s.read.None? {
        prev := None;
        return None;
      }
      var buf := s.read.value;
      if |buf| < Span(platform) {
        disabled := true;
        return None;
      }
      SpanIsExact(platform, buf);
      var before := prev;
      prev := Some((buf, s.now));
      if before.None? || s.now <= before.value.1 {
        return None;
      }
      var dt := s.now - before.value.1;
      var bw := ComputeBandwidth(platform, before.value.0, buf, dt, floor);
      bad := if Implausible(bw) then bad + 1 else 0;
      var gap := bad >= BAD_SAMPLES;
      if gap && !platform.verified {
        disabled := true;
        return None;
      }
      if gap && bw.gpuIdle != Some(true) {
        bw := bw.(gpu := GpuFromCache(bw, floor), gpuEstimated := true);
      }
      diverging := gap;
      if bad == 0 {
        LearnIoFloor(bw);
      }
      ReturnedGpu(platform, old(Now()), s);
      return Some(bw);
    }

    method LearnIoFloor(bw: Bandwidth)
      modifies `floor
      ensures floor == Learned(old(floor), Observed(bw))
      ensures FloorMoves(bw, old(floor), floor)
    {
      if bw.gpuIdle != Some(true) || bw.io.None? {
        return;
      }
      var observed := Floored(bw.io.value - bw.npu);
      floor := floor + FLOOR_WEIGHT * (observed - floor);
    }
  }
}
