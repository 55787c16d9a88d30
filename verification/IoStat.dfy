/** Differences of per-cgroup I/O counters between two snapshots. */
module IoStat {
  import opened Text

  datatype Counts = Counts(rbytes: int, wbytes: int, rios: int, wios: int)

  const Zero := Counts(0, 0, 0, 0)

  function Plus(a: Counts, b: Counts): Counts {
    Counts(a.rbytes + b.rbytes, a.wbytes + b.wbytes, a.rios + b.rios, a.wios + b.wios)
  }

  function NotNegative(x: int): int {
    if x > 0 then x else 0
  }

  function Risen(before: Counts, after: Counts): Counts {
    Counts(NotNegative(after.rbytes - before.rbytes), NotNegative(after.wbytes - before.wbytes),
           NotNegative(after.rios - before.rios), NotNegative(after.wios - before.wios))
  }

  // A dictionary in its order: devices by number, cgroups by path.
  datatype Device = Device(id: string, counts: Counts)
  datatype Group = Group(path: string, devices: seq<Device>)
  datatype Usage = Usage(path: string, totals: Counts, devices: seq<Device>)

  function CountsOf(devices: seq<Device>, id: string): Counts {
    if devices == [] then Zero
    else if devices[|devices| - 1].id == id then devices[|devices| - 1].counts
    else CountsOf(devices[..|devices| - 1], id)
  }

  function DevicesOf(snapshot: seq<Group>, path: string): Option<seq<Device>> {
    if snapshot == [] then None
    else if snapshot[0].path == path then Some(snapshot[0].devices)
    else DevicesOf(snapshot[1..], path)
  }

  // The devices with I/O in the window, each with its own.
  function PerDevice(before: seq<Device>, after: seq<Device>): seq<Device> {
    if after == [] then []
    else
      var d := after[|after| - 1];
      var delta := Risen(CountsOf(before, d.id), d.counts);
      PerDevice(before, after[..|after| - 1]) + if delta != Zero then [Device(d.id, delta)] else []
  }

  function SumOf(devices: seq<Device>): Counts {
    if devices == [] then Zero
    else Plus(SumOf(devices[..|devices| - 1]), devices[|devices| - 1].counts)
  }

  function UsageIn(before: seq<Group>, g: Group): Option<Usage> {
    var base := DevicesOf(before, g.path);
    if base.None? then None
    else
      var per := PerDevice(base.value, g.devices);
      if SumOf(per) != Zero then Some(Usage(g.path, SumOf(per), per)) else None
  }

  function Usages(before: seq<Group>, after: seq<Group>): seq<Usage> {
    if after == [] then []
    else
      var u := UsageIn(before, after[|after| - 1]);
      Usages(before, after[..|after| - 1]) + if u.Some? then [u.value] else []
  }

  method Deltas(t0: real, before: seq<Group>, t1: real, after: seq<Group>) returns (elapsed: real, out: seq<Usage>)
    ensures t1 <= t0 ==> elapsed == 0.0 && out == []
    ensures t1 > t0 ==> elapsed == t1 - t0 && out == Usages(before, after)
    ensures forall i :: 0 <= i < |out| ==> out[i].totals == SumOf(out[i].devices)
  {
    elapsed, out := t1 - t0, [];
    if elapsed <= 0.0 {
      return 0.0, [];
    }
    for i := 0 to |after|
      invariant out == Usages(before, after[..i])
      invariant forall k :: 0 <= k < |out| ==> out[k].totals == SumOf(out[k].devices)
    {
      assert after[..i + 1][..i] == after[..i];
      var base := DevicesOf(before, after[i].path);
      if base.Some? {
        var per, totals := GroupDeltas(base.value, after[i].devices);
        if totals != Zero {
          out := out + [Usage(after[i].path, totals, per)];
        }
      }
    }
    assert after[..|after|] == after;
  }

  method GroupDeltas(before: seq<Device>, after: seq<Device>) returns (per: seq<Device>, totals: Counts)
    ensures per == PerDevice(before, after) && totals == SumOf(per)
  {
    per, totals := [], Zero;
    for i := 0 to |after|
      invariant per == PerDevice(before, after[..i]) && totals == SumOf(per)
    {
      assert after[..i + 1][..i] == after[..i];
      var delta := Risen(CountsOf(before, after[i].id), after[i].counts);
      if delta != Zero {
        assert (per + [Device(after[i].id, delta)])[..|per|] == per;
        per := per + [Device(after[i].id, delta)];
        totals := Plus(totals, delta);
      }
    }
    assert after[..|after|] == after;
  }

  // --------------------------------------------------------------- consecutive windows

  predicate Distinct(devices: seq<Device>) {
    forall i, j :: 0 <= i < j < |devices| ==> devices[i].id != devices[j].id
  }

  predicate Listed(devices: seq<Device>, id: string) {
    exists i :: 0 <= i < |devices| && devices[i].id == id
  }

  predicate AtMost(a: Counts, b: Counts) {
    a.rbytes <= b.rbytes && a.wbytes <= b.wbytes && a.rios <= b.rios && a.wios <= b.wios
  }

  // No device of the earlier list is gone, and no counter fell.
  predicate Grew(before: seq<Device>, after: seq<Device>) {
    && Distinct(before) && Distinct(after)
    && (forall i :: 0 <= i < |before| ==> Listed(after, before[i].id))
    && (forall i :: 0 <= i < |after| ==> AtMost(CountsOf(before, after[i].id), after[i].counts))
  }

  // What the devices of `after` had counted before.
  function Base(before: seq<Device>, after: seq<Device>): Counts {
    if after == [] then Zero
    else Plus(Base(before, after[..|after| - 1]), CountsOf(before, after[|after| - 1].id))
  }

  lemma {:induction false} TotalIsRise(before: seq<Device>, after: seq<Device>)
    requires forall i :: 0 <= i < |after| ==> AtMost(CountsOf(before, after[i].id), after[i].counts)
    ensures Plus(SumOf(PerDevice(before, after)), Base(before, after)) == SumOf(after)
  {
    hide CountsOf, Risen, SumOf, PerDevice, AtMost, Base, Plus;
    if after != [] {
      var n := |after| - 1;
      var last := after[n];
      TotalIsRise(before, after[..n]);
      assert after == after[..n] + [last];
      SumSnoc(after[..n], last);
      BaseStep(before, after);
      TotalStep(before, after);
      RiseFills(CountsOf(before, last.id), last.counts);
      Exchange(SumOf(PerDevice(before, after[..n])), Risen(CountsOf(before, last.id), last.counts),
               Base(before, after[..n]), CountsOf(before, last.id));
    } else {
      RiseOfNothing(before);
    }
  }

  lemma RiseOfNothing(before: seq<Device>)
    ensures Plus(SumOf(PerDevice(before, [])), Base(before, [])) == SumOf([])
  {
  }

  lemma Exchange(a: Counts, b: Counts, c: Counts, d: Counts)
    ensures Plus(Plus(a, b), Plus(c, d)) == Plus(Plus(a, c), Plus(b, d))
  {
  }

  lemma SumSnoc(devices: seq<Device>, d: Device)
    ensures SumOf(devices + [d]) == Plus(SumOf(devices), d.counts)
  {
    assert (devices + [d])[..|devices|] == devices;
  }

  lemma RiseFills(a: Counts, b: Counts)
    requires AtMost(a, b)
    ensures Plus(Risen(a, b), a) == b
  {
  }

  lemma TotalStep(before: seq<Device>, after: seq<Device>)
    requires after != []
    ensures var last := after[|after| - 1];
      SumOf(PerDevice(before, after))
      == Plus(SumOf(PerDevice(before, after[..|after| - 1])), Risen(CountsOf(before, last.id), last.counts))
  {
    hide CountsOf, Risen, SumOf;
    var last := after[|after| - 1];
    var per, delta := PerDevice(before, after[..|after| - 1]), Risen(CountsOf(before, last.id), last.counts);
    SumSnoc(per, Device(last.id, delta));
    if delta == Zero {
      assert per + [] == per;
    }
  }

  lemma {:induction false} BaseOfNothing(after: seq<Device>)
    ensures Base([], after) == Zero
  {
    if after != [] {
      BaseOfNothing(after[..|after| - 1]);
    }
  }

  // One device more in the earlier list shows in the base once.
  lemma {:induction false} BaseGrows(before: seq<Device>, d: Device, after: seq<Device>)
    requires Distinct(after) && !Listed(before, d.id)
    ensures Base(before + [d], after) == if Listed(after, d.id) then Plus(Base(before, after), d.counts) else Base(before, after)
  {
    if after != [] {
      hide Base, CountsOf;
      var n := |after| - 1;
      BaseGrows(before, d, after[..n]);
      BaseStep(before, after);
      BaseStep(before + [d], after);
      FindIn(before, d, after[n].id);
      assert forall i :: 0 <= i < n ==> after[..n][i] == after[i];
    } else {
      BaseEmpty(before);
      BaseEmpty(before + [d]);
    }
  }

  lemma BaseEmpty(before: seq<Device>)
    ensures Base(before, []) == Zero
  {
  }

  lemma BaseStep(before: seq<Device>, after: seq<Device>)
    requires after != []
    ensures Base(before, after) == Plus(Base(before, after[..|after| - 1]), CountsOf(before, after[|after| - 1].id))
  {
  }

  lemma {:induction false} FindIn(before: seq<Device>, d: Device, id: string)
    ensures CountsOf(before + [d], id) == if d.id == id then d.counts else CountsOf(before, id)
    ensures !Listed(before, id) ==> CountsOf(before, id) == Zero
  {
    assert (before + [d])[..|before|] == before;
    Unlisted(before, id);
  }

  lemma {:induction false} Unlisted(devices: seq<Device>, id: string)
    ensures !Listed(devices, id) ==> CountsOf(devices, id) == Zero
  {
    if devices != [] {
      var n := |devices| - 1;
      Unlisted(devices[..n], id);
      if Listed(devices[..n], id) {
        var i :| 0 <= i < n && devices[..n][i].id == id;
        assert devices[i].id == id;
      }
    }
  }

  lemma {:induction false} BaseIsAll(before: seq<Device>, after: seq<Device>)
    requires Distinct(before) && Distinct(after) && forall i :: 0 <= i < |before| ==> Listed(after, before[i].id)
    ensures Base(before, after) == SumOf(before)
  {
    hide Base, CountsOf, Listed;
    if before == [] {
      BaseOfNothing(after);
    } else {
      var n := |before| - 1;
      assert before == before[..n] + [before[n]];
      NotAgain(before);
      BaseIsAll(before[..n], after);
      BaseGrows(before[..n], before[n], after);
    }
  }

  lemma NotAgain(devices: seq<Device>)
    requires devices != [] && Distinct(devices)
    ensures !Listed(devices[..|devices| - 1], devices[|devices| - 1].id) && Distinct(devices[..|devices| - 1])
  {
  }

  lemma {:induction false} CountsOfListed(devices: seq<Device>, i: nat)
    requires i < |devices| && Distinct(devices)
    ensures CountsOf(devices, devices[i].id) == devices[i].counts
  {
    if i < |devices| - 1 {
      CountsOfListed(devices[..|devices| - 1], i);
    }
  }

  lemma GrowthChains(first: seq<Device>, second: seq<Device>, third: seq<Device>)
    requires Grew(first, second) && Grew(second, third)
    ensures Grew(first, third)
  {
    hide CountsOf, Distinct;
    forall i | 0 <= i < |first|
      ensures Listed(third, first[i].id)
    {
      var j :| 0 <= j < |second| && second[j].id == first[i].id;
      assert Listed(third, second[j].id);
    }
    forall i | 0 <= i < |third|
      ensures AtMost(CountsOf(first, third[i].id), third[i].counts)
    {
      if j :| 0 <= j < |second| && second[j].id == third[i].id {
        CountsOfListed(second, j);
      } else {
        Unlisted(first, third[i].id);
        Unlisted(second, third[i].id);
      }
    }
  }

  // For counters that only grow, two windows in a row report what the one window over both
  // would: nothing is counted twice or dropped, also for devices that appear in between.
  lemma WindowsAddUp(first: seq<Device>, second: seq<Device>, third: seq<Device>)
    requires Grew(first, second) && Grew(second, third)
    ensures Plus(SumOf(PerDevice(first, second)), SumOf(PerDevice(second, third))) == SumOf(PerDevice(first, third))
  {
    hide SumOf, PerDevice, Base, CountsOf, Distinct, Listed;
    GrowthChains(first, second, third);
    TotalIsRise(first, second);
    TotalIsRise(second, third);
    TotalIsRise(first, third);
    BaseIsAll(first, second);
    BaseIsAll(second, third);
    BaseIsAll(first, third);
  }

  // --------------------------------------------------------------- device by device

  lemma {:induction false} DeviceRise(before: seq<Device>, after: seq<Device>, id: string)
    requires Distinct(after)
    ensures CountsOf(PerDevice(before, after), id)
         == if Listed(after, id) then Risen(CountsOf(before, id), CountsOf(after, id)) else Zero
  {
    hide Risen;
    if after != [] {
      var n := |after| - 1;
      var last := after[n];
      var delta := Risen(CountsOf(before, last.id), last.counts);
      NotAgain(after);
      DeviceRise(before, after[..n], id);
      ListedSnoc(after, id);
      FindIn(PerDevice(before, after[..n]), Device(last.id, delta), id);
      if delta == Zero {
        assert PerDevice(before, after[..n]) + [] == PerDevice(before, after[..n]);
      }
    }
  }

  lemma ListedSnoc(devices: seq<Device>, id: string)
    requires devices != []
    ensures Listed(devices, id) <==> Listed(devices[..|devices| - 1], id) || devices[|devices| - 1].id == id
  {
    var n := |devices| - 1;
    if i :| 0 <= i < |devices| && devices[i].id == id && i < n {
      assert devices[..n][i].id == id;
    }
    if i :| 0 <= i < n && devices[..n][i].id == id {
      assert devices[i].id == id;
    }
    if devices[n].id == id {
      assert Listed(devices, id);
    }
  }

  // What a growing list counts for a device it lists.
  lemma GrownCount(before: seq<Device>, after: seq<Device>, id: string)
    requires Grew(before, after)
    ensures Listed(before, id) ==> Listed(after, id)
    ensures Listed(after, id) ==> AtMost(CountsOf(before, id), CountsOf(after, id))
    ensures !Listed(before, id) ==> CountsOf(before, id) == Zero
  {
    hide CountsOf, AtMost, Distinct;
    Unlisted(before, id);
    if i :| 0 <= i < |before| && before[i].id == id {
      assert Listed(after, before[i].id);
    }
    if i :| 0 <= i < |after| && after[i].id == id {
      CountsOfListed(after, i);
    }
  }

  // The same for each device by itself.
  lemma DeviceWindowsAddUp(first: seq<Device>, second: seq<Device>, third: seq<Device>, id: string)
    requires Grew(first, second) && Grew(second, third)
    ensures Plus(CountsOf(PerDevice(first, second), id), CountsOf(PerDevice(second, third), id))
         == CountsOf(PerDevice(first, third), id)
  {
    hide PerDevice, CountsOf, Distinct, Listed, Grew, Risen, Plus, AtMost;
    GrewDistinct(first, second);
    GrewDistinct(second, third);
    DeviceRise(first, second, id);
    DeviceRise(second, third, id);
    DeviceRise(first, third, id);
    GrownCount(first, second, id);
    GrownCount(second, third, id);
    RisesChain(CountsOf(first, id), CountsOf(second, id), CountsOf(third, id));
  }

  lemma RisesChain(a: Counts, b: Counts, c: Counts)
    ensures AtMost(a, b) && AtMost(b, c) ==> Plus(Risen(a, b), Risen(b, c)) == Risen(a, c)
    ensures b == Zero ==> Plus(Zero, Risen(b, c)) == Risen(b, c)
    ensures Plus(Zero, Zero) == Zero
  {
  }

  lemma GrewDistinct(before: seq<Device>, after: seq<Device>)
    requires Grew(before, after)
    ensures Distinct(after)
  {
  }

  // --------------------------------------------------------------- all groups

  predicate DistinctPaths(groups: seq<Group>) {
    forall i, j :: 0 <= i < j < |groups| ==> groups[i].path != groups[j].path
  }

  // The usage reported for a group, if any.
  function Reported(out: seq<Usage>, path: string): Option<Usage> {
    if out == [] then None
    else if out[|out| - 1].path == path then Some(out[|out| - 1])
    else Reported(out[..|out| - 1], path)
  }

  function TotalsIn(out: seq<Usage>, path: string): Counts {
    if Reported(out, path).Some? then Reported(out, path).value.totals else Zero
  }

  function DeviceIn(out: seq<Usage>, path: string, id: string): Counts {
    if Reported(out, path).Some? then CountsOf(Reported(out, path).value.devices, id) else Zero
  }

  lemma {:induction false} DevicesSnoc(groups: seq<Group>, g: Group, path: string)
    ensures DevicesOf(groups + [g], path)
         == if DevicesOf(groups, path).Some? then DevicesOf(groups, path)
            else if g.path == path then Some(g.devices) else None
  {
    if groups == [] {
      assert groups + [g] == [g];
    } else {
      assert (groups + [g])[1..] == groups[1..] + [g];
      DevicesSnoc(groups[1..], g, path);
    }
  }

  lemma {:induction false} NoSuchGroup(groups: seq<Group>, path: string)
    requires forall i :: 0 <= i < |groups| ==> groups[i].path != path
    ensures DevicesOf(groups, path) == None
  {
    if groups != [] {
      NoSuchGroup(groups[1..], path);
    }
  }

  lemma {:induction false} ReportedOfPath(before: seq<Group>, after: seq<Group>, path: string)
    requires DistinctPaths(after)
    ensures Reported(Usages(before, after), path)
         == match DevicesOf(after, path) case None => None case Some(devices) => UsageIn(before, Group(path, devices))
  {
    hide UsageIn;
    if after != [] {
      var n := |after| - 1;
      var g := after[n];
      var u := UsageIn(before, g);
      assert after == after[..n] + [g];
      DevicesSnoc(after[..n], g, path);
      ReportedOfPath(before, after[..n], path);
      UsageHasPath(before, g);
      if g.path == path {
        NoSuchGroup(after[..n], path);
        assert g == Group(path, g.devices);
      }
      if u.Some? {
        assert (Usages(before, after[..n]) + [u.value])[..|Usages(before, after[..n])|] == Usages(before, after[..n]);
      } else {
        assert Usages(before, after[..n]) + [] == Usages(before, after[..n]);
      }
    }
  }

  lemma UsageHasPath(before: seq<Group>, g: Group)
    ensures UsageIn(before, g).Some? ==> UsageIn(before, g).value.path == g.path
  {
  }

  // No rise is negative, and those kept are not all zero, so a sum of zero means none.
  lemma {:induction false} RisesSumUp(before: seq<Device>, after: seq<Device>)
    ensures AtMost(Zero, SumOf(PerDevice(before, after)))
    ensures SumOf(PerDevice(before, after)) == Zero ==> PerDevice(before, after) == []
  {
    if after != [] {
      hide CountsOf, SumOf;
      RisesSumUp(before, after[..|after| - 1]);
      TotalStep(before, after);
    } else {
      assert SumOf([]) == Zero;
    }
  }

  lemma WindowOfGroup(before: seq<Group>, after: seq<Group>, path: string, id: string)
    requires DistinctPaths(after) && DevicesOf(before, path).Some? && DevicesOf(after, path).Some?
    ensures var per := PerDevice(DevicesOf(before, path).value, DevicesOf(after, path).value);
      TotalsIn(Usages(before, after), path) == SumOf(per) && DeviceIn(Usages(before, after), path, id) == CountsOf(per, id)
  {
    hide Usages, PerDevice, DistinctPaths;
    ReportedOfPath(before, after, path);
    RisesSumUp(DevicesOf(before, path).value, DevicesOf(after, path).value);
  }

  // The group is still there, and no counter of it fell.
  predicate GroupGrew(before: seq<Group>, after: seq<Group>, path: string) {
    DevicesOf(before, path).Some? ==>
      DevicesOf(after, path).Some? && Grew(DevicesOf(before, path).value, DevicesOf(after, path).value)
  }

  // Over whole snapshots: a group that the first one knows adds up, in total and in every
  // device. A group that appears later is in no window that begins before it.
  lemma UsagesAddUp(first: seq<Group>, second: seq<Group>, third: seq<Group>, path: string, id: string)
    requires DistinctPaths(second) && DistinctPaths(third)
    requires GroupGrew(first, second, path) && GroupGrew(second, third, path)
    ensures DevicesOf(first, path).Some? ==>
      && Plus(TotalsIn(Usages(first, second), path), TotalsIn(Usages(second, third), path))
         == TotalsIn(Usages(first, third), path)
      && Plus(DeviceIn(Usages(first, second), path, id), DeviceIn(Usages(second, third), path, id))
         == DeviceIn(Usages(first, third), path, id)
    ensures DevicesOf(first, path).None? ==>
      Reported(Usages(first, second), path) == None && Reported(Usages(first, third), path) == None
  {
    hide Usages, PerDevice, DistinctPaths, Grew, SumOf, CountsOf, TotalsIn, DeviceIn, Plus;
    if DevicesOf(first, path).Some? {
      WindowOfGroup(first, second, path, id);
      WindowOfGroup(second, third, path, id);
      WindowOfGroup(first, third, path, id);
      var a, b, c := DevicesOf(first, path).value, DevicesOf(second, path).value, DevicesOf(third, path).value;
      WindowsAddUp(a, b, c);
      DeviceWindowsAddUp(a, b, c, id);
    } else {
      ReportedOfPath(first, second, path);
      ReportedOfPath(first, third, path);
    }
  }
}
