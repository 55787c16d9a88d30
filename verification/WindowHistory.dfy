/** The sliding window of cumulative counters from which loss ratios are read. */
module WindowHistory {

  datatype Entry = Entry(at: int, values: seq<int>)

  // The entries no older than the cutoff, in order.
  function Recent(entries: seq<Entry>, cutoff: int): seq<Entry> {
    if entries == [] then []
    else
      var e := entries[|entries| - 1];
      Recent(entries[..|entries| - 1], cutoff) + (if e.at >= cutoff then [e] else [])
  }

  predicate InOrder(entries: seq<Entry>) {
    forall i, j :: 0 <= i < j < |entries| ==> entries[i].at <= entries[j].at
  }

  function Ratio(history: seq<Entry>, num: nat, den: nat): real
    requires forall e :: e in history ==> num < |e.values| && den < |e.values|
  {
    if |history| < 2 then 0.0
    else
      var first, last := history[0].values, history[|history| - 1].values;
      var lost, total := last[num] - first[num], last[den] - first[den];
      if total <= 0 || lost < 0 then 0.0 else lost as real / total as real
  }

  class WindowDiffHistory {
    const window: nat
    var history: seq<Entry>

    constructor (window: nat)
      ensures this.window == window && history == []
    {
      this.window := window;
      history := [];
    }

    method Add(now: int, values: seq<int>)
      modifies this
      ensures history == Recent(old(history) + [Entry(now, values)], now - window)
    {
      history := history + [Entry(now, values)];
      Clean(now);
    }

    method Clean(now: int)
      modifies this
      ensures history == Recent(old(history), now - window)
    {
      var kept := [];
      for i := 0 to |history|
        invariant history == old(history) && kept == Recent(history[..i], now - window)
      {
        assert history[..i + 1][..i] == history[..i];
        if history[i].at >= now - window {
          kept := kept + [history[i]];
        }
      }
      assert history[..|history|] == history;
      history := kept;
    }

    method DiffRate(num: nat, den: nat) returns (rate: real)
      requires forall e :: e in history ==> num < |e.values| && den < |e.values|
      ensures rate == Ratio(history, num, den)
    {
      if |history| < 2 {
        return 0.0;
      }
      var first, last := history[0], history[|history| - 1];
      var lost := last.values[num] - first.values[num];
      var total := last.values[den] - first.values[den];
      if total <= 0 || lost < 0 {
        return 0.0;
      }
      return lost as real / total as real;
    }
  }

  // The window after adding the entries one by one.
  function Added(entries: seq<Entry>, window: nat): seq<Entry> {
    if entries == [] then []
    else
      var e := entries[|entries| - 1];
      Recent(Added(entries[..|entries| - 1], window) + [e], e.at - window)
  }

  lemma {:induction false} RecentJoins(a: seq<Entry>, b: seq<Entry>, cutoff: int)
    ensures Recent(a + b, cutoff) == Recent(a, cutoff) + Recent(b, cutoff)
  {
    if b == [] {
      assert a + b == a;
    } else {
      RecentJoins(a, b[..|b| - 1], cutoff);
      assert (a + b)[..|a + b| - 1] == a + b[..|b| - 1];
    }
  }

  lemma {:induction false} RecentTwice(entries: seq<Entry>, early: int, late: int)
    requires early <= late
    ensures Recent(Recent(entries, early), late) == Recent(entries, late)
  {
    if entries != [] {
      var before, e := entries[..|entries| - 1], entries[|entries| - 1];
      RecentTwice(before, early, late);
      RecentJoins(Recent(before, early), if e.at >= early then [e] else [], late);
      assert [e][..0] == [];
    }
  }

  lemma OrderedPrefix(entries: seq<Entry>)
    requires |entries| > 1 && InOrder(entries)
    ensures InOrder(entries[..|entries| - 1])
    ensures entries[..|entries| - 1][|entries| - 2].at <= entries[|entries| - 1].at
  {
  }

  // Cleaning step by step forgets nothing it should keep: after any run the window holds
  // exactly the entries of the whole run that are no older than its width.
  lemma {:induction false} WindowIsExact(entries: seq<Entry>, window: nat)
    requires entries != [] && InOrder(entries)
    ensures Added(entries, window) == Recent(entries, entries[|entries| - 1].at - window)
  {
    hide Recent, InOrder;
    var n := |entries| - 1;
    var e := entries[n];
    if n > 0 {
      OrderedPrefix(entries);
      WindowIsExact(entries[..n], window);
      RecentTwice(entries[..n], entries[n - 1].at - window, e.at - window);
    }
    RecentJoins(Added(entries[..n], window), [e], e.at - window);
    RecentJoins(entries[..n], [e], e.at - window);
    assert entries[..n] + [e] == entries;
  }

  // Between neighbouring entries no more is lost than is counted in all.
  predicate LossWithinTotal(history: seq<Entry>, num: nat, den: nat)
    requires forall e :: e in history ==> num < |e.values| && den < |e.values|
  {
    forall i :: 0 < i < |history| ==>
      0 <= history[i].values[num] - history[i - 1].values[num] <= history[i].values[den] - history[i - 1].values[den]
  }

  lemma {:induction false} LossAddsUp(history: seq<Entry>, num: nat, den: nat)
    requires history != [] && forall e :: e in history ==> num < |e.values| && den < |e.values|
    requires LossWithinTotal(history, num, den)
    ensures var first, last := history[0].values, history[|history| - 1].values;
      0 <= last[num] - first[num] <= last[den] - first[den]
  {
    if |history| > 1 {
      LossAddsUp(history[..|history| - 1], num, den);
    }
  }

  // For counters that were not reset inside the window the ratio is a share, and it is
  // the loss over the whole window divided by its whole traffic.
  lemma RatioIsAShare(history: seq<Entry>, num: nat, den: nat)
    requires |history| >= 2 && forall e :: e in history ==> num < |e.values| && den < |e.values|
    requires LossWithinTotal(history, num, den)
    ensures 0.0 <= Ratio(history, num, den) <= 1.0
    ensures var first, last := history[0].values, history[|history| - 1].values;
      Ratio(history, num, den) * (last[den] - first[den]) as real == (last[num] - first[num]) as real
  {
    LossAddsUp(history, num, den);
  }

  // A counter that was reset inside the window, or no traffic in it, reads as no loss; so
  // does a window of fewer than two entries.
  lemma ResetReadsAsNoLoss(history: seq<Entry>, num: nat, den: nat)
    requires forall e :: e in history ==> num < |e.values| && den < |e.values|
    requires |history| < 2 || history[|history| - 1].values[den] <= history[0].values[den]
             || history[|history| - 1].values[num] < history[0].values[num]
    ensures Ratio(history, num, den) == 0.0
  {
  }

  // Of entries in order the recent ones are those from some place on: all from the cutoff
  // on, and none before it.
  lemma {:induction false} RecentIsASuffix(entries: seq<Entry>, cutoff: int) returns (i: nat)
    requires InOrder(entries)
    ensures i <= |entries| && Recent(entries, cutoff) == entries[i..]
    ensures forall k :: 0 <= k < i ==> entries[k].at < cutoff
    ensures forall k :: i <= k < |entries| ==> entries[k].at >= cutoff
  {
    hide InOrder;
    i := 0;
    if entries != [] {
      var n := |entries| - 1;
      var before, e := entries[..n], entries[n];
      OrderedBefore(entries);
      i := RecentIsASuffix(before, cutoff);
      if e.at < cutoff {
        assert i == n;
        i := n + 1;
      } else {
        assert entries[i..] == before[i..] + [e];
      }
    }
  }

  lemma OrderedBefore(entries: seq<Entry>)
    requires entries != [] && InOrder(entries)
    ensures var before := entries[..|entries| - 1];
      InOrder(before) && forall k :: 0 <= k < |before| ==> before[k].at <= entries[|entries| - 1].at
  {
  }
}
