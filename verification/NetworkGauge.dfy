/** The network gauge and the per-interface cards: two views of one snapshot of scores. */
module NetworkGauge {
  import opened Levels
  import opened RealMath
  import opened Text

  datatype Thresholds = Thresholds(medium: real, high: real, critical: real)

  const CAP: real := 0.000001

  // exhausted: the receive path lost packets for want of capacity.
  datatype Interface = Interface(name: string, rx: real, tx: real, exhausted: bool)

  predicate InRange(i: Interface) {
    Unit(i.rx) && Unit(i.tx)
  }

  function LevelOf(score: real, eligible: bool, t: Thresholds): Level {
    if eligible && score >= t.critical then Critical
    else if score >= t.high then High
    else if score >= t.medium then Medium
    else Low
  }

  // --------------------------------------------------------------- cards

  function RxCard(i: Interface, t: Thresholds): Level {
    LevelOf(i.rx, i.exhausted, t)
  }

  function TxCard(i: Interface, t: Thresholds): Level {
    LevelOf(i.tx, true, t)
  }

  // The highest level any card shows.
  predicate IsWorstCard(r: int, nics: seq<Interface>, t: Thresholds) {
    && (forall i :: 0 <= i < |nics| ==> Rank(RxCard(nics[i], t)) <= r && Rank(TxCard(nics[i], t)) <= r)
    && (exists i :: 0 <= i < |nics| && (Rank(RxCard(nics[i], t)) == r || Rank(TxCard(nics[i], t)) == r))
  }

  // --------------------------------------------------------------- gauge

  function Capped(i: Interface, t: Thresholds): real {
    if i.exhausted then i.rx else Min(i.rx, Max(0.0, t.critical - CAP))
  }

  function Score(i: Interface, t: Thresholds): real {
    Max(Capped(i, t), i.tx)
  }

  function Worst(nics: seq<Interface>, t: Thresholds): real
    requires nics != []
  {
    if |nics| == 1 then Score(nics[0], t) else Max(Worst(nics[..|nics| - 1], t), Score(nics[|nics| - 1], t))
  }

  // The names of the interfaces at or above the medium band.
  function Busy(nics: seq<Interface>, t: Thresholds): seq<string> {
    if nics == [] then []
    else
      var last := nics[|nics| - 1];
      Busy(nics[..|nics| - 1], t) + if Score(last, t) >= t.medium then [last.name] else []
  }

  // Without interfaces there is no level.
  method Gauge(nics: seq<Interface>, t: Thresholds) returns (level: Option<Level>, busy: seq<string>)
    ensures level == if nics == [] then None else Some(LevelOf(Worst(nics, t), true, t))
    ensures busy == Busy(nics, t)
  {
    if nics == [] {
      return None, [];
    }
    var worst := Score(nics[0], t);
    busy := if worst >= t.medium then [nics[0].name] else [];
    assert nics[..1][..0] == [];
    for i := 1 to |nics|
      invariant worst == Worst(nics[..i], t) && busy == Busy(nics[..i], t)
    {
      assert nics[..i + 1][..i] == nics[..i];
      var score := Score(nics[i], t);
      if score > worst {
        worst := score;
      }
      if score >= t.medium {
        busy := busy + [nics[i].name];
      }
    }
    assert nics[..|nics|] == nics;
    level := Some(LevelOf(worst, true, t));
  }

  // --------------------------------------------------------------- the two agree

  lemma OneInterface(i: Interface, t: Thresholds)
    requires 0.0 < t.critical && t.high <= Max(0.0, t.critical - CAP)
    ensures var r := Rank(LevelOf(Score(i, t), true, t));
      && Rank(RxCard(i, t)) <= r && Rank(TxCard(i, t)) <= r
      && (Rank(RxCard(i, t)) == r || Rank(TxCard(i, t)) == r)
  {
  }

  lemma {:induction false} GaugeIsWorstCard(nics: seq<Interface>, t: Thresholds)
    requires nics != [] && 0.0 < t.critical && t.high <= Max(0.0, t.critical - CAP)
    ensures IsWorstCard(Rank(LevelOf(Worst(nics, t), true, t)), nics, t)
  {
    hide Score, RxCard, TxCard;
    var n := |nics| - 1;
    OneInterface(nics[n], t);
    if n > 0 {
      GaugeIsWorstCard(nics[..n], t);
      var r := Rank(LevelOf(Worst(nics[..n], t), true, t));
      var i :| 0 <= i < n && (Rank(RxCard(nics[..n][i], t)) == r || Rank(TxCard(nics[..n][i], t)) == r);
      assert forall k :: 0 <= k < n ==> nics[..n][k] == nics[k];
      assert nics[..n][i] == nics[i];
    }
  }

  // The gauge shows the worst card's level on every snapshot exactly when the high band
  // starts no higher than the cap that an unexhausted receive score is held to.
  lemma GaugeAgreesExactlyBelowTheCap(t: Thresholds)
    requires 0.0 < t.critical && t.high <= 1.0
    ensures t.high <= Max(0.0, t.critical - CAP)
      <==> forall nics: seq<Interface> :: nics != [] && (forall i :: 0 <= i < |nics| ==> InRange(nics[i])) ==>
             IsWorstCard(Rank(LevelOf(Worst(nics, t), true, t)), nics, t)
  {
    if t.high <= Max(0.0, t.critical - CAP) {
      forall nics: seq<Interface> | nics != [] && (forall i :: 0 <= i < |nics| ==> InRange(nics[i]))
        ensures IsWorstCard(Rank(LevelOf(Worst(nics, t), true, t)), nics, t)
      {
        GaugeIsWorstCard(nics, t);
      }
    } else {
      var nics := [Interface("eth0", 1.0, 0.0, false)];
      assert Rank(RxCard(nics[0], t)) == 2;
      assert Worst(nics, t) == Max(0.0, t.critical - CAP) < t.high;
      assert InRange(nics[0]) && !IsWorstCard(Rank(LevelOf(Worst(nics, t), true, t)), nics, t);
    }
  }

  lemma BusyInterface(i: Interface, t: Thresholds)
    requires 0.0 < t.critical && t.medium <= t.high <= t.critical && t.medium <= Max(0.0, t.critical - CAP)
    ensures Score(i, t) >= t.medium <==> RxCard(i, t) != Low || TxCard(i, t) != Low
  {
  }

  // The gauge names exactly the interfaces of which a card shows more than low.
  lemma {:induction false} GaugeNamesBusyCards(nics: seq<Interface>, t: Thresholds, name: string)
    requires 0.0 < t.critical && t.medium <= t.high <= t.critical && t.medium <= Max(0.0, t.critical - CAP)
    ensures name in Busy(nics, t)
      <==> exists i :: 0 <= i < |nics| && nics[i].name == name && (RxCard(nics[i], t) != Low || TxCard(nics[i], t) != Low)
  {
    hide Score, RxCard, TxCard;
    if nics != [] {
      var n := |nics| - 1;
      GaugeNamesBusyCards(nics[..n], t, name);
      BusyInterface(nics[n], t);
      assert forall i :: 0 <= i < n ==> nics[..n][i] == nics[i];
    }
  }
}
