/** The change-driven stamp of the monitored sections: a client compares stamps to know
    whether the list changed. */
module SectionStamp {
  import opened Text

  // The settings file: the last list seen and its stamp, 0 when there is none.
  datatype Stored = Stored(snapshot: Option<seq<string>>, stamp: int)

  // A read of the stamp: the list in force, the clock, and whether the file can be written.
  datatype Read = Read(sections: seq<string>, now: int, writable: bool)

  predicate Changed(s: Stored, r: Read) {
    s.snapshot != Some(r.sections) || s.stamp <= 0
  }

  function Step(s: Stored, r: Read): Stored {
    if Changed(s, r) && r.writable
    then Stored(Some(r.sections), if r.now > s.stamp + 1 then r.now else s.stamp + 1) else s
  }

  class MonitorSettings {
    var snapshot: Option<seq<string>>
    var stamp: int

    ghost function Now(): Stored
      reads this
    {
      Stored(snapshot, stamp)
    }

    constructor (snapshot: Option<seq<string>>, stamp: int)
      ensures Now() == Stored(snapshot, stamp)
    {
      this.snapshot, this.stamp := snapshot, stamp;
    }

    method SectionsUpdatedAt(sections: seq<string>, now: int, writable: bool) returns (updatedAt: int)
      modifies this
      ensures Now() == Step(old(Now()), Read(sections, now, writable))
      ensures updatedAt == stamp
    {
      if snapshot == Some(sections) && stamp > 0 {
        return stamp;
      }
      var next := if stamp + 1 >= now then stamp + 1 else now;
      if !writable {
        return stamp;
      }
      snapshot, stamp := Some(sections), next;
      return next;
    }
  }

  function After(s: Stored, rs: seq<Read>): Stored {
    if rs == [] then s else Step(After(s, rs[..|rs| - 1]), rs[|rs| - 1])
  }

  // What read i answers.
  function Answer(s: Stored, rs: seq<Read>, i: nat): int
    requires i < |rs|
  {
    After(s, rs[..i + 1]).stamp
  }

  lemma {:induction false} AnswersRise(s: Stored, rs: seq<Read>, i: nat, j: nat)
    requires i <= j < |rs|
    ensures Answer(s, rs, i) <= Answer(s, rs, j)
    decreases j
  {
    if i < j {
      AnswersRise(s, rs, i, j - 1);
      assert rs[..j + 1][..j] == rs[..j];
    }
  }

  lemma StoresWhatWasRead(s: Stored, rs: seq<Read>, i: nat)
    requires i < |rs| && s.stamp >= 0 && forall k :: 0 <= k < |rs| ==> rs[k].writable
    ensures After(s, rs[..i + 1]).snapshot == Some(rs[i].sections) && After(s, rs[..i + 1]).stamp > 0
  {
    StampStaysValid(s, rs, i);
    assert rs[..i + 1][..i] == rs[..i];
  }

  lemma {:induction false} StampStaysValid(s: Stored, rs: seq<Read>, i: nat)
    requires i <= |rs| && s.stamp >= 0
    ensures After(s, rs[..i]).stamp >= 0
    decreases i
  {
    if i > 0 {
      StampStaysValid(s, rs, i - 1);
      assert rs[..i][..i - 1] == rs[..i - 1];
    }
  }

  // Two answers are equal exactly when the list was the same at every read from the one to
  // the other, whatever the clock did.
  lemma {:induction false} StampTellsChange(s: Stored, rs: seq<Read>, i: nat, j: nat)
    requires i <= j < |rs| && s.stamp >= 0 && forall k :: 0 <= k < |rs| ==> rs[k].writable
    ensures Answer(s, rs, i) == Answer(s, rs, j) <==> forall k :: i <= k <= j ==> rs[k].sections == rs[i].sections
    decreases j
  {
    if i < j {
      StampTellsChange(s, rs, i, j - 1);
      AnswersRise(s, rs, i, j - 1);
      StoresWhatWasRead(s, rs, j - 1);
      assert rs[..j + 1][..j] == rs[..j];
    }
  }

  // A changed list is stamped with the clock, or one above the last stamp when the clock is
  // not past it.
  lemma ChangeIsStampedNow(s: Stored, r: Read)
    requires r.writable && s.stamp >= 0
    ensures s.snapshot != Some(r.sections) ==>
      Step(s, r).stamp > s.stamp && Step(s, r).stamp >= r.now
      && (Step(s, r).stamp == r.now || Step(s, r).stamp == s.stamp + 1)
    ensures s.snapshot == Some(r.sections) && s.stamp > 0 ==> Step(s, r) == s
  {
  }
}
