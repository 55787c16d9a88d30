/** When a section is left without an item: a bare header is null in the file and the empty
    list in memory, where the editor's own `[]` is the empty list in both. */
module EmptySection {
  import opened Text
  import opened YamlFlow
  import opened YamlSection
  import opened SectionReadBack
  import opened SectionEdits
  import opened SectionRemoval
  import opened ConfigFile

  // The section is there, and neither its header nor its block says anything.
  predicate IsNull(lines: Lines, section: string) {
    match ViewOf(lines, section)
    case Absent => false
    case Present(header, body, _) => InlineValue(header) == "" && forall l :: l in body ==> Ignored(l)
  }

  predicate BareHeader(lines: Lines, section: string) {
    var h := HeaderIndex(lines, section);
    h < |lines| && InlineValue(lines[h]) == ""
  }

  // A section in sync is null exactly when its list is empty and its header is bare.
  lemma NullExactly(st: State, s: string)
    requires SectionName(s) && InSync(st, s)
    ensures IsNull(st.lines, s) <==> Existing(st.attrs, s) == [] && BareHeader(st.lines, s)
  {
    hide BlockEnd, ReadBody, InlineValue, HasHeader, Stays, TidyBody, HeaderIndex, Ignored, Cut, Existing;
    var h := HeaderIndex(st.lines, s);
    if h < |st.lines| {
      CutAt(st.lines, s);
      SyncedCut(st, s);
      var body := st.lines[h + 1..BlockEnd(st.lines, h)];
      BodyStays(s, st.lines[..h], st.lines[h], body, st.lines[BlockEnd(st.lines, h)..]);
      if InlineValue(st.lines[h]) == "" {
        DetectedColumn(body);
        AllIgnored(body);
      }
    }
  }

  lemma BodyStays(s: string, before: Lines, header: string, body: Lines, after: Lines)
    requires Cut(s, before, header, body, after)
    ensures forall l :: l in body ==> Stays(l)
  {
  }

  lemma AllIgnored(body: Lines)
    ensures FirstContent(body) == |body| <==> forall l :: l in body ==> Ignored(l)
    ensures FirstContent(body) == |body| && ReadBody(body).Some? ==> ReadBody(body) == Some([])
  {
    hide Ignored, ReadLine;
    var i := FirstContent(body);
    assert body[..|body|] == body;
    if i == |body| {
      ReadIgnored(ItemColumn(body), Some([]), body);
    } else {
      assert body[i] in body;
    }
  }

  // A fitting call leaves its section null exactly when it is a removal from a block that
  // leaves memory without an item. An append never does, and a set writes `[]`.
  lemma StepLeavesNullExactly(st: State, edit: Edit)
    requires SectionName(edit.section) && InSync(st, edit.section) && Callable(st, edit)
    requires Writable(edit) && Fits(st, edit)
    ensures IsNull(Step(st, edit).lines, edit.section)
      <==> edit.Remove? && BareHeader(st.lines, edit.section) && Existing(Step(st, edit).attrs, edit.section) == []
  {
    hide InSync, Fits, Step, IsNull, BareHeader, Writable, HeaderIndex;
    var s := edit.section;
    StepSync(st, edit);
    NullExactly(Step(st, edit), s);
    HeaderAfter(st, edit);
  }

  // What becomes of the header.
  lemma HeaderAfter(st: State, edit: Edit)
    requires SectionName(edit.section) && Callable(st, edit)
    ensures var s, next := edit.section, Step(st, edit);
      match edit
      case Append(_, _) => Existing(next.attrs, s) == [] ==> !BareHeader(next.lines, s)
      case Set(_, entries) => Existing(next.attrs, s) == [] ==> !BareHeader(next.lines, s)
      case Remove(_, _) => BareHeader(next.lines, s) <==> BareHeader(st.lines, s)
  {
    hide BlockEnd, InlineValue, HasHeader, Stays, HeaderIndex, Cut, NewHeader, HeaderComment, SectionName, Padding, RenderItems;
    var s := edit.section;
    var h := HeaderIndex(st.lines, s);
    if h < |st.lines| {
      var header', body' := EditIsLocal(st, edit);
      var after := st.lines[BlockEnd(st.lines, h)..];
      JoinedIsFound(s, st.lines[..h], header', body', after);
      assert Joined(st.lines[..h], header', body', after)[h] == header';
      HeaderCommentForm(st.lines[h]);
      NewHeaderReads(s, HeaderComment(st.lines[h]), edit.Set? && edit.entries == []);
    } else if edit.Set? && !AlreadySet(st, s, edit.entries) {
      var before, header := st.lines + Padding(st.lines), NewHeader(s, "", edit.entries == []);
      AddedAtEnd(st.lines, s, edit.entries);
      JoinedIsFound(s, before, header, RenderItems(edit.entries, 2, 4), []);
      assert Joined(before, header, RenderItems(edit.entries, 2, 4), [])[|before|] == header;
      NewHeaderReads(s, "", edit.entries == []);
    }
  }
}
