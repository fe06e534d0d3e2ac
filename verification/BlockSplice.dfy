/** Which field contents make a rendered text something other than one block. */
module BlockSplice {
  import opened Common
  import opened Text
  import opened ManagedBlock
  import opened ClaudeMdFile
  import opened BlockRendering
  import opened BlockReading

  // ---------------------------------------------------------------- what a field may carry

  // The repo's entry carries m, in its name or its one-lined headline.
  predicate RepoCarries(r: RepoEntry, m: string) { Contains(r.name, m) || Contains(RepoHeadline(r), m) }

  // The section carries m: in its name, its one-lined description or one of its repos.
  predicate SectionCarries(blk: ProjectBlock, m: string) {
    || Contains(blk.name, m)
    || (blk.description.Some? && Contains(OneLine(blk.description.value), m))
    || exists i :: 0 <= i < |blk.repos| && RepoCarries(blk.repos[i], m)
  }

  predicate FieldCarries(blocks: seq<ProjectBlock>, m: string) {
    exists k :: 0 <= k < |blocks| && SectionCarries(blocks[k], m)
  }

  // ---------------------------------------------------------------- texts that cannot straddle the rendering's own characters

  /** A text such as a marker or an import reference: it begins with '<' or '@', which the
      rendering never writes itself, and holds no newline and no '*', which it writes around fields. */
  predicate Needle(m: string) { m != "" && (m[0] == '<' || m[0] == '@') && '\n' !in m && '*' !in m }

  // A text without '<' and '@'.
  predicate Quiet(s: string) { '<' !in s && '@' !in s }

  lemma EndTailIsNoStar()
    ensures '*' !in END_TAIL
  {
  }

  lemma EndIsANeedle()
    ensures Needle(END)
  {
    MarkersAre();
    EndTailIsNoStar();
  }

  lemma OldRefIsANeedle()
    ensures Needle(OLD_REF)
  {
    RefsAre();
  }

  lemma QuietHoldsNone(s: string, m: string)
    requires Quiet(s) && Needle(m)
    ensures !Contains(s, m)
  {
    forall i | 0 <= i <= |s| ensures !OccursAt(s, m, i) {
      if OccursAt(s, m, i) { OccursFirst(s, m, i); }
    }
  }

  lemma OccurrenceSides(a: string, b: string, m: string)
    requires forall i :: OccursAt(a + b, m, i) <==> OccursAt(a, m, i) || OccursAt(b, m, i - |a|)
    ensures Contains(a + b, m) <==> Contains(a, m) || Contains(b, m)
  {
    if Contains(a + b, m) { assert OccursAt(a + b, m, Index(a + b, m)); }
    if Contains(a, m) { assert OccursAt(a + b, m, Index(a, m)); }
    if Contains(b, m) { assert OccursAt(a + b, m, |a| + Index(b, m)); }
  }

  // Text the rendering writes in front of a field adds nothing.
  lemma QuietInFront(a: string, b: string, m: string)
    requires Quiet(a) && Needle(m)
    ensures Contains(a + b, m) <==> Contains(b, m)
  {
    forall i ensures OccursAt(a + b, m, i) <==> OccursAt(a, m, i) || OccursAt(b, m, i - |a|) {
      EachSide(a, b, m, i);
      if OccursAt(a + b, m, i) { OccursFirst(a + b, m, i); }
    }
    OccurrenceSides(a, b, m);
    QuietHoldsNone(a, m);
  }

  // A field and what follows it are apart where a newline or a '*' stands between them.
  lemma ApartOnTheRight(a: string, b: string, m: string)
    requires Needle(m) && b != "" && (b[0] == '\n' || b[0] == '*')
    ensures Contains(a + b, m) <==> Contains(a, m) || Contains(b, m)
  {
    forall i ensures OccursAt(a + b, m, i) <==> OccursAt(a, m, i) || OccursAt(b, m, i - |a|) { NoStraddleRight(a, b, m, i); }
    OccurrenceSides(a, b, m);
  }

  lemma ApartOnTheLeft(a: string, b: string, m: string)
    requires Needle(m) && (a == "" || a[|a| - 1] == '\n')
    ensures Contains(a + b, m) <==> Contains(a, m) || Contains(b, m)
  {
    forall i ensures OccursAt(a + b, m, i) <==> OccursAt(a, m, i) || OccursAt(b, m, i - |a|) { NoStraddleLeft(a, b, m, i); }
    OccurrenceSides(a, b, m);
  }

  // ---------------------------------------------------------------- the rendering's own texts

  lemma QuietConcat(a: string, b: string)
    requires Quiet(a) && Quiet(b)
    ensures Quiet(a + b)
  {
  }

  lemma QuietPending()
    ensures Quiet(PENDING)
  {
  }

  lemma QuietProjectTail()
    ensures Quiet("ask project owner ") && Quiet("to run polyforge init)*")
  {
  }

  lemma QuietPendingProject()
    ensures Quiet(PENDING_PROJECT)
  {
    hide Quiet;
    QuietPending();
    QuietProjectTail();
    QuietConcat("ask project owner ", "to run polyforge init)*");
    QuietConcat(PENDING, "ask project owner " + "to run polyforge init)*");
  }

  lemma QuietDetailFront()
    ensures Quiet("> Repo detail (stack / ")
  {
  }

  lemma QuietDetailBack()
    ensures Quiet("modules / changes): `") && Quiet(".polyforge/repo-map/")
  {
  }

  lemma QuietDetailLead()
    ensures Quiet(DETAIL_LEAD)
  {
    hide Quiet;
    QuietDetailFront();
    QuietDetailBack();
    QuietConcat("modules / changes): `", ".polyforge/repo-map/");
    QuietConcat("> Repo detail (stack / ", "modules / changes): `" + ".polyforge/repo-map/");
  }

  lemma QuietMapLine(project: string)
    ensures Quiet(MapLine(RepoMapFileName(project)))
  {
    QuietDetailLead();
    FileNameIsSafe(project);
    var file := RepoMapFileName(project);
    assert Quiet(file) by { assert forall i :: 0 <= i < |file| ==> IsFileChar(file[i]); }
  }

  lemma QuietHeadings()
    ensures Quiet(HEADING) && Quiet("## Workspace") && Quiet("\n") && Quiet("- **") && Quiet("**: ")
  {
  }

  lemma EmptyOneLine()
    ensures OneLine("") == ""
  {
  }

  // ---------------------------------------------------------------- one line at a time

  predicate SomeLine(lines: seq<string>, m: string) { exists k :: 0 <= k < |lines| && Contains(lines[k], m) }

  lemma SomeLineConcat(a: seq<string>, b: seq<string>, m: string)
    ensures SomeLine(a + b, m) <==> SomeLine(a, m) || SomeLine(b, m)
  {
    hide Contains;
    if SomeLine(a, m) {
      var k :| 0 <= k < |a| && Contains(a[k], m);
      assert Contains((a + b)[k], m);
    }
    if SomeLine(b, m) {
      var k :| 0 <= k < |b| && Contains(b[k], m);
      assert Contains((a + b)[|a| + k], m);
    }
  }

  lemma SomeLineOne(line: string, m: string)
    ensures SomeLine([line], m) <==> Contains(line, m)
  {
    assert [line][0] == line;
  }

  lemma {:induction false} TextEndsALine(lines: seq<string>, n: nat)
    requires n <= |lines|
    ensures Unlines(lines, n) == "" || Unlines(lines, n)[|Unlines(lines, n)| - 1] == '\n'
  {
  }

  // A text of lines holds what one of its lines holds.
  lemma {:induction false} LinesHold(lines: seq<string>, n: nat, m: string)
    requires n <= |lines| && Needle(m)
    ensures Contains(Unlines(lines, n), m) <==> SomeLine(lines[..n], m)
  {
    hide Contains, Needle, SomeLine;
    if n == 0 {
      EmptyHolds(m);
    } else {
      LinesHold(lines, n - 1, m);
      TextEndsALine(lines, n - 1);
      ApartOnTheLeft(Unlines(lines, n - 1), lines[n - 1] + "\n", m);
      ApartOnTheRight(lines[n - 1], "\n", m);
      QuietHeadings();
      QuietHoldsNone("\n", m);
      assert lines[..n] == lines[..n - 1] + [lines[n - 1]];
      SomeLineConcat(lines[..n - 1], [lines[n - 1]], m);
      SomeLineOne(lines[n - 1], m);
    }
  }

  lemma EmptyHolds(m: string)
    requires Needle(m)
    ensures !Contains("", m) && !SomeLine([], m)
  {
  }

  lemma RepoLineHolds(r: RepoEntry, m: string)
    requires Needle(m)
    ensures Contains(RepoLine(r), m) <==> RepoCarries(r, m)
  {
    hide Contains, Needle, Quiet, RepoHeadline;
    QuietHeadings();
    var back := "**: " + RepoHeadline(r);
    RepoLineParts(r);
    QuietInFront("- **", r.name + back, m);
    ApartOnTheRight(r.name, back, m);
    QuietInFront("**: ", RepoHeadline(r), m);
  }

  lemma RepoLineParts(r: RepoEntry)
    ensures RepoLine(r) == "- **" + (r.name + ("**: " + RepoHeadline(r))) && ("**: " + RepoHeadline(r))[0] == '*'
  {
    hide RepoHeadline;
  }

  lemma {:induction false} RepoLinesHold(repos: seq<RepoEntry>, n: nat, m: string)
    requires n <= |repos| && Needle(m)
    ensures SomeLine(RepoLines(repos, n), m) <==> exists i :: 0 <= i < n && RepoCarries(repos[i], m)
  {
    hide RepoLine, RepoCarries, Contains, Needle, SomeLine;
    if n == 0 {
      EmptyHolds(m);
    } else {
      RepoLinesHold(repos, n - 1, m);
      SomeLineConcat(RepoLines(repos, n - 1), [RepoLine(repos[n - 1])], m);
      SomeLineOne(RepoLine(repos[n - 1]), m);
      RepoLineHolds(repos[n - 1], m);
    }
  }

  lemma DescriptionHolds(blk: ProjectBlock, m: string)
    requires Needle(m)
    ensures Contains(DescriptionLine(blk), m) <==> blk.description.Some? && Contains(OneLine(blk.description.value), m)
  {
    QuietPendingProject();
    QuietHoldsNone(PENDING_PROJECT, m);
    EmptyOneLine();
    EmptyHolds(m);
  }

  // The heading, the description and the line naming the detail file, between two blank lines.
  lemma HeadLinesHold(blk: ProjectBlock, m: string)
    requires Needle(m)
    ensures SomeLine(HeadLines(blk), m) <==> Contains(blk.name, m) || (blk.description.Some? && Contains(OneLine(blk.description.value), m))
  {
    hide Contains, Needle, Quiet, DescriptionLine, MapLine, RepoMapFileName, OneLine, SomeLine;
    var front := [HEADING + blk.name, DescriptionLine(blk)];
    var mapLine := if RepoMapFileName(blk.name) == "" then [] else [MapLine(RepoMapFileName(blk.name))];
    QuietHeadings();
    QuietInFront(HEADING, blk.name, m);
    DescriptionHolds(blk, m);
    QuietMapLine(blk.name);
    QuietHoldsNone(MapLine(RepoMapFileName(blk.name)), m);
    EmptyHolds(m);
    SomeLineOne("", m);
    SomeLineOne(HEADING + blk.name, m);
    SomeLineOne(DescriptionLine(blk), m);
    SomeLineOne(MapLine(RepoMapFileName(blk.name)), m);
    SomeLineConcat([HEADING + blk.name], [DescriptionLine(blk)], m);
    SomeLineConcat([""], front, m);
    SomeLineConcat([""] + front, mapLine, m);
    SomeLineConcat([""] + front + mapLine, [""], m);
    HeadParts(blk);
  }

  lemma HeadParts(blk: ProjectBlock)
    ensures var front := [HEADING + blk.name, DescriptionLine(blk)];
            var mapLine := if RepoMapFileName(blk.name) == "" then [] else [MapLine(RepoMapFileName(blk.name))];
            HeadLines(blk) == [""] + front + mapLine + [""] && front == [HEADING + blk.name] + [DescriptionLine(blk)]
  {
    hide DescriptionLine, MapLine, RepoMapFileName;
    assert ["", HEADING + blk.name, DescriptionLine(blk)] == [""] + [HEADING + blk.name, DescriptionLine(blk)];
  }

  lemma SectionHolds(blk: ProjectBlock, m: string)
    requires Needle(m)
    ensures SomeLine(ProjectLines(blk), m) <==> SectionCarries(blk, m)
  {
    hide Contains, Needle, SomeLine, HeadLines, RepoLines, OneLine, RepoCarries;
    HeadLinesHold(blk, m);
    RepoLinesHold(blk.repos, |blk.repos|, m);
    SomeLineConcat(HeadLines(blk), RepoLines(blk.repos, |blk.repos|), m);
  }

  lemma {:induction false} SectionsHold(blocks: seq<ProjectBlock>, n: nat, m: string)
    requires n <= |blocks| && Needle(m)
    ensures SomeLine(ProjectsLines(blocks, n), m) <==> exists k :: 0 <= k < n && SectionCarries(blocks[k], m)
  {
    hide Contains, Needle, SomeLine, ProjectLines, SectionCarries;
    if n == 0 {
      EmptyHolds(m);
    } else {
      SectionsHold(blocks, n - 1, m);
      SomeLineConcat(ProjectsLines(blocks, n - 1), ProjectLines(blocks[n - 1]), m);
      SectionHolds(blocks[n - 1], m);
    }
  }

  // ---------------------------------------------------------------- the whole block

  function Rendered(blocks: seq<ProjectBlock>): string { AllLines(BlockLines(blocks)) }

  // What stands between the two markers.
  function Body(blocks: seq<ProjectBlock>): string { "\n" + AllLines(["## Workspace"] + ProjectsLines(blocks, |blocks|)) }

  lemma {:induction false} UnlinesConcat(a: seq<string>, b: seq<string>, n: nat)
    requires n <= |b|
    ensures Unlines(a + b, |a| + n) == AllLines(a) + Unlines(b, n)
  {
    if n == 0 {
      UnlinesPrefix(a, b, |a|);
    } else {
      UnlinesConcat(a, b, n - 1);
      assert (a + b)[|a| + n - 1] == b[n - 1];
      Regroup(AllLines(a), Unlines(b, n - 1), b[n - 1] + "\n");
    }
  }

  lemma FramedText(first: string, middle: seq<string>, last: string)
    ensures AllLines([first] + middle + [last]) == first + ("\n" + AllLines(middle)) + last + "\n"
  {
    UnlinesConcat([first] + middle, [last], 1);
    UnlinesConcat([first], middle, |middle|);
    assert AllLines([first]) == first + "\n" by { assert Unlines([first], 0) == ""; }
    assert Unlines([last], 1) == last + "\n" by { assert Unlines([last], 0) == ""; }
    Regroup(first, "\n", AllLines(middle));
    Regroup(first + "\n" + AllLines(middle), last, "\n");
  }

  lemma RenderedParts(blocks: seq<ProjectBlock>)
    ensures Rendered(blocks) == START + Body(blocks) + END + "\n"
    ensures Body(blocks) != "" && Body(blocks)[0] == '\n' && Body(blocks)[|Body(blocks)| - 1] == '\n'
  {
    var middle := ["## Workspace"] + ProjectsLines(blocks, |blocks|);
    assert BlockLines(blocks) == [START] + middle + [END];
    FramedText(START, middle, END);
    TextEndsALine(middle, |middle|);
  }

  lemma BodyHolds(blocks: seq<ProjectBlock>, m: string)
    requires Needle(m)
    ensures Contains(Body(blocks), m) <==> FieldCarries(blocks, m)
  {
    hide Contains, Needle, Quiet, SomeLine, SectionCarries, ProjectsLines;
    var middle := ["## Workspace"] + ProjectsLines(blocks, |blocks|);
    QuietHeadings();
    QuietInFront("\n", AllLines(middle), m);
    assert middle[..|middle|] == middle;
    LinesHold(middle, |middle|, m);
    SomeLineConcat(["## Workspace"], ProjectsLines(blocks, |blocks|), m);
    SomeLineOne("## Workspace", m);
    QuietHoldsNone("## Workspace", m);
    SectionsHold(blocks, |blocks|, m);
  }

  lemma MarkersDiffer()
    ensures START[5] == 'p' && END[5] == '/' && |START| > 5 && |END| > 5
  {
  }

  lemma DiffersHere(s: string, m: string, i: nat)
    requires i + 5 < |s| && |m| > 5 && s[i + 5] != m[5]
    ensures !OccursAt(s, m, i)
  {
    assert i + |m| <= |s| ==> s[i..i + |m|][5] == s[i + 5];
  }

  lemma NoEndInStart(i: int)
    ensures !OccursAt(START, END, i)
  {
    MarkersAre();
    MarkersDiffer();
    DiffersHere(START, END, 0);
    if OccursAt(START, END, i) { OccursFirst(START, END, i); }
  }

  // Where the end marker occurs in a framed text: in its body, and behind it.
  lemma EndsIn(body: string, i: int)
    requires body != "" && body[0] == '\n'
    ensures OccursAt(START + body + END + "\n", END, i) <==> OccursAt(body, END, i - |START|) || i == |START + body|
  {
    MarkersAre();
    var m := END;
    hide IsMarker;
    Regroup(START + body, END, "\n");
    OnlyAtFront(i - |START + body|);
    NoStraddle(START + body, END + "\n", m, i);
    NoStraddleRight(START, body, m, i);
    NoEndInStart(i);
  }

  lemma OnlyAtFront(i: int)
    ensures OccursAt(END + "\n", END, i) <==> i == 0
    ensures (END + "\n")[0] == '<'
  {
    MarkersAre();
    assert (END + "\n")[0..|END|] == END;
    if OccursAt(END + "\n", END, i) && i != 0 { OccursFirst(END + "\n", END, i); }
  }

  lemma FramedBody(body: string)
    ensures Framed(START + body + END + "\n")
  {
    var s := START + body + END + "\n";
    assert s[0..|START|] == START;
  }

  lemma BodyIsABlockIff(body: string)
    requires body != "" && body[0] == '\n'
    ensures IsBlock(START + body + END + "\n") <==> !Contains(body, END)
    ensures Contains(body, END) ==> EndsEarly(START + body + END + "\n")
  {
    hide Framed;
    var s := START + body + END + "\n";
    FramedBody(body);
    forall i ensures OccursAt(s, END, i) <==> OccursAt(body, END, i - |START|) || i == |START + body| { EndsIn(body, i); }
    assert EndIn(s) == |START + body|;
    if Contains(body, END) {
      var k := Index(body, END);
      assert OccursAt(s, END, |START| + k);
    }
  }

  /** A rendered text works as a block exactly when no name, one-lined description or
      one-lined headline holds the end marker; start markers in fields are harmless. */
  lemma RenderedIsABlockIff(blocks: seq<ProjectBlock>)
    ensures IsBlock(Rendered(blocks)) <==> !FieldCarries(blocks, END)
    ensures FieldCarries(blocks, END) ==> EndsEarly(Rendered(blocks))
  {
    hide IsBlock, EndsEarly, Contains, FieldCarries, Body;
    RenderedParts(blocks);
    EndIsANeedle();
    BodyHolds(blocks, END);
    BodyIsABlockIff(Body(blocks));
  }

  lemma NoOldRefInMarkers()
    ensures !Contains(START, OLD_REF) && !Contains(END + "\n", OLD_REF)
  {
    MarkersAre();
    RefsAre();
    NoAtHoldsNone(START, OLD_REF);
    NoAtHoldsNone(END + "\n", OLD_REF);
  }

  lemma NoAtHoldsNone(s: string, m: string)
    requires '@' !in s && m != "" && m[0] == '@'
    ensures !Contains(s, m)
  {
    forall i | 0 <= i <= |s| ensures !OccursAt(s, m, i) {
      if OccursAt(s, m, i) { OccursFirst(s, m, i); }
    }
  }

  /** A rendered block holds an old import reference exactly when a field does. */
  lemma RenderedOldRefIff(blocks: seq<ProjectBlock>)
    ensures Contains(Rendered(blocks), OLD_REF) <==> FieldCarries(blocks, OLD_REF)
  {
    hide Contains, Needle, FieldCarries, Body;
    var body := Body(blocks);
    RenderedParts(blocks);
    OldRefIsANeedle();
    BodyHolds(blocks, OLD_REF);
    NoOldRefInMarkers();
    ApartOnTheRight(START, body, OLD_REF);
    ApartOnTheLeft(START + body, END + "\n", OLD_REF);
    Regroup(START + body, END, "\n");
    EndsALine(START, body);
  }

  lemma EndsALine(a: string, b: string)
    requires b != ""
    ensures (a + b)[|a + b| - 1] == b[|b| - 1]
  {
  }

  // ---------------------------------------------------------------- splicing and reading what was rendered

  /** With an end marker in a field every splice leaves one more of the block's tails behind. */
  lemma EverySpliceGrows(pre: string, blocks: seq<ProjectBlock>, post: string) returns (post': string)
    requires FieldCarries(blocks, END) && !Contains(pre, START) && !Contains(pre, END)
    ensures Upsert(pre + Rendered(blocks) + post, Rendered(blocks)) == pre + Rendered(blocks) + post'
    ensures |post'| > |post|
  {
    hide EndsEarly, FieldCarries, Contains, Rendered, Upsert;
    RenderedIsABlockIff(blocks);
    post' := EarlyEndGrows(pre, Rendered(blocks), post);
  }

  lemma BodyIsNeverLegacy(blocks: seq<ProjectBlock>)
    requires NamesHaveNoBreak(blocks)
    ensures !BlockIsLegacyFormat(BlockBody(blocks))
  {
    hide NamesHaveNoBreak, BlockBody, BlockLines;
    LinesReadBack(blocks);
    RenderedIsNeverLegacy(blocks);
    var body := BlockBody(blocks);
    forall k | 0 <= k < |LEGACY_MARKERS| ensures !Contains(body, LEGACY_MARKERS[k]) {
      PrefixContains(body, body + "\n", LEGACY_MARKERS[k]);
    }
  }
}
