/** What the readers make of a rendered block, whatever its fields contain. */
module BlockReading {
  import opened Common
  import opened Text
  import opened ManagedBlock
  import opened ClaudeMdFile
  import opened BlockRendering

  // ---------------------------------------------------------------- the readers

  const LEGACY_MARKERS := ["\n  - modules:", "\n  - stack:", "\n  - changes:", "\n  - generated:"]

  predicate BlockIsLegacyFormat(block: string) {
    exists k :: 0 <= k < |LEGACY_MARKERS| && Contains(block, LEGACY_MARKERS[k])
  }

  // The project a line names, or "".
  function HeadingName(line: string): string {
    if HasPrefix(line, HEADING) then TrimSpace(line[|HEADING|..]) else ""
  }

  function Headings(lines: seq<string>, n: nat): seq<string>
    requires n <= |lines|
  {
    if n == 0 then []
    else if HeadingName(lines[n - 1]) != "" then Headings(lines, n - 1) + [HeadingName(lines[n - 1])]
    else Headings(lines, n - 1)
  }

  method ManagedBlockProjects(block: string) returns (out: seq<string>)
    ensures out == Headings(Split(block, '\n'), |Split(block, '\n')|)
  {
    var lines := Split(block, '\n');
    out := [];
    for i := 0 to |lines|
      invariant out == Headings(lines, i)
    {
      if HasPrefix(lines[i], HEADING) {
        var name := TrimSpace(lines[i][|HEADING|..]);
        if name != "" { out := out + [name]; }
      }
    }
  }

  // ---------------------------------------------------------------- fields hold no line breaks

  predicate NoBreak(s: string) { '\n' !in s }

  lemma {:induction false} ReplaceOneChar(s: string, c: char)
    ensures c != ' ' ==> c !in ReplaceAll(s, [c], " ")
    ensures forall d :: d != c && d != ' ' && d !in s ==> d !in ReplaceAll(s, [c], " ")
  {
    if s != "" {
      var from := [c];
      if HasPrefix(s, from) {
        ReplaceOneChar(s[1..], c);
        assert ReplaceAll(s, from, " ") == " " + ReplaceAll(s[1..], from, " ");
      } else {
        ReplaceOneChar(s[1..], c);
        assert ReplaceAll(s, from, " ") == [s[0]] + ReplaceAll(s[1..], from, " ");
      }
    }
  }

  /** One line it is: no newline survives, and it does not start with a space. */
  lemma OneLineIs(s: string)
    ensures NoBreak(OneLine(s))
    ensures OneLine(s) != "" ==> !IsSpace(OneLine(s)[0]) && !IsSpace(OneLine(s)[|OneLine(s)| - 1])
  {
    var s1 := ReplaceAll(s, "\r\n", " ");
    ReplaceOneChar(s1, '\n');
    ReplaceOneChar(ReplaceAll(s1, "\n", " "), '\r');
    TrimSpaceIs(ReplaceAll(ReplaceAll(s1, "\n", " "), "\r", " "));
  }

  predicate AllFileChars(s: string) { forall i :: 0 <= i < |s| ==> IsFileChar(s[i]) }

  /** A repo-map file name holds file-name characters only, whatever the project is called,
      ends in ".md", and is neither hidden nor an option nor a traversal. */
  lemma FileNameIsSafe(project: string)
    ensures var name := RepoMapFileName(project);
            && AllFileChars(name)
            && (name != "" ==> |name| > 3 && HasSuffix(name, ".md") && !IsDotOrDash(name[0]) && name != "." && name != "..")
  {
    var mapped, stem := FileChars(project), FileStem(project);
    var left := TrimLeft(mapped, IsDotOrDash);
    TrimLeftIs(mapped, IsDotOrDash);
    TrimRightIs(left, IsDotOrDash);
    assert AllFileChars(left) by {
      forall i | 0 <= i < |left| ensures IsFileChar(left[i]) { assert left[i] == mapped[|mapped| - |left| + i]; }
    }
    assert AllFileChars(stem);
    assert AllFileChars(".md");
    assert AllFileChars(stem + ".md");
    if stem != "" {
      assert stem[0] == left[0];
      assert (stem + ".md")[|stem|..] == ".md";
    }
  }

  predicate NamesHaveNoBreak(blocks: seq<ProjectBlock>) {
    forall k :: 0 <= k < |blocks| ==>
      && NoBreak(blocks[k].name)
      && forall i :: 0 <= i < |blocks[k].repos| ==> NoBreak(blocks[k].repos[i].name)
  }

  // A line no reader mistakes for a detail bullet: unbroken, and not starting with a space.
  predicate Plain(line: string) { NoBreak(line) && (line != "" ==> line[0] != ' ') }

  predicate AllPlain(lines: seq<string>) { forall i :: 0 <= i < |lines| ==> Plain(lines[i]) }

  lemma PlainLiterals()
    ensures Plain(START) && Plain(END) && Plain("## Workspace") && Plain("")
    ensures NoBreak(PENDING_REPO)
  {
    MarkersAre();
    assert NoBreak(PENDING) && NoBreak("run /pf-init ") && NoBreak("to generate)*");
  }

  lemma PlainPending()
    ensures Plain(PENDING_PROJECT) && !HasPrefix(PENDING_PROJECT, HEADING)
  {
    assert NoBreak(PENDING) && NoBreak("ask project owner ") && NoBreak("to run polyforge init)*");
    assert PENDING_PROJECT[0] == '*';
  }

  lemma PlainDetail()
    ensures NoBreak(DETAIL_LEAD) && DETAIL_LEAD[0] == '>'
  {
    assert NoBreak("> Repo detail (stack / ") && NoBreak("modules / changes): `") && NoBreak(".polyforge/repo-map/");
  }

  lemma PlainTexts()
    ensures Plain(PENDING_PROJECT) && !HasPrefix(PENDING_PROJECT, HEADING)
    ensures NoBreak(DETAIL_LEAD) && DETAIL_LEAD[0] == '>'
  {
    hide NoBreak, Plain, HasPrefix;
    PlainPending();
    PlainDetail();
  }

  lemma PlainDescription(blk: ProjectBlock)
    ensures Plain(DescriptionLine(blk))
  {
    PlainTexts();
    if blk.description.Some? { OneLineIs(blk.description.value); }
  }

  lemma PlainRepo(r: RepoEntry)
    requires NoBreak(r.name)
    ensures Plain(RepoLine(r)) && !HasPrefix(RepoLine(r), HEADING)
  {
    PlainLiterals();
    OneLineIs(r.positioning);
    if r.description.Some? { OneLineIs(r.description.value); }
    assert NoBreak(RepoHeadline(r));
    assert RepoLine(r)[0] == '-';
  }

  lemma PlainMapLine(project: string)
    ensures Plain(MapLine(RepoMapFileName(project))) && !HasPrefix(MapLine(RepoMapFileName(project)), HEADING)
  {
    FileNameIsSafe(project);
    var file := RepoMapFileName(project);
    assert NoBreak(file) by { assert forall i :: 0 <= i < |file| ==> IsFileChar(file[i]); }
    PlainTexts();
    assert MapLine(file)[0] == DETAIL_LEAD[0];
  }

  lemma PlainHeading(name: string)
    requires NoBreak(name)
    ensures Plain(HEADING + name)
  {
    assert NoBreak(HEADING);
    assert (HEADING + name)[0] == '#';
  }

  lemma {:induction false} PlainRepos(repos: seq<RepoEntry>, n: nat)
    requires n <= |repos| && forall i :: 0 <= i < |repos| ==> NoBreak(repos[i].name)
    ensures AllPlain(RepoLines(repos, n))
  {
    if n > 0 {
      PlainRepos(repos, n - 1);
      PlainRepo(repos[n - 1]);
    }
  }

  lemma PlainHead(blk: ProjectBlock)
    requires NoBreak(blk.name)
    ensures AllPlain(HeadLines(blk))
  {
    PlainLiterals();
    PlainHeading(blk.name);
    PlainDescription(blk);
    PlainMapLine(blk.name);
  }

  lemma {:induction false} PlainProjects(blocks: seq<ProjectBlock>, n: nat)
    requires n <= |blocks| && NamesHaveNoBreak(blocks)
    ensures AllPlain(ProjectsLines(blocks, n))
  {
    if n > 0 {
      PlainProjects(blocks, n - 1);
      PlainHead(blocks[n - 1]);
      PlainRepos(blocks[n - 1].repos, |blocks[n - 1].repos|);
    }
  }

  lemma PlainBlock(blocks: seq<ProjectBlock>)
    requires NamesHaveNoBreak(blocks)
    ensures AllPlain(BlockLines(blocks))
  {
    PlainLiterals();
    PlainProjects(blocks, |blocks|);
  }

  // ---------------------------------------------------------------- never legacy

  // In the text of plain lines no newline is followed by a space.
  lemma {:induction false} NoIndentedLine(lines: seq<string>, n: nat, i: nat)
    requires n <= |lines| && AllPlain(lines)
    requires i + 1 < |Unlines(lines, n)| && Unlines(lines, n)[i] == '\n'
    ensures Unlines(lines, n)[i + 1] != ' '
  {
    var before, last := Unlines(lines, n - 1), lines[n - 1];
    assert Plain(last);
    if i + 1 < |before| {
      NoIndentedLine(lines, n - 1, i);
    } else if i + 1 > |before| {
      InLast(before, last, i);
      assert false;
    }
  }

  lemma InLast(before: string, last: string, i: nat)
    requires |before| <= i < |before| + |last|
    ensures (before + (last + "\n"))[i] in last
  {
  }

  lemma MarkersIndent(k: nat)
    requires k < |LEGACY_MARKERS|
    ensures |LEGACY_MARKERS[k]| >= 2 && LEGACY_MARKERS[k][0] == '\n' && LEGACY_MARKERS[k][1] == ' '
  {
  }

  /** A block rendered from names without line breaks is never classified as the
      legacy format, whatever the descriptions and positionings contain. */
  lemma RenderedIsNeverLegacy(blocks: seq<ProjectBlock>)
    requires NamesHaveNoBreak(blocks)
    ensures !BlockIsLegacyFormat(AllLines(BlockLines(blocks)))
  {
    var lines := BlockLines(blocks);
    var text := AllLines(lines);
    PlainBlock(blocks);
    forall k | 0 <= k < |LEGACY_MARKERS| ensures !Contains(text, LEGACY_MARKERS[k]) {
      var m := LEGACY_MARKERS[k];
      MarkersIndent(k);
      if Contains(text, m) {
        var i := Index(text, m);
        TwoChars(text, m, i);
        NoIndentedLine(lines, |lines|, i);
        assert false;
      }
    }
  }

  lemma TwoChars(text: string, m: string, i: nat)
    requires OccursAt(text, m, i) && |m| >= 2
    ensures text[i] == m[0] && text[i + 1] == m[1]
  {
    assert text[i..i + |m|][0] == text[i] && text[i..i + |m|][1] == text[i + 1];
  }

  // ---------------------------------------------------------------- the projects read back

  lemma {:induction false} JoinIsUnlines(lines: seq<string>, n: nat)
    requires 1 <= n <= |lines|
    ensures Unlines(lines, n) == Join(lines[..n], '\n') + "\n"
  {
    if n == 1 {
      assert lines[..1] == [lines[0]];
      assert Unlines(lines, 1) == "" + (lines[0] + "\n");
    } else {
      JoinIsUnlines(lines, n - 1);
      assert lines[..n] == lines[..n - 1] + [lines[n - 1]];
      JoinConcat(lines[..n - 1], [lines[n - 1]], '\n');
      assert Join([lines[n - 1]], '\n') == lines[n - 1];
      Regroup(Join(lines[..n - 1], '\n'), "\n", lines[n - 1] + "\n");
    }
  }

  // What doctor hands to the reader: the block without its final newline.
  function BlockBody(blocks: seq<ProjectBlock>): string {
    Join(BlockLines(blocks), '\n')
  }

  /** Reading a rendered block line by line gives back the lines it was built from. */
  lemma LinesReadBack(blocks: seq<ProjectBlock>)
    requires NamesHaveNoBreak(blocks)
    ensures AllLines(BlockLines(blocks)) == BlockBody(blocks) + "\n"
    ensures Split(BlockBody(blocks), '\n') == BlockLines(blocks)
  {
    var lines := BlockLines(blocks);
    PlainBlock(blocks);
    JoinIsUnlines(lines, |lines|);
    assert lines[..|lines|] == lines;
    forall i | 0 <= i < |lines| ensures '\n' !in lines[i] { assert Plain(lines[i]); }
    SplitOfJoin(lines, '\n');
  }

  lemma {:induction false} HeadingsPrefix(a: seq<string>, b: seq<string>, n: nat)
    requires n <= |a|
    ensures Headings(a + b, n) == Headings(a, n)
  {
    if n > 0 { HeadingsPrefix(a, b, n - 1); }
  }

  lemma {:induction false} HeadingsConcat(a: seq<string>, b: seq<string>, n: nat)
    requires n <= |b|
    ensures Headings(a + b, |a| + n) == Headings(a, |a|) + Headings(b, n)
  {
    if n == 0 {
      HeadingsPrefix(a, b, |a|);
    } else {
      HeadingsConcat(a, b, n - 1);
      assert (a + b)[|a| + n - 1] == b[n - 1];
      if HeadingName(b[n - 1]) != "" {
        RegroupLines(Headings(a, |a|), Headings(b, n - 1), [HeadingName(b[n - 1])]);
      }
    }
  }

  lemma HeadingsTogether(a: seq<string>, ha: seq<string>, b: seq<string>, hb: seq<string>)
    requires Headings(a, |a|) == ha && Headings(b, |b|) == hb
    ensures Headings(a + b, |a + b|) == ha + hb
  {
    HeadingsConcat(a, b, |b|);
  }

  lemma {:induction false} NoHeadings(lines: seq<string>, n: nat)
    requires n <= |lines| && forall i :: 0 <= i < n ==> !HasPrefix(lines[i], HEADING)
    ensures Headings(lines, n) == []
  {
    if n > 0 { NoHeadings(lines, n - 1); }
  }

  lemma {:induction false} NoRepoHeadings(repos: seq<RepoEntry>, n: nat)
    requires n <= |repos| && forall i :: 0 <= i < |repos| ==> NoBreak(repos[i].name)
    ensures |RepoLines(repos, n)| == n && forall i :: 0 <= i < n ==> !HasPrefix(RepoLines(repos, n)[i], HEADING)
  {
    if n > 0 {
      NoRepoHeadings(repos, n - 1);
      PlainRepo(repos[n - 1]);
    }
  }

  // A description that reads as a heading of its own.
  predicate Forges(blk: ProjectBlock) { HasPrefix(DescriptionLine(blk), HEADING) }

  lemma ForgedHeading(blk: ProjectBlock)
    ensures HeadingName(DescriptionLine(blk)) != "" <==> Forges(blk)
  {
    PlainTexts();
    if Forges(blk) {
      OneLineIs(blk.description.value);
      var line := DescriptionLine(blk);
      assert line[3] == HEADING[3] == ' ';
      TrimSpaceIs(line[|HEADING|..]);
      assert line[|HEADING|..][|line| - |HEADING| - 1] == line[|line| - 1];
    }
  }

  predicate TrimmedName(name: string) { name != "" && NoBreak(name) && TrimSpace(name) == name }

  function SectionHeadings(blk: ProjectBlock): seq<string> {
    if Forges(blk) then [blk.name, HeadingName(DescriptionLine(blk))] else [blk.name]
  }

  lemma HeadHeadings(blk: ProjectBlock)
    requires TrimmedName(blk.name)
    ensures Headings(HeadLines(blk), |HeadLines(blk)|) == SectionHeadings(blk)
  {
    var lines := HeadLines(blk);
    TrimPrefixOf(HEADING, blk.name);
    assert HeadingName(lines[1]) == blk.name;
    ForgedHeading(blk);
    PlainMapLine(blk.name);
    assert Headings(lines, 1) == [];
    assert Headings(lines, 2) == [blk.name];
    assert Headings(lines, 3) == SectionHeadings(blk);
    assert HeadingName(lines[3]) == "";
    assert Headings(lines, 4) == SectionHeadings(blk);
  }

  function AllHeadings(blocks: seq<ProjectBlock>, n: nat): seq<string>
    requires n <= |blocks|
  {
    Concat(blocks, SectionHeadings, n)
  }

  predicate NamesAreTrimmed(blocks: seq<ProjectBlock>) {
    forall k :: 0 <= k < |blocks| ==> TrimmedName(blocks[k].name)
  }

  // A section whose names are trimmed and unbroken.
  predicate Sound(blk: ProjectBlock) {
    TrimmedName(blk.name) && forall i :: 0 <= i < |blk.repos| ==> NoBreak(blk.repos[i].name)
  }

  predicate Heads<A>(f: A -> seq<string>, h: A -> seq<string>, item: A) { Headings(f(item), |f(item)|) == h(item) }

  // If every item's lines have the headings `h` gives, so have all of them end to end.
  lemma {:induction false} ConcatHeadings<A>(items: seq<A>, f: A -> seq<string>, h: A -> seq<string>, n: nat)
    requires n <= |items| && forall k :: 0 <= k < n ==> Heads(f, h, items[k])
    ensures Headings(Concat(items, f, n), |Concat(items, f, n)|) == Concat(items, h, n)
  {
    if n > 0 {
      ConcatHeadings(items, f, h, n - 1);
      assert Heads(f, h, items[n - 1]);
      HeadingsTogether(Concat(items, f, n - 1), Concat(items, h, n - 1), f(items[n - 1]), h(items[n - 1]));
    }
  }

  lemma ProjectsHeadings(blocks: seq<ProjectBlock>)
    requires forall k :: 0 <= k < |blocks| ==> Sound(blocks[k])
    ensures Headings(ProjectsLines(blocks, |blocks|), |ProjectsLines(blocks, |blocks|)|) == AllHeadings(blocks, |blocks|)
  {
    forall k | 0 <= k < |blocks| ensures Heads(ProjectLines, SectionHeadings, blocks[k]) {
      SectionHeadingsAre(blocks[k]);
    }
    ConcatHeadings(blocks, ProjectLines, SectionHeadings, |blocks|);
  }

  lemma SectionHeadingsAre(blk: ProjectBlock)
    requires Sound(blk)
    ensures Headings(ProjectLines(blk), |ProjectLines(blk)|) == SectionHeadings(blk)
  {
    var repos := RepoLines(blk.repos, |blk.repos|);
    HeadHeadings(blk);
    NoRepoHeadings(blk.repos, |blk.repos|);
    NoHeadings(repos, |repos|);
    HeadingsTogether(HeadLines(blk), SectionHeadings(blk), repos, []);
  }

  lemma BlockHeadings(blocks: seq<ProjectBlock>)
    requires NamesHaveNoBreak(blocks) && NamesAreTrimmed(blocks)
    ensures Headings(BlockLines(blocks), |BlockLines(blocks)|) == AllHeadings(blocks, |blocks|)
  {
    var head, middle := [START, "## Workspace"], ProjectsLines(blocks, |blocks|);
    forall k | 0 <= k < |blocks| ensures Sound(blocks[k]) { assert TrimmedName(blocks[k].name) && NoBreak(blocks[k].name); }
    ProjectsHeadings(blocks);
    NoMarkerHeadings();
    NoHeadings(head, 2);
    NoHeadings([END], 1);
    HeadingsTogether(head, [], middle, AllHeadings(blocks, |blocks|));
    HeadingsTogether(head + middle, [] + AllHeadings(blocks, |blocks|), [END], []);
  }

  lemma NoMarkerHeadings()
    ensures !HasPrefix(START, HEADING) && !HasPrefix(END, HEADING) && !HasPrefix("## Workspace", HEADING)
  {
    assert START[0] == '<' && END[0] == '<' && HEADING[0] == '#';
    assert "## Workspace"[2] == ' ' && HEADING[2] == '#';
  }

  function Names(blocks: seq<ProjectBlock>, n: nat): seq<string>
    requires n <= |blocks|
  {
    if n == 0 then [] else Names(blocks, n - 1) + [blocks[n - 1].name]
  }

  lemma {:induction false} AtLeastTheNames(blocks: seq<ProjectBlock>, n: nat)
    requires n <= |blocks|
    ensures |AllHeadings(blocks, n)| >= n
  {
    if n > 0 { AtLeastTheNames(blocks, n - 1); }
  }

  lemma {:induction false} ForgingAddsAHeading(blocks: seq<ProjectBlock>, n: nat, k: nat)
    requires k < n <= |blocks| && Forges(blocks[k])
    ensures |AllHeadings(blocks, n)| > n
  {
    if k == n - 1 { AtLeastTheNames(blocks, n - 1); } else { ForgingAddsAHeading(blocks, n - 1, k); }
  }

  lemma {:induction false} HonestHeadings(blocks: seq<ProjectBlock>, n: nat)
    requires n <= |blocks| && forall k :: 0 <= k < n ==> !Forges(blocks[k])
    ensures AllHeadings(blocks, n) == Names(blocks, n)
  {
    if n > 0 { HonestHeadings(blocks, n - 1); }
  }

  lemma {:induction false} NamesCount(blocks: seq<ProjectBlock>, n: nat)
    requires n <= |blocks|
    ensures |Names(blocks, n)| == n
  {
    if n > 0 { NamesCount(blocks, n - 1); }
  }

  /** With trimmed, unbroken names, the projects read from a rendered block are the
      projects rendered exactly when no one-lined description starts with "### ". */
  lemma ProjectsReadBackIff(blocks: seq<ProjectBlock>)
    requires NamesHaveNoBreak(blocks) && NamesAreTrimmed(blocks)
    ensures var lines := Split(BlockBody(blocks), '\n');
            Headings(lines, |lines|) == Names(blocks, |blocks|) <==> forall k :: 0 <= k < |blocks| ==> !Forges(blocks[k])
  {
    LinesReadBack(blocks);
    BlockHeadings(blocks);
    NamesCount(blocks, |blocks|);
    if forall k :: 0 <= k < |blocks| ==> !Forges(blocks[k]) {
      HonestHeadings(blocks, |blocks|);
    } else {
      var k :| 0 <= k < |blocks| && Forges(blocks[k]);
      ForgingAddsAHeading(blocks, |blocks|, k);
    }
  }
}
