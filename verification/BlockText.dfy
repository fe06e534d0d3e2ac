/** The block of CLAUDE.md as text, written out: an independent reading of what is rendered,
    spliced and read. */
module BlockText {
  import opened Common
  import opened Text
  import opened ManagedBlock
  import opened ClaudeMdFile
  import opened BlockRendering
  import opened BlockReading

  // ---------------------------------------------------------------- the text of a block

  function RepoText(r: RepoEntry): string {
    "- **" + r.name + "**: "
    + (if r.positioning != "" then OneLine(r.positioning)
       else if r.description.Some? && r.description.value != "" then OneLine(r.description.value)
       else ("*(description pending; " + ("run /pf-init " + "to generate)*")))
    + "\n"
  }

  function RepoTexts(repos: seq<RepoEntry>): string {
    if repos == [] then "" else RepoText(repos[0]) + RepoTexts(repos[1..])
  }

  function SectionText(blk: ProjectBlock): string {
    "\n### " + blk.name + "\n"
    + (if blk.description.Some? && blk.description.value != "" then OneLine(blk.description.value)
       else ("*(description pending; " + ("ask project owner " + "to run polyforge init)*")))
    + "\n"
    + (if RepoMapFileName(blk.name) == "" then ""
       else ("> Repo detail (stack / " + ("modules / changes): `" + ".polyforge/repo-map/")) + RepoMapFileName(blk.name) + "`\n")
    + "\n" + RepoTexts(blk.repos)
  }

  function SectionTexts(blocks: seq<ProjectBlock>): string {
    if blocks == [] then "" else SectionText(blocks[0]) + SectionTexts(blocks[1..])
  }

  // ---------------------------------------------------------------- it is what is rendered

  lemma {:induction false} LinesJoin(a: seq<string>, b: seq<string>)
    ensures AllLines(a + b) == AllLines(a) + AllLines(b)
  {
    LinesJoinUpTo(a, b, |b|);
  }

  lemma {:induction false} LinesJoinUpTo(a: seq<string>, b: seq<string>, n: nat)
    requires n <= |b|
    ensures Unlines(a + b, |a| + n) == AllLines(a) + Unlines(b, n)
  {
    if n == 0 {
      UnlinesPrefix(a, b, |a|);
    } else {
      LinesJoinUpTo(a, b, n - 1);
      assert (a + b)[|a| + n - 1] == b[n - 1];
      Regroup(AllLines(a), Unlines(b, n - 1), b[n - 1] + "\n");
    }
  }

  lemma OneTextLine(line: string)
    ensures AllLines([line]) == line + "\n"
  {
    assert Unlines([line], 0) == "";
    assert "" + (line + "\n") == line + "\n";
  }

  lemma {:induction false} RepoLinesFront(repos: seq<RepoEntry>, n: nat)
    requires 1 <= n <= |repos|
    ensures RepoLines(repos, n) == [RepoLine(repos[0])] + RepoLines(repos[1..], n - 1)
  {
    hide RepoLine;
    if n == 1 {
      assert RepoLines(repos, 0) == [] && RepoLines(repos[1..], 0) == [];
    } else {
      RepoLinesFront(repos, n - 1);
      assert repos[1..][n - 2] == repos[n - 1];
    }
  }

  lemma RepoIs(r: RepoEntry)
    ensures RepoLine(r) + "\n" == RepoText(r)
  {
  }

  lemma {:induction false} ReposAre(repos: seq<RepoEntry>)
    ensures AllLines(RepoLines(repos, |repos|)) == RepoTexts(repos)
  {
    hide RepoLine, RepoText;
    if repos != [] {
      ReposAre(repos[1..]);
      RepoLinesFront(repos, |repos|);
      LinesJoin([RepoLine(repos[0])], RepoLines(repos[1..], |repos| - 1));
      OneTextLine(RepoLine(repos[0]));
      RepoIs(repos[0]);
    }
  }

  lemma FiveLines(a: string, b: string, c: string, d: seq<string>, e: string)
    ensures AllLines([a, b, c] + d + [e]) == (a + "\n") + (b + "\n") + (c + "\n") + AllLines(d) + (e + "\n")
  {
    hide AllLines;
    OneTextLine(a);
    OneTextLine(b);
    OneTextLine(c);
    OneTextLine(e);
    LinesJoin([a, b, c] + d, [e]);
    LinesJoin([a, b, c], d);
    assert [a, b, c] == [a] + [b] + [c];
    LinesJoin([a] + [b], [c]);
    LinesJoin([a], [b]);
  }

  lemma DetailIs(file: string)
    ensures MapLine(file) + "\n" == ("> Repo detail (stack / " + ("modules / changes): `" + ".polyforge/repo-map/")) + file + "`\n"
  {
  }

  lemma DescriptionIs(blk: ProjectBlock)
    ensures DescriptionLine(blk) == if blk.description.Some? && blk.description.value != "" then OneLine(blk.description.value)
                                    else ("*(description pending; " + ("ask project owner " + "to run polyforge init)*"))
  {
  }

  lemma HeadIs(blk: ProjectBlock)
    ensures AllLines(HeadLines(blk)) + RepoTexts(blk.repos) == SectionText(blk)
  {
    hide AllLines, RepoMapFileName, OneLine, RepoTexts, MapLine, DescriptionLine;
    var file := RepoMapFileName(blk.name);
    var d := if file == "" then [] else [MapLine(file)];
    FiveLines("", HEADING + blk.name, DescriptionLine(blk), d, "");
    DescriptionIs(blk);
    NoLines();
    if file != "" {
      OneTextLine(MapLine(file));
      DetailIs(file);
    }
    HeadTexts(blk.name, DescriptionLine(blk), AllLines(d), RepoTexts(blk.repos));
  }

  lemma NoLines()
    ensures AllLines([]) == ""
  {
  }

  lemma HeadTexts(name: string, description: string, detail: string, repos: string)
    ensures ("" + "\n") + ((HEADING + name) + "\n") + (description + "\n") + detail + ("" + "\n") + repos
         == "\n### " + name + "\n" + description + "\n" + detail + "\n" + repos
  {
    assert "" + "\n" == "\n" && "\n" + "### " == "\n### ";
  }

  lemma {:induction false} SectionsAre(blocks: seq<ProjectBlock>)
    ensures AllLines(ProjectsLines(blocks, |blocks|)) == SectionTexts(blocks)
  {
    hide AllLines, ProjectLines, SectionText;
    if blocks == [] {
      NoLines();
    } else {
      SectionsAre(blocks[1..]);
      ConcatFront(blocks, ProjectLines, |blocks|);
      LinesJoin(ProjectLines(blocks[0]), ProjectsLines(blocks[1..], |blocks| - 1));
      SectionIs(blocks[0]);
    }
  }

  lemma SectionIs(blk: ProjectBlock)
    ensures AllLines(ProjectLines(blk)) == SectionText(blk)
  {
    hide AllLines, HeadLines, SectionText;
    LinesJoin(HeadLines(blk), RepoLines(blk.repos, |blk.repos|));
    ReposAre(blk.repos);
    HeadIs(blk);
  }

  lemma {:induction false} ConcatFront<A, B>(items: seq<A>, f: A -> seq<B>, n: nat)
    requires 1 <= n <= |items|
    ensures Concat(items, f, n) == f(items[0]) + Concat(items[1..], f, n - 1)
  {
    if n == 1 {
      assert Concat(items, f, 0) == [] && Concat(items[1..], f, 0) == [];
    } else {
      ConcatFront(items, f, n - 1);
      assert items[1..][n - 2] == items[n - 1];
    }
  }

  /** The text init renders: the markers, a heading, and for each project its section. */
  lemma BlockIs(blocks: seq<ProjectBlock>)
    ensures AllLines(BlockLines(blocks))
         == ("<" + "!-- polyforge:managed:version=\"1.0\" -->") + "\n## Workspace\n" + SectionTexts(blocks) + ("<" + "!-- /polyforge:managed -->") + "\n"
  {
    hide AllLines, ProjectsLines;
    LinesJoin([START, "## Workspace"] + ProjectsLines(blocks, |blocks|), [END]);
    LinesJoin([START, "## Workspace"], ProjectsLines(blocks, |blocks|));
    assert [START, "## Workspace"] == [START] + ["## Workspace"];
    LinesJoin([START], ["## Workspace"]);
    OneTextLine(START);
    OneTextLine("## Workspace");
    OneTextLine(END);
    SectionsAre(blocks);
    MarkerTexts();
  }

  lemma MarkerTexts()
    ensures (START + "\n") + ("## Workspace" + "\n") == ("<" + "!-- polyforge:managed:version=\"1.0\" -->") + "\n## Workspace\n"
    ensures forall s: string :: s + (END + "\n") == s + ("<" + "!-- /polyforge:managed -->") + "\n"
  {
    assert "\n" + ("## Workspace" + "\n") == "\n## Workspace\n";
    assert (START + "\n") + ("## Workspace" + "\n") == START + ("\n" + ("## Workspace" + "\n"));
  }

  // ---------------------------------------------------------------- fields

  // A text on one line.
  predicate OnOneLine(s: string) { '\n' !in s && '\r' !in s }

  // A line break as the three systems write it.
  predicate IsBreak(b: string) { b == "\n" || b == "\r\n" || b == "\r" }

  lemma NothingToReplace(s: string)
    requires OnOneLine(s)
    ensures ReplaceAll(ReplaceAll(ReplaceAll(s, "\r\n", " "), "\n", " "), "\r", " ") == s
  {
    forall m | m == "\r\n" || m == "\n" || m == "\r" ensures !Contains(s, m) {
      forall i | 0 <= i <= |s| ensures !OccursAt(s, m, i) { if OccursAt(s, m, i) { OccursFirst(s, m, i); } }
    }
    ReplaceNothing(s, "\r\n", " ");
    ReplaceNothing(s, "\n", " ");
    ReplaceNothing(s, "\r", " ");
  }

  /** A text on one line is only trimmed. */
  lemma OneLineOfLine(s: string)
    requires OnOneLine(s)
    ensures OneLine(s) == TrimSpace(s)
  {
    NothingToReplace(s);
  }

  lemma {:induction false} PassOver(a: string, s: string, from: string, to: string)
    requires from != "" && from[0] !in a
    ensures ReplaceAll(a + s, from, to) == a + ReplaceAll(s, from, to)
  {
    if a == "" {
      assert a + s == s;
    } else {
      assert (a + s)[0] == a[0] && (a + s)[1..] == a[1..] + s && a[0] in a;
      assert !HasPrefix(a + s, from);
      ReplaceShort(a + s, from, to);
      PassOver(a[1..], s, from, to);
      assert [a[0]] + (a[1..] + ReplaceAll(s, from, to)) == a + ReplaceAll(s, from, to);
    }
  }

  lemma ReplaceFront(s: string, from: string, to: string)
    requires from != ""
    ensures ReplaceAll(from + s, from, to) == to + ReplaceAll(s, from, to)
  {
    assert (from + s)[|from|..] == s;
  }

  /** Two lines become one, whatever the line break, with one space in its place. */
  lemma OneLineOfTwo(a: string, br: string, b: string)
    requires OnOneLine(a) && OnOneLine(b) && IsBreak(br)
    ensures OneLine(a + br + b) == TrimSpace(a + " " + b)
  {
    hide ReplaceAll, TrimSpace;
    assert a + br + b == a + (br + b) && a + " " + b == a + (" " + b);
    var s := a + (br + b);
    var one := a + (" " + b);
    assert OnOneLine(one);
    NothingToReplace(one);
    NothingToReplace(b);
    if br == "\r\n" {
      PassOver(a, br + b, "\r\n", " ");
      ReplaceFront(b, "\r\n", " ");
      NoPair(b);
      Untouched(one, "\n");
      Untouched(one, "\r");
    } else if br == "\n" {
      NoPair(s);
      PassOver(a, br + b, "\n", " ");
      ReplaceFront(b, "\n", " ");
      Untouched(b, "\n");
      Untouched(one, "\r");
    } else {
      NoPair(s);
      Untouched(s, "\n");
      PassOver(a, br + b, "\r", " ");
      ReplaceFront(b, "\r", " ");
      Untouched(b, "\r");
    }
  }

  lemma Untouched(s: string, m: string)
    requires |m| == 1 && m[0] !in s
    ensures ReplaceAll(s, m, " ") == s
  {
    forall i | 0 <= i <= |s| ensures !OccursAt(s, m, i) { if OccursAt(s, m, i) { OccursFirst(s, m, i); } }
    ReplaceNothing(s, m, " ");
  }

  lemma PairAt(s: string, i: int)
    requires OccursAt(s, "\r\n", i)
    ensures s[i] == '\r' && s[i + 1] == '\n'
  {
    assert s[i..i + 2][0] == s[i] && s[i..i + 2][1] == s[i + 1];
  }

  // Without a carriage return in front of a newline there is no pair of them.
  lemma NoPair(s: string)
    requires forall i :: 0 <= i < |s| - 1 ==> !(s[i] == '\r' && s[i + 1] == '\n')
    ensures ReplaceAll(s, "\r\n", " ") == s
  {
    forall i | 0 <= i <= |s| ensures !OccursAt(s, "\r\n", i) {
      if OccursAt(s, "\r\n", i) { PairAt(s, i); }
    }
    ReplaceNothing(s, "\r\n", " ");
  }

  predicate IsNameChar(c: char) { '0' <= c <= '9' || 'a' <= c <= 'z' || 'A' <= c <= 'Z' || c == '-' || c == '_' || c == '.' }

  function Mapped(project: string): string {
    if project == "" then "" else [if IsNameChar(project[0]) then project[0] else '-'] + Mapped(project[1..])
  }

  lemma {:induction false} MappedIs(project: string)
    ensures Mapped(project) == FileChars(project)
  {
    if project != "" { MappedIs(project[1..]); }
  }

  predicate DotsAndDashes(s: string) { forall i :: 0 <= i < |s| ==> s[i] == '.' || s[i] == '-' }

  /** The file name of a project: every other character becomes a dash, dots and dashes at either
      end go, and ".md" is put behind; nothing left means no file. */
  lemma FileNameIs(project: string, left: string, stem: string, right: string)
    requires Mapped(project) == left + stem + right
    requires DotsAndDashes(left) && DotsAndDashes(right)
    requires stem != "" ==> stem[0] !in ".-" && stem[|stem| - 1] !in ".-"
    requires stem == "" ==> right == ""
    ensures RepoMapFileName(project) == if stem == "" then "" else stem + ".md"
  {
    MappedIs(project);
    CutLeft(left, stem + right);
    assert left + stem + right == left + (stem + right);
    if stem != "" { CutRight(stem, right); }
  }

  lemma {:induction false} CutLeft(left: string, rest: string)
    requires DotsAndDashes(left) && (rest != "" ==> rest[0] !in ".-")
    ensures TrimLeft(left + rest, IsDotOrDash) == rest
  {
    if left == "" {
      assert left + rest == rest;
    } else {
      assert (left + rest)[1..] == left[1..] + rest;
      CutLeft(left[1..], rest);
    }
  }

  lemma {:induction false} CutRight(stem: string, right: string)
    requires stem != "" && stem[|stem| - 1] !in ".-" && DotsAndDashes(right)
    ensures TrimRight(stem + right, IsDotOrDash) == stem
  {
    if right == "" {
      assert stem + right == stem;
    } else {
      assert (stem + right)[..|stem + right| - 1] == stem + right[..|right| - 1];
      CutRight(stem, right[..|right| - 1]);
    }
  }

  // ---------------------------------------------------------------- the file

  /** A file without a block gets one at its end, behind one empty line. */
  lemma AppendedIs(existing: string, block: string)
    requires !Contains(existing, "<" + "!-- polyforge:managed:version=\"1.0\" -->")
    ensures existing == "" ==> Upsert(existing, block) == "\n" + block
    ensures existing != "" && existing[|existing| - 1] == '\n' ==> Upsert(existing, block) == existing + "\n" + block
    ensures existing != "" && existing[|existing| - 1] != '\n' ==> Upsert(existing, block) == existing + "\n\n" + block
  {
    if existing != "" {
      assert HasSuffix(existing, "\n") <==> existing[|existing| - 1] == '\n';
      assert existing + "\n" + "\n" == existing + "\n\n";
    }
  }

  /** The import line: kept where it is, put in place of the old one, or put first. */
  lemma ImportLineIs(s: string)
    ensures EnsureRef(None) == "@.polyforge/usage.md\n"
    ensures Contains(s, "@.polyforge/usage.md") ==> EnsureRef(Some(s)) == s
    ensures !Contains(s, "@.polyforge/usage.md") && Contains(s, "@.claude/polyforge.md") ==>
              EnsureRef(Some(s)) == ReplaceAll(s, "@.claude/polyforge.md", "@.polyforge/usage.md")
    ensures !Contains(s, "@.polyforge/usage.md") && !Contains(s, "@.claude/polyforge.md") ==>
              EnsureRef(Some(s)) == if s == "" || s[0] == '\n' then "@.polyforge/usage.md\n" + s else "@.polyforge/usage.md\n\n" + s
  {
    if s != "" { assert HasPrefix(s, "\n") <==> s[0] == '\n'; }
    assert "@.polyforge/usage.md" + "\n" + ("\n" + s) == "@.polyforge/usage.md\n\n" + s;
    assert "@.polyforge/usage.md" + "\n" + ("" + s) == "@.polyforge/usage.md\n" + s;
  }

  /** Every old reference is replaced, with the text around it kept. */
  lemma ReplacedOne(a: string, b: string)
    requires '@' !in a
    ensures ReplaceAll(a + "@.claude/polyforge.md" + b, "@.claude/polyforge.md", "@.polyforge/usage.md")
         == a + "@.polyforge/usage.md" + ReplaceAll(b, "@.claude/polyforge.md", "@.polyforge/usage.md")
  {
    var ref := "@.claude/polyforge.md";
    assert a + ref + b == a + (ref + b);
    PassOver(a, ref + b, ref, "@.polyforge/usage.md");
    ReplaceFront(b, ref, "@.polyforge/usage.md");
    Regroup(a, "@.polyforge/usage.md", ReplaceAll(b, ref, "@.polyforge/usage.md"));
  }

  // ---------------------------------------------------------------- reading

  /** A block is of the old format exactly when a line in it starts with one of four bullets. */
  lemma LegacyIff(block: string)
    ensures BlockIsLegacyFormat(block) <==>
            || Contains(block, "\n  - modules:") || Contains(block, "\n  - stack:")
            || Contains(block, "\n  - changes:") || Contains(block, "\n  - generated:")
  {
    hide Contains;
    assert LEGACY_MARKERS[0] == "\n  - modules:" && LEGACY_MARKERS[1] == "\n  - stack:";
    assert LEGACY_MARKERS[2] == "\n  - changes:" && LEGACY_MARKERS[3] == "\n  - generated:";
  }

  /** A project is named by a line that starts with "### ". */
  lemma HeadingNameIs(line: string, name: string)
    ensures HeadingName("### " + name) == TrimSpace(name)
    ensures !("### " <= line) ==> HeadingName(line) == ""
  {
    assert ("### " + name)[4..] == name && HEADING == "### ";
  }

  /** Trimming takes white space from both ends and nothing else. */
  lemma TrimSpaceCuts(s: string) returns (pre: string, post: string)
    ensures s == pre + TrimSpace(s) + post
    ensures (forall c :: c in pre ==> IsSpace(c)) && (forall c :: c in post ==> IsSpace(c))
  {
    var l := TrimLeft(s, IsSpace);
    TrimLeftIs(s, IsSpace);
    TrimRightIs(l, IsSpace);
    pre, post := s[..|s| - |l|], l[|TrimSpace(s)|..];
  }
}
