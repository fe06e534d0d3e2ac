/** Rendering the managed block: the lines a list of projects becomes, and the builder that writes them. */
module BlockRendering {
  import opened Common
  import opened Text
  import opened ManagedBlock
  import opened ClaudeMdFile

  datatype RepoEntry = RepoEntry(name: string, description: Option<string>, positioning: string)

  datatype ProjectBlock = ProjectBlock(name: string, description: Option<string>, repos: seq<RepoEntry>)

  const PENDING := "*(description pending; "
  const PENDING_REPO := PENDING + ("run /pf-init " + "to generate)*")
  const PENDING_PROJECT := PENDING + ("ask project owner " + "to run polyforge init)*")
  const DETAIL_LEAD := "> Repo detail (stack / " + ("modules / changes): `" + ".polyforge/repo-map/")
  const HEADING := "### "

  // ---------------------------------------------------------------- fields

  function OneLine(s: string): string {
    TrimSpace(ReplaceAll(ReplaceAll(ReplaceAll(s, "\r\n", " "), "\n", " "), "\r", " "))
  }

  function RepoHeadline(r: RepoEntry): string {
    if r.positioning != "" then OneLine(r.positioning)
    else if r.description.Some? && r.description.value != "" then OneLine(r.description.value)
    else PENDING_REPO
  }

  predicate IsFileChar(c: char) { IsDigit(c) || 'a' <= c <= 'z' || 'A' <= c <= 'Z' || c == '-' || c == '_' || c == '.' }

  predicate IsDotOrDash(c: char) { c == '.' || c == '-' }

  function FileChars(project: string): string {
    seq(|project|, i requires 0 <= i < |project| => if IsFileChar(project[i]) then project[i] else '-')
  }

  function FileStem(project: string): string { TrimRight(TrimLeft(FileChars(project), IsDotOrDash), IsDotOrDash) }

  function RepoMapFileName(project: string): string {
    if FileStem(project) == "" then "" else FileStem(project) + ".md"
  }

  function DescriptionLine(blk: ProjectBlock): string {
    if blk.description.Some? && blk.description.value != "" then OneLine(blk.description.value) else PENDING_PROJECT
  }

  function RepoLine(r: RepoEntry): string { "- **" + r.name + "**: " + RepoHeadline(r) }

  // ---------------------------------------------------------------- the lines of a block

  // Lines 0 to n - 1, each with its newline.
  function Unlines(lines: seq<string>, n: nat): string
    requires n <= |lines|
  {
    if n == 0 then "" else Unlines(lines, n - 1) + (lines[n - 1] + "\n")
  }

  function AllLines(lines: seq<string>): string { Unlines(lines, |lines|) }

  function MapLine(file: string): string { DETAIL_LEAD + file + "`" }

  function HeadLines(blk: ProjectBlock): seq<string> {
    ["", HEADING + blk.name, DescriptionLine(blk)]
    + (if RepoMapFileName(blk.name) == "" then [] else [MapLine(RepoMapFileName(blk.name))])
    + [""]
  }

  function RepoLines(repos: seq<RepoEntry>, n: nat): seq<string>
    requires n <= |repos|
  {
    if n == 0 then [] else RepoLines(repos, n - 1) + [RepoLine(repos[n - 1])]
  }

  function ProjectLines(blk: ProjectBlock): seq<string> { HeadLines(blk) + RepoLines(blk.repos, |blk.repos|) }

  // What `f` makes of the first n items, end to end.
  function Concat<A, B>(items: seq<A>, f: A -> seq<B>, n: nat): seq<B>
    requires n <= |items|
  {
    if n == 0 then [] else Concat(items, f, n - 1) + f(items[n - 1])
  }

  function ProjectsLines(blocks: seq<ProjectBlock>, n: nat): seq<string>
    requires n <= |blocks|
  {
    Concat(blocks, ProjectLines, n)
  }

  function BlockLines(blocks: seq<ProjectBlock>): seq<string> {
    [START, "## Workspace"] + ProjectsLines(blocks, |blocks|) + [END]
  }

  // ---------------------------------------------------------------- the builder

  lemma {:induction false} UnlinesPrefix(a: seq<string>, b: seq<string>, n: nat)
    requires n <= |a|
    ensures Unlines(a + b, n) == Unlines(a, n)
  {
    if n > 0 { UnlinesPrefix(a, b, n - 1); }
  }

  // One Fprintf to the builder.
  method WriteLine(sb: string, ghost lines: seq<string>, line: string) returns (out: string)
    requires sb == AllLines(lines)
    ensures out == AllLines(lines + [line])
  {
    UnlinesPrefix(lines, [line], |lines|);
    out := sb + (line + "\n");
  }

  method WriteHead(sb: string, ghost lines: seq<string>, blk: ProjectBlock) returns (out: string)
    requires sb == AllLines(lines)
    ensures out == AllLines(lines + HeadLines(blk))
  {
    out := WriteLine(sb, lines, "");
    ghost var done := lines + [""];
    out := WriteLine(out, done, HEADING + blk.name);
    done := done + [HEADING + blk.name];
    var description;
    if blk.description.Some? && blk.description.value != "" {
      description := OneLine(blk.description.value);
    } else {
      description := PENDING_PROJECT;
    }
    out := WriteLine(out, done, description);
    done := done + [description];
    var file := RepoMapFileName(blk.name);
    if file != "" {
      out := WriteLine(out, done, MapLine(file));
      done := done + [MapLine(file)];
    }
    out := WriteLine(out, done, "");
    done := done + [""];
    assert done == lines + HeadLines(blk);
  }

  method WriteRepos(sb: string, ghost lines: seq<string>, repos: seq<RepoEntry>) returns (out: string)
    requires sb == AllLines(lines)
    ensures out == AllLines(lines + RepoLines(repos, |repos|))
  {
    out := sb;
    assert lines + [] == lines;
    for i := 0 to |repos|
      invariant out == AllLines(lines + RepoLines(repos, i))
    {
      out := WriteLine(out, lines + RepoLines(repos, i), RepoLine(repos[i]));
      RegroupLines(lines, RepoLines(repos, i), [RepoLine(repos[i])]);
    }
  }

  method WriteProject(sb: string, ghost lines: seq<string>, blk: ProjectBlock) returns (out: string)
    requires sb == AllLines(lines)
    ensures out == AllLines(lines + ProjectLines(blk))
  {
    out := WriteHead(sb, lines, blk);
    out := WriteRepos(out, lines + HeadLines(blk), blk.repos);
    RegroupLines(lines, HeadLines(blk), RepoLines(blk.repos, |blk.repos|));
  }

  /** The block as init builds it: a start marker, a section per project, an end marker. */
  method RenderBlock(blocks: seq<ProjectBlock>) returns (sb: string)
    ensures sb == AllLines(BlockLines(blocks))
  {
    sb := WriteLine("", [], START);
    sb := WriteLine(sb, [] + [START], "## Workspace");
    ghost var head := [START, "## Workspace"];
    assert [] + [START] + ["## Workspace"] == head;
    assert head + [] == head;
    for k := 0 to |blocks|
      invariant sb == AllLines(head + ProjectsLines(blocks, k))
    {
      sb := WriteProject(sb, head + ProjectsLines(blocks, k), blocks[k]);
      RegroupLines(head, ProjectsLines(blocks, k), ProjectLines(blocks[k]));
    }
    sb := WriteLine(sb, head + ProjectsLines(blocks, |blocks|), END);
  }

  lemma RegroupLines(a: seq<string>, b: seq<string>, c: seq<string>)
    ensures a + (b + c) == a + b + c
  {
  }
}
