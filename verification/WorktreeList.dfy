/** Reading `git worktree list --porcelain`: the parser inverts the printer. */
module WorktreeList {
  import opened Text

  const WORKTREE := "worktree" + [' ']
  const BRANCH := "branch refs/heads" + ['/']
  const PRUNABLE := "prunable"

  predicate IsReturn(c: char) { c == '\r' }

  function Strip(line: string): string { TrimRight(line, IsReturn) }

  // How a path resolves, and the clone's own main worktree.
  datatype Disk = Disk(resolve: string -> string, main: string)

  // The entry being read, and the linked worktrees found so far.
  datatype Parser = Parser(cur: string, branch: string, prunable: bool, res: map<string, string>)

  function Flush(d: Disk, p: Parser): Parser {
    if p.cur != "" && p.branch != "" && !p.prunable && d.resolve(p.cur) != d.main then
      Parser("", "", false, p.res[p.cur := p.branch])
    else Parser("", "", false, p.res)
  }

  function Step(d: Disk, p: Parser, raw: string): Parser {
    var line := Strip(raw);
    if line == "" then Flush(d, p)
    else if HasPrefix(line, WORKTREE) then Flush(d, p).(cur := TrimPrefix(line, WORKTREE))
    else if HasPrefix(line, BRANCH) then p.(branch := TrimPrefix(line, BRANCH))
    else if line == PRUNABLE || HasPrefix(line, PRUNABLE + " ") then p.(prunable := true)
    else p
  }

  function Fold(d: Disk, p: Parser, lines: seq<string>, n: nat): Parser
    requires n <= |lines|
  {
    if n == 0 then p else Step(d, Fold(d, p, lines, n - 1), lines[n - 1])
  }

  const START := Parser("", "", false, map[])

  function Parsed(d: Disk, lines: seq<string>): map<string, string> { Flush(d, Fold(d, START, lines, |lines|)).res }

  method Finish(d: Disk, cur: string, branch: string, prunable: bool, res: map<string, string>)
      returns (out: map<string, string>)
    ensures out == Flush(d, Parser(cur, branch, prunable, res)).res
  {
    out := res;
    if cur != "" && branch != "" && !prunable {
      if d.resolve(cur) != d.main { out := out[cur := branch]; }
    }
  }

  /** The worktrees of a repository that are linked, on a branch and still on disk. */
  method LinkedWorktreeBranches(d: Disk, text: string) returns (res: map<string, string>)
    ensures res == Parsed(d, Split(text, '\n'))
  {
    var lines := Split(text, '\n');
    var cur, branch, prunable := "", "", false;
    res := map[];
    for i := 0 to |lines|
      invariant Parser(cur, branch, prunable, res) == Fold(d, START, lines, i)
    {
      var line := Strip(lines[i]);
      if line == "" {
        res := Finish(d, cur, branch, prunable, res);
        cur, branch, prunable := "", "", false;
      } else if HasPrefix(line, WORKTREE) {
        res := Finish(d, cur, branch, prunable, res);
        cur, branch, prunable := TrimPrefix(line, WORKTREE), "", false;
      } else if HasPrefix(line, BRANCH) {
        branch := TrimPrefix(line, BRANCH);
      } else if line == PRUNABLE || HasPrefix(line, PRUNABLE + " ") {
        prunable := true;
      }
    }
    res := Finish(d, cur, branch, prunable, res);
  }

  // ---------------------------------------------------------------- what git prints

  datatype Attribute =
    | Head(sha: string)
    | OnBranch(name: string)
    | Detached
    | Bare
    | Locked(reason: string)
    | Prunable(why: string)

  // One worktree: its path, then its attributes in any order.
  datatype Record = Record(path: string, attributes: seq<Attribute>)

  function WithReason(word: string, reason: string): string { if reason == "" then word else word + [' '] + reason }

  function AttributeLine(a: Attribute): string {
    match a
    case Head(sha) => "HEAD" + [' '] + sha
    case OnBranch(name) => "branch refs/heads" + ['/'] + name
    case Detached => "detached"
    case Bare => "bare"
    case Locked(reason) => WithReason("locked", reason)
    case Prunable(why) => WithReason("prunable", why)
  }

  function AttributeLines(attributes: seq<Attribute>, n: nat): (lines: seq<string>)
    requires n <= |attributes|
    ensures |lines| == n
  {
    if n == 0 then [] else AttributeLines(attributes, n - 1) + [AttributeLine(attributes[n - 1])]
  }

  function RecordLines(r: Record): seq<string> {
    ["worktree" + [' '] + r.path] + AttributeLines(r.attributes, |r.attributes|) + [""]
  }

  // The lines of the first n records; each record ends with a blank one.
  function AllLines(rs: seq<Record>, n: nat): seq<string>
    requires n <= |rs|
  {
    if n == 0 then [] else AllLines(rs, n - 1) + RecordLines(rs[n - 1])
  }

  // Every line ended by a newline, as git prints them.
  function Printed(rs: seq<Record>): string { Join(AllLines(rs, |rs|) + [""], '\n') }

  // The same text without the blank line at its end.
  function PrintedShort(rs: seq<Record>): string
    requires rs != []
  {
    var lines := AllLines(rs, |rs|);
    Join(lines[..|lines| - 1] + [""], '\n')
  }

  predicate Unbroken(r: Record) {
    '\n' !in r.path && forall i :: 0 <= i < |r.attributes| ==> '\n' !in AttributeLine(r.attributes[i])
  }

  // ---------------------------------------------------------------- what the text should mean

  // The branch the first n attributes put the worktree on, or "".
  function BranchOf(attributes: seq<Attribute>, n: nat): string
    requires n <= |attributes|
  {
    if n == 0 then ""
    else if attributes[n - 1].OnBranch? then Strip(attributes[n - 1].name)
    else BranchOf(attributes, n - 1)
  }

  predicate IsPrunable(attributes: seq<Attribute>, n: nat)
    requires n <= |attributes|
  {
    exists i :: 0 <= i < n && attributes[i].Prunable?
  }

  // A linked worktree: on a branch, on disk, and not the clone itself.
  predicate Linked(d: Disk, r: Record) {
    && Strip(r.path) != "" && BranchOf(r.attributes, |r.attributes|) != ""
    && !IsPrunable(r.attributes, |r.attributes|)
    && d.resolve(Strip(r.path)) != d.main
  }

  function Expected(d: Disk, rs: seq<Record>, n: nat): map<string, string>
    requires n <= |rs|
  {
    if n == 0 then map[]
    else if Linked(d, rs[n - 1]) then
      Expected(d, rs, n - 1)[Strip(rs[n - 1].path) := BranchOf(rs[n - 1].attributes, |rs[n - 1].attributes|)]
    else Expected(d, rs, n - 1)
  }

  // ---------------------------------------------------------------- one line

  lemma StripAfter(word: string, c: char, rest: string)
    requires c != '\r'
    ensures Strip(word + [c] + rest) == word + [c] + Strip(rest)
  {
    TrimRightSplits(word, c, rest, IsReturn);
  }

  lemma WorktreeStep(d: Disk, p: Parser, path: string)
    ensures Step(d, p, WORKTREE + path) == Flush(d, p).(cur := Strip(path))
  {
    StripAfter("worktree", ' ', path);
    TrimPrefixOf(WORKTREE, Strip(path));
  }

  lemma ReasonStep(word: string, reason: string)
    requires word != "" && word[|word| - 1] != '\r'
    ensures Strip(WithReason(word, reason)) == word || Strip(WithReason(word, reason)) == word + [' '] + Strip(reason)
  {
    if reason != "" { StripAfter(word, ' ', reason); }
  }

  // What a line that begins like this one is not.
  lemma OtherLine(d: Disk, p: Parser, raw: string)
    requires Strip(raw) != "" && Strip(raw)[0] !in "wp"
    requires Strip(raw)[0] == 'b' ==> |Strip(raw)| > 1 && Strip(raw)[1] != 'r'
    ensures Step(d, p, raw) == p
  {
    var line := Strip(raw);
    assert WORKTREE[0] == 'w' && BRANCH[0] == 'b' && BRANCH[1] == 'r' && PRUNABLE[0] == 'p' && (PRUNABLE + " ")[0] == 'p';
  }

  lemma AttributeStep(d: Disk, p: Parser, a: Attribute)
    ensures Step(d, p, AttributeLine(a)) ==
            (if a.OnBranch? then p.(branch := Strip(a.name)) else if a.Prunable? then p.(prunable := true) else p)
  {
    match a
    case Head(sha) =>
      StripAfter("HEAD", ' ', sha);
      OtherLine(d, p, AttributeLine(a));
    case OnBranch(name) =>
      BranchStep(d, p, name);
    case Detached =>
      OtherLine(d, p, "detached");
    case Bare =>
      OtherLine(d, p, "bare");
    case Locked(reason) =>
      ReasonStep("locked", reason);
      OtherLine(d, p, AttributeLine(a));
    case Prunable(why) =>
      PrunableStep(d, p, why);
  }

  lemma BranchStep(d: Disk, p: Parser, name: string)
    ensures Step(d, p, BRANCH + name) == p.(branch := Strip(name))
  {
    StripAfter("branch refs/heads", '/', name);
    TrimPrefixOf(BRANCH, Strip(name));
    assert WORKTREE[0] == 'w' && BRANCH[0] == 'b';
  }

  lemma PrunableStep(d: Disk, p: Parser, why: string)
    ensures Step(d, p, WithReason(PRUNABLE, why)) == p.(prunable := true)
  {
    ReasonStep(PRUNABLE, why);
    assert WORKTREE[0] == 'w' && BRANCH[0] == 'b' && PRUNABLE[0] == 'p' && (PRUNABLE + [' '])[0] == 'p';
    assert PRUNABLE + " " == PRUNABLE + [' '];
  }

  // ---------------------------------------------------------------- one record

  lemma {:induction false} FoldConcat(d: Disk, p: Parser, a: seq<string>, b: seq<string>, n: nat)
    requires n <= |b|
    ensures Fold(d, p, a + b, |a| + n) == Fold(d, Fold(d, p, a, |a|), b, n)
  {
    if n == 0 {
      FoldPrefix(d, p, a, b, |a|);
    } else {
      FoldConcat(d, p, a, b, n - 1);
    }
  }

  lemma {:induction false} FoldPrefix(d: Disk, p: Parser, a: seq<string>, b: seq<string>, n: nat)
    requires n <= |a|
    ensures Fold(d, p, a + b, n) == Fold(d, p, a, n)
  {
    if n > 0 { FoldPrefix(d, p, a, b, n - 1); }
  }

  lemma {:induction false} FoldAttributes(d: Disk, p: Parser, attributes: seq<Attribute>, n: nat)
    requires n <= |attributes| && p.branch == "" && !p.prunable
    ensures Fold(d, p, AttributeLines(attributes, n), n)
            == Parser(p.cur, BranchOf(attributes, n), IsPrunable(attributes, n), p.res)
  {
    if n > 0 {
      FoldAttributes(d, p, attributes, n - 1);
      FoldPrefix(d, p, AttributeLines(attributes, n - 1), [AttributeLine(attributes[n - 1])], n - 1);
      AttributeStep(d, Fold(d, p, AttributeLines(attributes, n - 1), n - 1), attributes[n - 1]);
    }
  }

  function Idle(res: map<string, string>): Parser { Parser("", "", false, res) }

  // A record read from between two records.
  lemma FoldRecord(d: Disk, res: map<string, string>, r: Record)
    ensures Fold(d, Idle(res), RecordLines(r), |RecordLines(r)|) ==
            Idle(if Linked(d, r) then res[Strip(r.path) := BranchOf(r.attributes, |r.attributes|)] else res)
  {
    var first, middle := [WORKTREE + r.path], AttributeLines(r.attributes, |r.attributes|);
    var open := Parser(Strip(r.path), "", false, res);
    WorktreeStep(d, Idle(res), r.path);
    assert Fold(d, Idle(res), first, 1) == open;
    FoldConcat(d, Idle(res), first, middle, |middle|);
    FoldAttributes(d, open, r.attributes, |r.attributes|);
    FoldConcat(d, Idle(res), first + middle, [""], 1);
    BlankStep(d, Fold(d, open, middle, |middle|));
  }

  lemma BlankStep(d: Disk, p: Parser)
    ensures Step(d, p, "") == Flush(d, p)
    ensures Fold(d, p, [""], 1) == Flush(d, p)
  {
    assert Strip("") == "";
  }

  lemma {:induction false} FoldRecords(d: Disk, rs: seq<Record>, n: nat)
    requires n <= |rs|
    ensures Fold(d, START, AllLines(rs, n), |AllLines(rs, n)|) == Idle(Expected(d, rs, n))
  {
    hide RecordLines, Linked, Flush, Step, BranchOf;
    if n > 0 {
      var r := rs[n - 1];
      FoldRecords(d, rs, n - 1);
      FoldConcat(d, START, AllLines(rs, n - 1), RecordLines(r), |RecordLines(r)|);
      FoldRecord(d, Expected(d, rs, n - 1), r);
    }
  }

  // ---------------------------------------------------------------- the whole text

  lemma {:induction false} LinesAreUnbroken(rs: seq<Record>, n: nat, i: nat)
    requires n <= |rs| && i < |AllLines(rs, n)| && forall k :: 0 <= k < |rs| ==> Unbroken(rs[k])
    ensures '\n' !in AllLines(rs, n)[i]
  {
    var before := AllLines(rs, n - 1);
    if i < |before| {
      LinesAreUnbroken(rs, n - 1, i);
    } else {
      var r, j := rs[n - 1], i - |before|;
      assert AllLines(rs, n)[i] == RecordLines(r)[j];
      assert Unbroken(r);
      if 0 < j < |r.attributes| + 1 {
        AttributeLineAt(r.attributes, |r.attributes|, j - 1);
      } else if j == 0 {
        assert '\n' !in WORKTREE;
      }
    }
  }

  lemma {:induction false} AttributeLineAt(attributes: seq<Attribute>, n: nat, i: nat)
    requires i < n <= |attributes|
    ensures AttributeLines(attributes, n)[i] == AttributeLine(attributes[i])
  {
    if i < n - 1 { AttributeLineAt(attributes, n - 1, i); }
  }

  // Dropping the last blank line, or adding one, changes nothing.
  lemma BlankAtTheEnd(d: Disk, lines: seq<string>)
    ensures Parsed(d, lines + [""]) == Parsed(d, lines)
  {
    var p := Fold(d, START, lines, |lines|);
    FoldConcat(d, START, lines, [""], 1);
    BlankStep(d, p);
  }

  /** Parsing what git prints gives exactly the linked worktrees and their branches,
      in whatever order the flags come, with or without the blank line at the end. */
  lemma ParserInvertsPrinter(d: Disk, rs: seq<Record>)
    requires forall k :: 0 <= k < |rs| ==> Unbroken(rs[k])
    ensures Parsed(d, Split(Printed(rs), '\n')) == Expected(d, rs, |rs|)
    ensures rs != [] ==> Parsed(d, Split(PrintedShort(rs), '\n')) == Expected(d, rs, |rs|)
  {
    var lines := AllLines(rs, |rs|);
    forall i | 0 <= i < |lines| ensures '\n' !in lines[i] { LinesAreUnbroken(rs, |rs|, i); }
    SplitOfJoin(lines + [""], '\n');
    BlankAtTheEnd(d, lines);
    FoldRecords(d, rs, |rs|);
    if rs != [] {
      var short := lines[..|lines| - 1];
      SplitOfJoin(short + [""], '\n');
      assert short + [""] == lines;
    }
  }

  // ---------------------------------------------------------------- which worktrees those are

  predicate DistinctPaths(rs: seq<Record>, n: nat)
    requires n <= |rs|
  {
    forall i, j :: 0 <= i < j < n ==> Strip(rs[i].path) != Strip(rs[j].path)
  }

  lemma {:induction false} ExpectedKeys(d: Disk, rs: seq<Record>, n: nat, path: string)
    requires n <= |rs| && path in Expected(d, rs, n)
    ensures exists i :: 0 <= i < n && Linked(d, rs[i]) && Strip(rs[i].path) == path
  {
    if !(Linked(d, rs[n - 1]) && Strip(rs[n - 1].path) == path) {
      ExpectedKeys(d, rs, n - 1, path);
    }
  }

  /** With distinct paths, a record's path is in the result exactly when the worktree
      is linked, on a branch and not prunable, and then it maps to that branch. */
  lemma {:induction false} ExpectedIs(d: Disk, rs: seq<Record>, n: nat, i: nat)
    requires i < n <= |rs| && DistinctPaths(rs, n)
    ensures Strip(rs[i].path) in Expected(d, rs, n) <==> Linked(d, rs[i])
    ensures Linked(d, rs[i]) ==> Expected(d, rs, n)[Strip(rs[i].path)] == BranchOf(rs[i].attributes, |rs[i].attributes|)
  {
    var path := Strip(rs[i].path);
    if i < n - 1 {
      ExpectedIs(d, rs, n - 1, i);
    } else if path in Expected(d, rs, n - 1) {
      ExpectedKeys(d, rs, n - 1, path);
    }
  }

  lemma StripFixes(s: string)
    ensures Strip(s) == s <==> s == "" || s[|s| - 1] != '\r'
  {
    TrimRightIs(s, IsReturn);
  }

  lemma {:induction false} KeysAreStripped(d: Disk, rs: seq<Record>, n: nat, path: string)
    requires n <= |rs| && path in Expected(d, rs, n)
    ensures Strip(path) == path
  {
    ExpectedKeys(d, rs, n, path);
    var i :| 0 <= i < n && Linked(d, rs[i]) && Strip(rs[i].path) == path;
    TrimRightIs(rs[i].path, IsReturn);
    StripFixes(path);
  }

  lemma {:induction false} LinkedIsListed(d: Disk, rs: seq<Record>, n: nat, i: nat)
    requires i < n <= |rs| && Linked(d, rs[i])
    ensures Strip(rs[i].path) in Expected(d, rs, n)
  {
    if i < n - 1 { LinkedIsListed(d, rs, n - 1, i); }
  }

  /** In any listing, a linked worktree is listed under its own path exactly when that path
      does not end in a carriage return. */
  lemma PathReadBackIff(d: Disk, rs: seq<Record>, i: nat)
    requires i < |rs| && Linked(d, rs[i]) && forall k :: 0 <= k < |rs| ==> Unbroken(rs[k])
    ensures rs[i].path in Parsed(d, Split(Printed(rs), '\n')) <==> rs[i].path[|rs[i].path| - 1] != '\r'
  {
    hide Parsed, Printed, Expected;
    var path := rs[i].path;
    ParserInvertsPrinter(d, rs);
    StripFixes(path);
    LinkedIsListed(d, rs, |rs|, i);
    if path in Expected(d, rs, |rs|) { KeysAreStripped(d, rs, |rs|, path); }
  }
}
