/** The walk's fences beside those of CommonMark: where the two part, line by line. */
module FenceRules {
  import opened Text
  import opened UsageScan

  // ---------------------------------------------------------------- a line as CommonMark 0.31 reads it

  predicate IsReturn(c: char) { c == '\r' }

  // Section 2.1: carriage returns at the end of a line are line endings, not text.
  function Content(line: string): string { TrimRight(line, IsReturn) }

  // Section 2.2: a tab takes the text to the next multiple of four columns.
  function ColumnFrom(s: string, column: nat): nat {
    if s == "" || !IsBlank(s[0]) then column
    else ColumnFrom(s[1..], if s[0] == '\t' then (column / 4 + 1) * 4 else column + 1)
  }

  function Columns(line: string): nat { ColumnFrom(line, 0) }

  // What stands behind the fence characters.
  function InfoString(line: string): string { Stripped(line)[Fence(Stripped(line)).n..] }

  predicate AllBlank(s: string) { forall i :: 0 <= i < |s| ==> IsBlank(s[i]) }

  // Section 4.5: up to three columns in front, and no backtick in the info string of a backtick fence.
  predicate OpensAsSpecified(line: string) {
    var t := Content(line);
    Fence(Stripped(t)).n > 0 && Columns(t) <= 3 && (Fence(Stripped(t)).c == '`' ==> '`' !in InfoString(t))
  }

  // ... and only blanks behind a closing fence.
  predicate ClosesAsSpecified(line: string, c: char, n: nat) {
    var t := Content(line);
    Fence(Stripped(t)).c == c && Fence(Stripped(t)).n >= n && Columns(t) <= 3 && AllBlank(InfoString(t))
  }

  // The walk with those rules for fences, and its own for comments.
  function NextAsSpecified(m: Mode, line: string): Mode {
    match m
    case InComment => Next(m, line)
    case InFence(c, n) => if ClosesAsSpecified(line, c, n) then Open else m
    case Open =>
      if OpensAsSpecified(line) then InFence(Fence(Stripped(Content(line))).c, Fence(Stripped(Content(line))).n)
      else if LeavesCommentOpen(line) then InComment
      else Open
  }

  function SpecifiedModeAfter(lines: seq<string>, n: nat): Mode
    requires n <= |lines|
  {
    if n == 0 then Open else NextAsSpecified(SpecifiedModeAfter(lines, n - 1), lines[n - 1])
  }

  // ---------------------------------------------------------------- the lines on which the two part

  // A tab among the blanks in front of the text.
  predicate LeadingTab(line: string) {
    line != "" && IsBlank(line[0]) && (line[0] == '\t' || LeadingTab(line[1..]))
  }

  // Taken for an opening fence behind a tab, or with a backtick in its info string.
  predicate OpensOtherwise(line: string) {
    OpensFence(line) && (LeadingTab(line) || (Fence(Stripped(line)).c == '`' && '`' in InfoString(line)))
  }

  // Taken for a closing fence behind a tab, or with text behind it.
  predicate ClosesOtherwise(line: string, c: char, n: nat) {
    Closes(line, c, n) && (LeadingTab(line) || !AllBlank(InfoString(Content(line))))
  }

  predicate Deviates(m: Mode, line: string) {
    match m
    case Open => OpensOtherwise(line)
    case InFence(c, n) => ClosesOtherwise(line, c, n)
    case InComment => false
  }

  // ---------------------------------------------------------------- a carriage return at the end of a line

  lemma {:induction false} StrippedReturn(s: string)
    ensures Stripped(s + "\r") == Stripped(s) + "\r"
    ensures Indent(s + "\r") == Indent(s)
  {
    if s != "" && IsBlank(s[0]) {
      StrippedReturn(s[1..]);
      assert (s + "\r")[1..] == s[1..] + "\r";
    } else {
      assert s == "" ==> s + "\r" == "\r";
    }
  }

  lemma {:induction false} RunReturn(s: string, c: char)
    requires c != '\r'
    ensures RunLength(s + "\r", c) == RunLength(s, c)
  {
    if s != "" && s[0] == c {
      RunReturn(s[1..], c);
      assert (s + "\r")[1..] == s[1..] + "\r";
    } else {
      assert s == "" ==> s + "\r" == "\r";
    }
  }

  lemma FenceReturn(s: string)
    ensures Fence(s + "\r") == Fence(s)
  {
    if s == "" {
      assert s + "\r" == "\r";
    } else if s[0] == '`' || s[0] == '~' {
      RunReturn(s, s[0]);
    }
  }

  lemma {:induction false} TabReturn(s: string)
    ensures LeadingTab(s + "\r") <==> LeadingTab(s)
  {
    if s != "" && IsBlank(s[0]) {
      TabReturn(s[1..]);
      assert (s + "\r")[1..] == s[1..] + "\r";
    } else {
      assert s == "" ==> s + "\r" == "\r";
    }
  }

  lemma {:induction false} ColumnReturn(s: string, column: nat)
    ensures ColumnFrom(s + "\r", column) == ColumnFrom(s, column)
  {
    if s != "" && IsBlank(s[0]) {
      ColumnReturn(s[1..], if s[0] == '\t' then (column / 4 + 1) * 4 else column + 1);
      assert (s + "\r")[1..] == s[1..] + "\r";
    } else {
      assert s == "" ==> s + "\r" == "\r";
    }
  }

  // Everything the walk asks of a line in front of its text is the same with a carriage return behind.
  lemma FrontReturn(s: string)
    ensures Fence(Stripped(s + "\r")) == Fence(Stripped(s)) && Indent(s + "\r") == Indent(s)
    ensures Columns(s + "\r") == Columns(s)
    ensures InfoString(s + "\r") == InfoString(s) + "\r"
    ensures LeadingTab(s + "\r") <==> LeadingTab(s)
  {
    hide Fence, Stripped;
    StrippedReturn(s);
    FenceReturn(Stripped(s));
    ColumnReturn(s, 0);
    TabReturn(s);
    assert Fence(Stripped(s)).n <= |Stripped(s)| by { FenceFits(Stripped(s)); }
    Behind(Stripped(s), "\r", Fence(Stripped(s)).n);
  }

  lemma FenceFits(s: string)
    ensures Fence(s).n <= |s|
  {
  }

  lemma Behind(a: string, b: string, n: nat)
    requires n <= |a|
    ensures (a + b)[n..] == a[n..] + b
  {
  }

  lemma {:induction false} ContentFront(line: string)
    ensures Fence(Stripped(Content(line))) == Fence(Stripped(line)) && Indent(Content(line)) == Indent(line)
    ensures Columns(Content(line)) == Columns(line)
    ensures '`' in InfoString(Content(line)) <==> '`' in InfoString(line)
    ensures LeadingTab(Content(line)) <==> LeadingTab(line)
  {
    hide Fence, Stripped, Indent, Columns;
    if line != "" && line[|line| - 1] == '\r' {
      var s := line[..|line| - 1];
      assert line == s + "\r";
      ContentFront(s);
      FrontReturn(s);
    }
  }

  // ---------------------------------------------------------------- columns and blanks

  // Within the first three columns a column is a space: there is no tab.
  lemma {:induction false} ColumnsAre(s: string, column: nat)
    requires column <= 3
    ensures ColumnFrom(s, column) <= 3 <==> column + Indent(s) <= 3 && !LeadingTab(s)
  {
    if s != "" && IsBlank(s[0]) {
      IndentStep(s);
      if s[0] == '\t' {
        PastTheThird(s[1..], (column / 4 + 1) * 4);
      } else if column == 3 {
        PastTheThird(s[1..], 4);
      } else {
        ColumnsAre(s[1..], column + 1);
      }
    }
  }

  lemma IndentStep(s: string)
    requires s != "" && IsBlank(s[0])
    ensures Indent(s) == 1 + Indent(s[1..]) && Indent(s[1..]) >= 0
  {
    TrimLeftIs(s[1..], IsBlank);
  }

  lemma {:induction false} PastTheThird(s: string, column: nat)
    ensures ColumnFrom(s, column) >= column
  {
    if s != "" && IsBlank(s[0]) {
      PastTheThird(s[1..], if s[0] == '\t' then (column / 4 + 1) * 4 else column + 1);
    }
  }

  // ---------------------------------------------------------------- one line

  lemma OpensIff(line: string)
    ensures OpensAsSpecified(line) <==> OpensFence(line) && !OpensOtherwise(line)
  {
    hide Fence, Stripped, Indent, Content, InfoString;
    ContentFront(line);
    ColumnsAre(line, 0);
  }

  lemma ClosesIff(line: string, c: char, n: nat)
    ensures ClosesAsSpecified(line, c, n) <==> Closes(line, c, n) && !ClosesOtherwise(line, c, n)
  {
    hide Fence, Stripped, Indent, Content, InfoString, AllBlank;
    ContentFront(line);
    ColumnsAre(line, 0);
  }

  // From one mode the two walks go on alike exactly when the line does not deviate.
  lemma DeviatesIff(m: Mode, line: string)
    ensures NextAsSpecified(m, line) != Next(m, line) <==> Deviates(m, line)
  {
    hide OpensAsSpecified, ClosesAsSpecified, OpensFence, Closes, Fence, Stripped, Content, LeavesCommentOpen;
    match m {
      case Open => OpensIff(line); ContentFront(line);
      case InFence(c, n) => ClosesIff(line, c, n);
      case InComment =>
    }
  }

  // ---------------------------------------------------------------- whole bodies

  predicate NoneDeviates(lines: seq<string>) {
    forall k :: 0 <= k < |lines| ==> !Deviates(ModeAfter(lines, k), lines[k])
  }

  predicate Agree(lines: seq<string>, n: int) {
    0 <= n <= |lines| ==> SpecifiedModeAfter(lines, n) == ModeAfter(lines, n)
  }

  lemma {:induction false} ModesAgree(lines: seq<string>, n: nat)
    requires n <= |lines| && forall k :: 0 <= k < n ==> !Deviates(ModeAfter(lines, k), lines[k])
    ensures SpecifiedModeAfter(lines, n) == ModeAfter(lines, n)
  {
    hide Deviates, Next, NextAsSpecified;
    if n > 0 {
      ModesAgree(lines, n - 1);
      DeviatesIff(ModeAfter(lines, n - 1), lines[n - 1]);
    }
  }

  /** The walk follows CommonMark's fence rules on every line exactly when it takes no line for
      an opening fence behind a tab or with a backtick in a backtick fence's info string, and no
      line for a closing fence behind a tab or with text behind it. */
  lemma FencesAsSpecifiedIff(lines: seq<string>)
    ensures (forall n :: Agree(lines, n)) <==> NoneDeviates(lines)
  {
    hide Deviates, Next, NextAsSpecified;
    if NoneDeviates(lines) {
      forall n ensures Agree(lines, n) { if 0 <= n <= |lines| { ModesAgree(lines, n); } }
    } else {
      var k :| 0 <= k < |lines| && Deviates(ModeAfter(lines, k), lines[k]);
      DeviatesIff(ModeAfter(lines, k), lines[k]);
      assert Agree(lines, k) ==> !Agree(lines, k + 1);
    }
  }

  // ---------------------------------------------------------------- headings

  // Sections 4.2 and 4.4: behind four columns or more a line is no heading.
  predicate IndentedTooFar(line: string) { Columns(line) >= 4 }

  /** A line read as a heading stands too far in for one exactly when a tab stands in front of it. */
  lemma IndentedHeadingIff(line: string)
    requires HeadingOf(line) != ""
    ensures IndentedTooFar(line) <==> LeadingTab(line)
  {
    hide OpensFence, StartsComment, TrimSpace, ColumnFrom;
    ColumnsAre(line, 0);
  }

  // Line k is an owned heading h by CommonMark's rules.
  predicate SpecifiedHeadingAt(lines: seq<string>, k: int, h: string) {
    && 0 <= k < |lines| && SpecifiedModeAfter(lines, k) == Open
    && HeadingOf(lines[k]) == h && !IndentedTooFar(lines[k])
  }

  predicate SpecifiedCarries(lines: seq<string>, h: string) {
    exists k :: 0 <= k < |lines| && SpecifiedHeadingAt(lines, k, h)
  }

  function SpecifiedFinds(lines: seq<string>): string -> bool { h => SpecifiedCarries(lines, h) }

  predicate NoTabbedHeading(lines: seq<string>) {
    forall k :: 0 <= k < |lines| && ModeAfter(lines, k) == Open && HeadingOf(lines[k]) in OWNED ==> !LeadingTab(lines[k])
  }

  /** A body without such lines is reported on as CommonMark's fences and columns have it. */
  lemma ScanAsSpecified(body: string)
    requires NoneDeviates(Split(body, '\n')) && NoTabbedHeading(Split(body, '\n'))
    ensures var lines := Split(body, '\n');
            && ScanOf(body).found == (if SpecifiedCarries(lines, "## Iron Rules") then ["Iron Rules"] else [])
                         + (if SpecifiedCarries(lines, "## NL Routing") then ["NL Routing"] else [])
                         + (if SpecifiedCarries(lines, "## Memory Type Reference") then ["Memory Type Reference"] else [])
            && (ScanOf(body).wellFormed <==> SpecifiedModeAfter(lines, |lines|) == Open)
  {
    hide Split, HeadingOf, Deviates, IndentedTooFar, Reported;
    var lines := Split(body, '\n');
    ModesAgree(lines, |lines|);
    forall j | 0 <= j < |OWNED| ensures Finds(lines)(OWNED[j]) == SpecifiedFinds(lines)(OWNED[j]) {
      OwnedIsText(j);
      forall k ensures HeadingAt(lines, k, OWNED[j]) <==> SpecifiedHeadingAt(lines, k, OWNED[j]) {
        if 0 <= k < |lines| {
          ModesAgree(lines, k);
          if HeadingOf(lines[k]) == OWNED[j] { IndentedHeadingIff(lines[k]); }
        }
      }
      SameCarries(lines, OWNED[j]);
    }
    ReportedAgree(Finds(lines), SpecifiedFinds(lines), |OWNED|);
    ReportedIs(SpecifiedFinds(lines));
  }

  lemma OwnedIsText(j: nat)
    requires j < |OWNED|
    ensures OWNED[j] != "" && OWNED[j] in OWNED
  {
  }

  lemma SameCarries(lines: seq<string>, h: string)
    requires forall k :: HeadingAt(lines, k, h) <==> SpecifiedHeadingAt(lines, k, h)
    ensures Carries(lines, h) <==> SpecifiedCarries(lines, h)
  {
  }

  // ---------------------------------------------------------------- line endings

  // The same line, or the same with a carriage return at its end.
  predicate MayReturn(line: string, line': string) { line' == line || line' == line + "\r" }

  lemma ContainsReturn(s: string, m: string)
    requires m != "" && '\r' !in m
    ensures Contains(s + "\r", m) <==> Contains(s, m)
    ensures Index(s + "\r", m) == Index(s, m)
  {
    forall i ensures OccursAt(s + "\r", m, i) <==> OccursAt(s, m, i) { OccursReturn(s, m, i); }
    if Contains(s, m) {
      assert OccursAt(s + "\r", m, Index(s, m));
      IndexIs(s + "\r", m, Index(s, m));
    }
    if Contains(s + "\r", m) { assert OccursAt(s, m, Index(s + "\r", m)); }
  }

  lemma OccursReturn(s: string, m: string, i: int)
    requires m != "" && '\r' !in m
    ensures OccursAt(s + "\r", m, i) <==> OccursAt(s, m, i)
  {
    var t := s + "\r";
    if 0 <= i && i + |m| <= |s| { assert t[i..i + |m|] == s[i..i + |m|]; }
    if OccursAt(t, m, i) { OccursChar(t, m, i, |m| - 1); }
  }

  lemma OccursChar(s: string, m: string, i: int, k: nat)
    requires OccursAt(s, m, i) && k < |m|
    ensures s[i + k] == m[k] && m[k] in m
  {
    assert s[i..i + |m|][k] == s[i + k];
  }

  lemma CommentsReturn(s: string)
    ensures StartsComment(s + "\r") == StartsComment(s) && LeavesCommentOpen(s + "\r") == LeavesCommentOpen(s)
    ensures Contains(s + "\r", CLOSE_COMMENT) == Contains(s, CLOSE_COMMENT)
  {
    hide Contains, Index;
    ContainsReturn(s, OPEN_COMMENT);
    ContainsReturn(s, CLOSE_COMMENT);
    if Contains(s, OPEN_COMMENT) {
      var i := Index(s, OPEN_COMMENT);
      assert (s + "\r")[i..] == s[i..] + "\r";
      ContainsReturn(s[i..], CLOSE_COMMENT);
    }
  }

  lemma TrimReturn(s: string)
    ensures TrimSpace(s + "\r") == TrimSpace(s)
  {
    TrimLeftReturn(s);
    var t := TrimLeft(s, IsSpace);
    assert (t + "\r")[..|t|] == t;
  }

  lemma {:induction false} TrimLeftReturn(s: string)
    ensures TrimLeft(s + "\r", IsSpace) == if TrimLeft(s, IsSpace) == "" then "" else TrimLeft(s, IsSpace) + "\r"
  {
    if s == "" {
      assert s + "\r" == "\r" && TrimLeft("", IsSpace) == "";
    } else {
      assert (s + "\r")[1..] == s[1..] + "\r";
      if IsSpace(s[0]) { TrimLeftReturn(s[1..]); }
    }
  }

  lemma ReturnIsNothing(m: Mode, s: string)
    ensures Next(m, s + "\r") == Next(m, s) && HeadingOf(s + "\r") == HeadingOf(s)
  {
    hide Contains, LeavesCommentOpen, StartsComment, Fence, Stripped, Indent, TrimSpace;
    FrontReturn(s);
    CommentsReturn(s);
    TrimReturn(s);
  }

  lemma {:induction false} ModesReturn(lines: seq<string>, lines': seq<string>, n: nat)
    requires |lines| == |lines'| && n <= |lines| && forall k :: 0 <= k < |lines| ==> MayReturn(lines[k], lines'[k])
    ensures ModeAfter(lines', n) == ModeAfter(lines, n)
  {
    hide Next, HeadingOf;
    if n > 0 {
      ModesReturn(lines, lines', n - 1);
      assert MayReturn(lines[n - 1], lines'[n - 1]);
      ReturnIsNothing(ModeAfter(lines, n - 1), lines[n - 1]);
    }
  }

  /** Carriage returns at the end of any lines change nothing of what is reported. */
  lemma LineEndingsDoNotMatter(lines: seq<string>, lines': seq<string>, k: nat, h: string)
    requires |lines| == |lines'| && (forall j :: 0 <= j < |lines| ==> MayReturn(lines[j], lines'[j])) && k < |lines|
    ensures HeadingAt(lines', k, h) == HeadingAt(lines, k, h) && WellFormed(lines') == WellFormed(lines)
  {
    hide Next, HeadingOf, ModeAfter;
    ModesReturn(lines, lines', k);
    ModesReturn(lines, lines', |lines|);
    assert MayReturn(lines[k], lines'[k]);
    ReturnIsNothing(Open, lines[k]);
  }

  // ---------------------------------------------------------------- instances

  /** An info string closes the fence, and the heading behind it counts. */
  lemma InfoStringClosesFence()
    ensures var lines := ["```", "```go", "## Iron Rules"];
            HeadingAt(lines, 2, "## Iron Rules") && SpecifiedModeAfter(lines, 2) == InFence('`', 3)
  {
    var lines := ["```", "```go", "## Iron Rules"];
    hide HeadingOf, OpensAsSpecified, ClosesAsSpecified, Content, InfoString;
    AfterBackticks(lines);
    RunIs("```go", '`', 3);
    assert Closes("```go", '`', 3);
    BehindGo();
    ClosesIff("```go", '`', 3);
    assert ModeAfter(lines, 2) == Next(ModeAfter(lines, 1), lines[1]) == Open;
    assert SpecifiedModeAfter(lines, 2) == NextAsSpecified(SpecifiedModeAfter(lines, 1), lines[1]);
    PlainHeading();
  }

  lemma BehindGo()
    ensures !AllBlank(InfoString(Content("```go")))
  {
    assert Content("```go") == "```go";
    RunIs("```go", '`', 3);
    assert !IsBlank(InfoString("```go")[0]);
  }

  /** So does a fence behind a tab, which CommonMark reads as four columns. */
  lemma TabbedFenceCloses()
    ensures var lines := ["```", "\t```", "## Iron Rules"];
            HeadingAt(lines, 2, "## Iron Rules") && SpecifiedModeAfter(lines, 2) == InFence('`', 3)
  {
    var lines := ["```", "\t```", "## Iron Rules"];
    hide HeadingOf, OpensAsSpecified, ClosesAsSpecified, Content, InfoString;
    AfterBackticks(lines);
    assert "\t```"[1..] == "```" && Stripped("```") == "```";
    assert Stripped("\t```") == "```";
    RunIs("```", '`', 3);
    assert Closes("\t```", '`', 3);
    ClosesIff("\t```", '`', 3);
    assert ModeAfter(lines, 2) == Next(ModeAfter(lines, 1), lines[1]) == Open;
    assert SpecifiedModeAfter(lines, 2) == NextAsSpecified(SpecifiedModeAfter(lines, 1), lines[1]);
    PlainHeading();
  }

  /** A code span on a line of its own opens a fence, and the heading behind it is passed over. */
  lemma SpanOpensFence()
    ensures var lines := ["``` x ```", "## Iron Rules"];
            && ModeAfter(lines, 1) == InFence('`', 3) && !Carries(lines, "## Iron Rules")
            && SpecifiedHeadingAt(lines, 1, "## Iron Rules")
  {
    var lines := ["``` x ```", "## Iron Rules"];
    hide HeadingOf, OpensAsSpecified, Content;
    RunIs("``` x ```", '`', 3);
    assert Stripped("``` x ```") == "``` x ```";
    assert OpensFence("``` x ```");
    assert InfoString("``` x ```")[3] == '`';
    OpensIff("``` x ```");
    NoComment("``` x ```");
    assert ModeAfter(lines, 1) == Next(Open, lines[0]);
    assert SpecifiedModeAfter(lines, 1) == NextAsSpecified(Open, lines[0]) == Open;
    PlainHeading();
    SpanIsNoHeading();
  }

  lemma SpanIsNoHeading()
    ensures HeadingOf("``` x ```") != "## Iron Rules"
  {
    RunIs("``` x ```", '`', 3);
    assert Stripped("``` x ```") == "``` x ```";
  }

  /** A heading behind a tab counts although it is indented too far. */
  lemma TabbedHeadingCounts()
    ensures HeadingAt(["\t## Iron Rules"], 0, "## Iron Rules") && IndentedTooFar("\t## Iron Rules")
  {
    var line := "\t## Iron Rules";
    assert line[1..] == "## Iron Rules" && Stripped("## Iron Rules") == "## Iron Rules";
    assert Stripped(line) == "## Iron Rules";
    NoComment(line);
    assert line[|line| - 1] == 's';
    assert TrimLeft(line, IsSpace) == TrimLeft("## Iron Rules", IsSpace) == "## Iron Rules";
    assert HeadingOf(line) == "## Iron Rules";
    IndentedHeadingIff(line);
  }

  lemma AfterBackticks(lines: seq<string>)
    requires |lines| > 0 && lines[0] == "```"
    ensures ModeAfter(lines, 1) == SpecifiedModeAfter(lines, 1) == InFence('`', 3)
  {
    RunIs("```", '`', 3);
    assert Stripped("```") == "```" && Content("```") == "```";
    assert InfoString("```") == "";
    assert ModeAfter(lines, 0) == Open == SpecifiedModeAfter(lines, 0);
  }

  lemma NoComment(line: string)
    requires '<' !in line
    ensures !StartsComment(line)
  {
    forall i | 0 <= i <= |line| ensures !OccursAt(line, OPEN_COMMENT, i) {
      if OccursAt(line, OPEN_COMMENT, i) { OccursFirst(line, OPEN_COMMENT, i); }
    }
  }

  lemma PlainHeading()
    ensures HeadingOf("## Iron Rules") == "## Iron Rules" && !IndentedTooFar("## Iron Rules")
  {
    var line := "## Iron Rules";
    assert Stripped(line) == line;
    NoComment(line);
    assert line[|line| - 1] == 's';
    TrimSpaceFixes(line);
  }
}
