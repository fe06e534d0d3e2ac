/** Looking for owned headings in a usage guide: fences, comments and indented code hide them. */
module UsageScan {
  import opened Text

  const OWNED := ["## Iron Rules", "## NL Routing", "## Memory Type Reference"]

  const OPEN_COMMENT := "<!--"
  const CLOSE_COMMENT := "-->"

  // ---------------------------------------------------------------- one line

  predicate IsBlank(c: char) { c == ' ' || c == '\t' }

  function Stripped(line: string): string { TrimLeft(line, IsBlank) }

  function Indent(line: string): int { |line| - |Stripped(line)| }

  // The length of the run of c at the front of s.
  function RunLength(s: string, c: char): (n: nat)
    ensures n <= |s| && (forall i :: 0 <= i < n ==> s[i] == c) && (n < |s| ==> s[n] != c)
  {
    if s != "" && s[0] == c then 1 + RunLength(s[1..], c) else 0
  }

  // A run of at least three backticks or tildes; length 0 when there is none.
  datatype Delim = Delim(c: char, n: nat)

  const NO_DELIM := Delim('\0', 0)

  function Fence(line: string): Delim {
    if line == "" || (line[0] != '`' && line[0] != '~') || RunLength(line, line[0]) < 3 then NO_DELIM
    else Delim(line[0], RunLength(line, line[0]))
  }

  method FenceDelim(line: string) returns (d: Delim)
    ensures d == Fence(line)
  {
    if line == "" { return NO_DELIM; }
    var c := line[0];
    if c != '`' && c != '~' { return NO_DELIM; }
    var n := 0;
    while n < |line| && line[n] == c
      invariant n <= |line| && forall i :: 0 <= i < n ==> line[i] == c
    {
      n := n + 1;
    }
    RunIs(line, c, n);
    if n < 3 { return NO_DELIM; }
    d := Delim(c, n);
  }

  lemma RunIs(s: string, c: char, n: nat)
    requires n <= |s| && (forall i :: 0 <= i < n ==> s[i] == c) && (n < |s| ==> s[n] != c)
    ensures RunLength(s, c) == n
  {
    var m := RunLength(s, c);
    if m < n { assert false; }
    if n < m { assert false; }
  }

  // ---------------------------------------------------------------- the walk

  // Where the walk stands between two lines.
  datatype Mode = Open | InFence(c: char, n: nat) | InComment

  predicate Closes(line: string, c: char, n: nat) {
    Fence(Stripped(line)).c == c && Fence(Stripped(line)).n >= n && Indent(line) <= 3
  }

  predicate OpensFence(line: string) { Fence(Stripped(line)).n > 0 && Indent(line) <= 3 }

  predicate StartsComment(line: string) { Contains(line, OPEN_COMMENT) }

  predicate LeavesCommentOpen(line: string) {
    Contains(line, OPEN_COMMENT) && !Contains(line[Index(line, OPEN_COMMENT)..], CLOSE_COMMENT)
  }

  function Next(m: Mode, line: string): Mode {
    match m
    case InComment => if Contains(line, CLOSE_COMMENT) then Open else InComment
    case InFence(c, n) => if Closes(line, c, n) then Open else m
    case Open =>
      if OpensFence(line) then InFence(Fence(Stripped(line)).c, Fence(Stripped(line)).n)
      else if LeavesCommentOpen(line) then InComment
      else Open
  }

  // The heading a line carries when the walk is in the open, or "".
  function HeadingOf(line: string): string {
    if OpensFence(line) || StartsComment(line) || Indent(line) >= 4 then "" else TrimSpace(line)
  }

  function ModeAfter(lines: seq<string>, n: nat): Mode
    requires n <= |lines|
  {
    if n == 0 then Open else Next(ModeAfter(lines, n - 1), lines[n - 1])
  }

  /** Line k is a heading h: the lines before it leave no fence and no comment open,
      and the line itself is one. */
  predicate HeadingAt(lines: seq<string>, k: int, h: string) {
    0 <= k < |lines| && ModeAfter(lines, k) == Open && HeadingOf(lines[k]) == h
  }

  predicate Carries(lines: seq<string>, h: string) {
    exists k :: 0 <= k < |lines| && HeadingAt(lines, k, h)
  }

  // The search for a heading in one text, and in either of two.
  function Finds(lines: seq<string>): string -> bool { h => Carries(lines, h) }

  function FindsEither(a: seq<string>, b: seq<string>): string -> bool { h => Carries(a, h) || Carries(b, h) }

  predicate WellFormed(lines: seq<string>) { ModeAfter(lines, |lines|) == Open }

  // The first n owned headings of which `has` holds, in template order, without their "## ".
  function Reported(has: string -> bool, n: nat): seq<string>
    requires n <= |OWNED|
  {
    if n == 0 then []
    else if has(OWNED[n - 1]) then Reported(has, n - 1) + [TrimPrefix(OWNED[n - 1], "## ")]
    else Reported(has, n - 1)
  }

  // The mode the loop's variables stand for.
  function Current(c: char, n: nat, comment: bool): Mode {
    if comment then InComment else if n > 0 then InFence(c, n) else Open
  }

  datatype Scan = Scan(found: seq<string>, wellFormed: bool)

  // A heading among the first n lines.
  predicate SeenBefore(lines: seq<string>, n: nat, h: string) {
    exists k :: 0 <= k < n && HeadingAt(lines, k, h)
  }

  /** One pass over the body: exactly the owned headings that really stand in it, and
      whether the pass got to the end in the open. */
  method ScanUsageSections(body: string) returns (scan: Scan)
    ensures var lines := Split(body, '\n');
            scan == Scan(Reported(Finds(lines), |OWNED|), WellFormed(lines))
    // What is reported, written out: exactly the three headings that stand in the body, in template order.
    ensures var lines := Split(body, '\n');
            scan.found == (if Carries(lines, "## Iron Rules") then ["Iron Rules"] else [])
                         + (if Carries(lines, "## NL Routing") then ["NL Routing"] else [])
                         + (if Carries(lines, "## Memory Type Reference") then ["Memory Type Reference"] else [])
    ensures var lines := Split(body, '\n');
            forall name :: name in scan.found <==>
              ("## " + name) in ["## Iron Rules", "## NL Routing", "## Memory Type Reference"] && Carries(lines, "## " + name)
  {
    hide Fence, Stripped, TrimSpace, Contains, Carries, Split;
    var lines := Split(body, '\n');
    var seen: set<string> := {};
    var fenceChar, fenceLen, inComment := '\0', 0, false;
    for i := 0 to |lines|
      invariant fenceLen >= 0 && (inComment ==> fenceLen == 0)
      invariant Current(fenceChar, fenceLen, inComment) == ModeAfter(lines, i)
      invariant forall h :: h in seen <==> h in OWNED && SeenBefore(lines, i, h)
    {
      var line := lines[i];
      var d := FenceDelim(Stripped(line));
      if inComment {
        if Contains(line, CLOSE_COMMENT) { inComment := false; }
      } else if fenceLen > 0 {
        if d.c == fenceChar && d.n >= fenceLen && Indent(line) <= 3 { fenceLen := 0; }
      } else if d.n > 0 && Indent(line) <= 3 {
        fenceChar, fenceLen := d.c, d.n;
      } else if Index(line, OPEN_COMMENT) >= 0 {
        if !Contains(line[Index(line, OPEN_COMMENT)..], CLOSE_COMMENT) { inComment := true; }
      } else if Indent(line) < 4 {
        if TrimSpace(line) in OWNED { seen := seen + {TrimSpace(line)}; }
      }
      OneMoreLine(lines, i);
    }
    AllLinesSeen(lines);
    var found := [];
    for k := 0 to |OWNED|
      invariant found == Reported(Finds(lines), k)
    {
      if OWNED[k] in seen { found := found + [TrimPrefix(OWNED[k], "## ")]; }
    }
    scan := Scan(found, fenceLen == 0 && !inComment);
    ReportedIs(Finds(lines));
    ReportedNames(Finds(lines));
  }

  // The report, written out.
  lemma ReportedIs(has: string -> bool)
    ensures Reported(has, |OWNED|)
         == (if has("## Iron Rules") then ["Iron Rules"] else [])
          + (if has("## NL Routing") then ["NL Routing"] else [])
          + (if has("## Memory Type Reference") then ["Memory Type Reference"] else [])
  {
    assert OWNED[0] == "## " + "Iron Rules" && OWNED[1] == "## " + "NL Routing" && OWNED[2] == "## " + "Memory Type Reference";
    TrimPrefixOf("## ", "Iron Rules");
    TrimPrefixOf("## ", "NL Routing");
    TrimPrefixOf("## ", "Memory Type Reference");
    assert Reported(has, 0) == [];
    assert Reported(has, 1) == if has("## Iron Rules") then ["Iron Rules"] else [];
    assert Reported(has, 2) == Reported(has, 1) + if has("## NL Routing") then ["NL Routing"] else [];
  }

  lemma ReportedNames(has: string -> bool)
    ensures forall name :: name in Reported(has, |OWNED|) <==>
              ("## " + name) in ["## Iron Rules", "## NL Routing", "## Memory Type Reference"] && has("## " + name)
  {
    hide Reported;
    ReportedIs(has);
    forall name
      ensures name in Reported(has, |OWNED|) <==>
                ("## " + name) in ["## Iron Rules", "## NL Routing", "## Memory Type Reference"] && has("## " + name)
    {
      OneOfThree(name);
      InThree(name, "Iron Rules", "NL Routing", "Memory Type Reference",
              has("## Iron Rules"), has("## NL Routing"), has("## Memory Type Reference"));
    }
  }

  lemma OneOfThree(name: string)
    ensures "## " + name == "## Iron Rules" <==> name == "Iron Rules"
    ensures "## " + name == "## NL Routing" <==> name == "NL Routing"
    ensures "## " + name == "## Memory Type Reference" <==> name == "Memory Type Reference"
  {
    assert "## " + "Iron Rules" == "## Iron Rules" && "## " + "NL Routing" == "## NL Routing";
    assert "## " + "Memory Type Reference" == "## Memory Type Reference";
    SameName(name, "Iron Rules");
    SameName(name, "NL Routing");
    SameName(name, "Memory Type Reference");
  }

  lemma InThree(x: string, a: string, b: string, c: string, p: bool, q: bool, r: bool)
    ensures x in (if p then [a] else []) + (if q then [b] else []) + (if r then [c] else []) <==>
            (p && x == a) || (q && x == b) || (r && x == c)
  {
  }

  lemma SameName(a: string, b: string)
    ensures "## " + a == "## " + b <==> a == b
  {
    assert ("## " + a)[3..] == a && ("## " + b)[3..] == b;
  }

  lemma AllLinesSeen(lines: seq<string>)
    ensures forall h :: SeenBefore(lines, |lines|, h) <==> Carries(lines, h)
  {
  }

  lemma OneMoreLine(lines: seq<string>, i: nat)
    requires i < |lines|
    ensures forall h :: SeenBefore(lines, i + 1, h) <==> SeenBefore(lines, i, h) || HeadingAt(lines, i, h)
  {
    forall h ensures SeenBefore(lines, i + 1, h) <==> SeenBefore(lines, i, h) || HeadingAt(lines, i, h) {
    }
  }

  // ---------------------------------------------------------------- two bodies, one after the other

  lemma {:induction false} ModePrefix(a: seq<string>, b: seq<string>, n: nat)
    requires n <= |a|
    ensures ModeAfter(a + b, n) == ModeAfter(a, n)
  {
    if n > 0 { ModePrefix(a, b, n - 1); }
  }

  lemma {:induction false} ModeConcat(a: seq<string>, b: seq<string>, n: nat)
    requires n <= |b| && WellFormed(a)
    ensures ModeAfter(a + b, |a| + n) == ModeAfter(b, n)
  {
    if n == 0 {
      ModePrefix(a, b, |a|);
    } else {
      ModeConcat(a, b, n - 1);
      assert (a + b)[|a| + n - 1] == b[n - 1];
    }
  }

  lemma HeadingAtConcat(a: seq<string>, b: seq<string>, k: int, h: string)
    requires WellFormed(a) && 0 <= k < |a + b|
    ensures HeadingAt(a + b, k, h) <==> if k < |a| then HeadingAt(a, k, h) else HeadingAt(b, k - |a|, h)
  {
    hide HeadingOf, Next;
    if k < |a| { ModePrefix(a, b, k); } else { ModeConcat(a, b, k - |a|); }
  }

  lemma CarriesConcat(a: seq<string>, b: seq<string>, h: string)
    requires WellFormed(a)
    ensures Carries(a + b, h) <==> Carries(a, h) || Carries(b, h)
  {
    hide HeadingAt, WellFormed;
    if Carries(a, h) {
      var k :| 0 <= k < |a| && HeadingAt(a, k, h);
      HeadingAtConcat(a, b, k, h);
    }
    if Carries(b, h) {
      var k :| 0 <= k < |b| && HeadingAt(b, k, h);
      HeadingAtConcat(a, b, |a| + k, h);
    }
    if Carries(a + b, h) {
      var k :| 0 <= k < |a + b| && HeadingAt(a + b, k, h);
      HeadingAtConcat(a, b, k, h);
    }
  }

  lemma {:induction false} ReportedAgree(f: string -> bool, g: string -> bool, n: nat)
    requires n <= |OWNED| && forall k :: 0 <= k < n ==> f(OWNED[k]) == g(OWNED[k])
    ensures Reported(f, n) == Reported(g, n)
  {
    if n > 0 { ReportedAgree(f, g, n - 1); }
  }

  lemma EitherFinds(a: seq<string>, b: seq<string>)
    requires WellFormed(a)
    ensures forall k :: 0 <= k < |OWNED| ==> Finds(a + b)(OWNED[k]) == FindsEither(a, b)(OWNED[k])
  {
    hide Carries, WellFormed;
    forall k | 0 <= k < |OWNED| ensures Finds(a + b)(OWNED[k]) == FindsEither(a, b)(OWNED[k]) { CarriesConcat(a, b, OWNED[k]); }
  }

  function ScanOf(body: string): Scan {
    var lines := Split(body, '\n');
    Scan(Reported(Finds(lines), |OWNED|), WellFormed(lines))
  }

  lemma LinesCompose(la: seq<string>, lb: seq<string>)
    requires WellFormed(la)
    ensures Reported(Finds(la + lb), |OWNED|) == Reported(FindsEither(la, lb), |OWNED|)
    ensures WellFormed(la + lb) == WellFormed(lb)
  {
    hide Carries, Reported, ModeAfter, Finds, FindsEither;
    ModeConcat(la, lb, |lb|);
    EitherFinds(la, lb);
    ReportedAgree(Finds(la + lb), FindsEither(la, lb), |OWNED|);
  }

  /** Behind a well-formed body, a second one is scanned as if it stood alone: the
      findings are those of both, in template order, and it ends as the second does. */
  lemma ScansCompose(a: string, b: string)
    requires ScanOf(a).wellFormed
    ensures var la, lb := Split(a, '\n'), Split(b, '\n');
            ScanOf(a + ['\n'] + b) == Scan(Reported(FindsEither(la, lb), |OWNED|), ScanOf(b).wellFormed)
  {
    hide WellFormed, Reported, Split, Finds, FindsEither;
    SplitConcat(a, b, '\n');
    LinesCompose(Split(a, '\n'), Split(b, '\n'));
  }

  // ---------------------------------------------------------------- comments and headings, written out

  /** A comment ends on the first line that holds "-->", and starts on a line in the open that opens
      no fence and holds a "<!--" with no "-->" behind the first of them. */
  lemma CommentsAre(line: string)
    ensures Next(InComment, line) == if Contains(line, "-->") then Open else InComment
    ensures Next(Open, line) == InComment <==>
            && !OpensFence(line) && Contains(line, "<!--")
            && !Contains(line[Index(line, "<!--")..], "-->")
    ensures Next(Open, line) == Open <==>
            !OpensFence(line) && (Contains(line, "<!--") ==> Contains(line[Index(line, "<!--")..], "-->"))
  {
    hide Contains, OpensFence;
  }

  /** A fence is opened by three or more backticks or tildes behind at most three blanks, and closed
      by at least as many of the same. */
  lemma FencesAre(blanks: string, c: char, run: string, more: string)
    requires (forall i :: 0 <= i < |blanks| ==> blanks[i] == ' ') && (forall i :: 0 <= i < |run| ==> run[i] == c)
    requires (c == '`' || c == '~') && run != "" && (more != "" ==> more[0] != c)
    ensures var line := blanks + run + more;
            && (OpensFence(line) <==> |run| >= 3 && |blanks| <= 3)
            && (|run| >= 3 && |blanks| <= 3 ==> Next(Open, line) == InFence(c, |run|))
            && forall d, n :: n >= 3 ==> (Next(InFence(d, n), line) == Open <==> d == c && |run| >= n && |blanks| <= 3)
  {
    var line := blanks + run + more;
    StripBlanks(blanks, run + more);
    assert line == blanks + (run + more);
    RunIs(run + more, c, |run|);
  }

  lemma {:induction false} StripBlanks(blanks: string, rest: string)
    requires (forall i :: 0 <= i < |blanks| ==> IsBlank(blanks[i])) && (rest != "" ==> !IsBlank(rest[0]))
    ensures Stripped(blanks + rest) == rest
  {
    if blanks == "" {
      assert blanks + rest == rest;
    } else {
      assert (blanks + rest)[1..] == blanks[1..] + rest;
      StripBlanks(blanks[1..], rest);
    }
  }

  predicate AllSpace(s: string) { forall i :: 0 <= i < |s| ==> IsSpace(s[i]) }

  // The texts around a heading: only white space, and at most three blanks in front.
  predicate Around(line: string, h: string, pre: string, post: string) {
    line == pre + h + post && AllSpace(pre) && AllSpace(post) && Indent(line) <= 3
  }

  /** A line in the open is an owned heading exactly when it holds nothing else but white space,
      with fewer than four blanks at its front. */
  lemma OwnedHeadingIff(line: string, h: string)
    requires h in ["## Iron Rules", "## NL Routing", "## Memory Type Reference"]
    ensures HeadingOf(line) == h <==> exists pre: string, post: string :: Around(line, h, pre, post)
  {
    hide Indent, Contains;
    OwnedIs(h);
    if HeadingOf(line) == h {
      var pre, post := TrimmedFrom(line);
      assert Around(line, h, pre, post);
    }
    if pre: string, post: string :| Around(line, h, pre, post) {
      TrimAround(pre, h, post);
      NotHidden(pre, h, post);
    }
  }

  lemma OwnedIs(h: string)
    requires h in ["## Iron Rules", "## NL Routing", "## Memory Type Reference"]
    ensures h != "" && h[0] == '#' && !IsSpace(h[|h| - 1]) && '<' !in h && '`' !in h && '~' !in h
  {
    if h == "## Iron Rules" { Iron(); } else if h == "## NL Routing" { Routing(); } else { Reference(); }
  }

  lemma Iron()
    ensures var h := "## Iron Rules"; !IsSpace(h[|h| - 1]) && '<' !in h && '`' !in h && '~' !in h
  {
  }

  lemma Routing()
    ensures var h := "## NL Routing"; !IsSpace(h[|h| - 1]) && '<' !in h && '`' !in h && '~' !in h
  {
  }

  lemma Reference()
    ensures var h := "## Memory Type Reference"; !IsSpace(h[|h| - 1]) && '<' !in h && '`' !in h && '~' !in h
  {
  }

  lemma TrimmedFrom(s: string) returns (pre: string, post: string)
    ensures s == pre + TrimSpace(s) + post && AllSpace(pre) && AllSpace(post)
  {
    var l := TrimLeft(s, IsSpace);
    TrimLeftIs(s, IsSpace);
    TrimRightIs(l, IsSpace);
    pre, post := s[..|s| - |l|], l[|TrimSpace(s)|..];
  }

  lemma {:induction false} TrimAround(pre: string, h: string, post: string)
    requires AllSpace(pre) && AllSpace(post) && h != "" && !IsSpace(h[0]) && !IsSpace(h[|h| - 1])
    ensures TrimSpace(pre + h + post) == h
  {
    if pre == "" {
      assert pre + h + post == h + post;
      assert TrimLeft(h + post, IsSpace) == h + post;
      TrimBehind(h, post);
    } else {
      assert (pre + h + post)[1..] == pre[1..] + h + post && (pre + h + post)[0] == pre[0];
      TrimAround(pre[1..], h, post);
    }
  }

  lemma {:induction false} TrimBehind(h: string, post: string)
    requires AllSpace(post) && h != "" && !IsSpace(h[|h| - 1])
    ensures TrimRight(h + post, IsSpace) == h
  {
    if post == "" {
      assert h + post == h;
    } else {
      assert (h + post)[..|h + post| - 1] == h + post[..|post| - 1];
      TrimBehind(h, post[..|post| - 1]);
    }
  }

  // No fence and no comment starts on such a line.
  lemma NotHidden(pre: string, h: string, post: string)
    requires AllSpace(pre) && AllSpace(post) && '<' !in h && '`' !in h && '~' !in h
    ensures !StartsComment(pre + h + post) && !OpensFence(pre + h + post)
  {
    var line := pre + h + post;
    assert '<' !in pre && '<' !in post && '`' !in pre && '`' !in post && '~' !in pre && '~' !in post;
    forall i | 0 <= i <= |line| ensures !OccursAt(line, OPEN_COMMENT, i) {
      if OccursAt(line, OPEN_COMMENT, i) { OccursFirst(line, OPEN_COMMENT, i); }
    }
    TrimLeftIs(line, IsBlank);
  }
}
