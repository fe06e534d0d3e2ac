/** Names of task worktree directories and the work items they stand for. */
module WorktreeNames {
  import opened Text

  const PF := "pf."

  // The project part of pf.<project>-<seq>, or "".
  function WorktreeProject(name: string): string {
    var rest := TrimPrefix(name, PF);
    var i := LastIndexChar(rest, '-');
    if i <= 0 || i == |rest| - 1 || !AllDigits(rest[i + 1..]) then "" else rest[..i]
  }

  // The slug <project>#<seq> of such a name, or "".
  function WorktreeSlug(name: string): string {
    var p := WorktreeProject(name);
    if p == "" then "" else p + "#" + TrimPrefix(name, PF + p + "-")
  }

  predicate IsBase62(c: char) { IsDigit(c) || 'A' <= c <= 'Z' || 'a' <= c <= 'z' }

  predicate AllBase62(s: string) { s != [] && forall i :: 0 <= i < |s| ==> IsBase62(s[i]) }

  // The 8-character id tail of pf.<ulid8> and pf.<seq>.<ulid8>, or "".
  function WorktreeUlid8(name: string): string {
    if !HasPrefix(name, PF) then ""
    else
      var rest := name[|PF|..];
      var dot := IndexChar(rest, '.');
      if dot >= 0 && !AllDigits(rest[..dot]) then ""
      else
        var tail := if dot >= 0 then rest[dot + 1..] else rest;
        if |tail| != 8 || !AllBase62(tail) then "" else tail
  }

  // What to ask the server about for a directory, or "" when there is nothing to ask.
  function WorktreeLookupKey(dir: string): string {
    if WorktreeSlug(dir) != "" then WorktreeSlug(dir)
    else if WorktreeUlid8(dir) != "" then "wi_" + WorktreeUlid8(dir)
    else ""
  }

  function Dashed(slug: string): (s: string)
    ensures |s| == |slug| && forall i :: 0 <= i < |s| ==> s[i] == if slug[i] == '#' then '-' else slug[i]
  {
    seq(|slug|, i requires 0 <= i < |slug| => if slug[i] == '#' then '-' else slug[i])
  }

  // The directory name of a work item's slug.
  function SlugDir(slug: string): string { PF + Dashed(slug) }

  // ---------------------------------------------------------------- the codec

  // Splitting on the last '-' finds exactly the sequence number.
  lemma SplitsOnLastDash(p: string, d: string)
    requires p != "" && AllDigits(d)
    ensures WorktreeProject(PF + (p + ['-'] + d)) == p && WorktreeSlug(PF + (p + ['-'] + d)) == p + "#" + d
  {
    var rest := p + ['-'] + d;
    TrimPrefixOf(PF, rest);
    DigitsExclude(d, '-');
    LastOf(p, '-', d);
    Parts(p, '-', d);
    assert PF + rest == (PF + p + "-") + d;
    TrimPrefixOf(PF + p + "-", d);
  }

  lemma DashedParts(p: string, d: string)
    requires AllDigits(d)
    ensures Dashed(p + ['#'] + d) == Dashed(p) + ['-'] + d
  {
    DigitsExclude(d, '#');
  }

  // Rewriting '#' changes nothing exactly when there is none.
  lemma DashedFixes(p: string)
    ensures Dashed(p) == p <==> '#' !in p
  {
    if '#' in p {
      var k :| 0 <= k < |p| && p[k] == '#';
      assert Dashed(p)[k] == '-';
    }
  }

  /** The codec round trip: reading back the directory of slug <p>#<d> gives that
      slug exactly when p is non-empty and contains no '#'. */
  lemma SlugRoundTrip(p: string, d: string)
    requires AllDigits(d)
    ensures WorktreeSlug(SlugDir(p + ['#'] + d)) == p + ['#'] + d <==> p != "" && '#' !in p
  {
    DashedParts(p, d);
    if p == "" {
      var rest := [] + ['-'] + d;
      assert Dashed(p) == [];
      assert SlugDir(p + ['#'] + d)[|PF|..] == rest;
      DigitsExclude(d, '-');
      LastOf([], '-', d);
    } else {
      SplitsOnLastDash(Dashed(p), d);
      DashedFixes(p);
      Parts(p, '#', d);
      Parts(Dashed(p), '#', d);
    }
  }

  /** Read the other way: a directory whose slug is S is the directory of S exactly
      when it has no '#' in it, so a key never stands for two such directories. */
  lemma DirRoundTrip(dir: string)
    requires HasPrefix(dir, PF) && WorktreeSlug(dir) != ""
    ensures SlugDir(WorktreeSlug(dir)) == dir <==> '#' !in dir
  {
    var p, d := DirDecomposes(dir);
    SplitsOnLastDash(p, d);
    SlugDirOf(p, d);
    DashedFixes(p);
    SameParts(p, Dashed(p), d);
    HashIn(p, d);
  }

  lemma DirDecomposes(dir: string) returns (p: string, d: string)
    requires HasPrefix(dir, PF) && WorktreeSlug(dir) != ""
    ensures p != "" && AllDigits(d) && dir == PF + (p + ['-'] + d)
  {
    var rest := TrimPrefix(dir, PF);
    var i := LastIndexChar(rest, '-');
    p, d := rest[..i], rest[i + 1..];
    PrefixSplits(dir, PF);
    SplitAt(rest, i);
  }

  lemma SlugDirOf(p: string, d: string)
    requires AllDigits(d)
    ensures SlugDir(p + "#" + d) == PF + (Dashed(p) + ['-'] + d)
  {
    assert p + "#" + d == p + ['#'] + d;
    DashedParts(p, d);
  }

  lemma SameParts(p: string, q: string, d: string)
    requires |p| == |q|
    ensures PF + (p + ['-'] + d) == PF + (q + ['-'] + d) <==> p == q
  {
    TrimPrefixOf(PF, p + ['-'] + d);
    TrimPrefixOf(PF, q + ['-'] + d);
    Parts(p, '-', d);
    Parts(q, '-', d);
  }

  lemma HashIn(p: string, d: string)
    requires AllDigits(d)
    ensures '#' in PF + (p + ['-'] + d) <==> '#' in p
  {
    DigitsExclude(d, '#');
    assert '#' in PF + (p + ['-'] + d) <==> '#' in PF || '#' in p || '#' in ['-'] || '#' in d;
  }

  /** The two legacy formats carry their id, in either form. */
  lemma UlidRoundTrip(u: string, d: string)
    requires |u| == 8 && AllBase62(u) && AllDigits(d)
    ensures WorktreeUlid8(PF + u) == u && WorktreeLookupKey(PF + u) == "wi_" + u
    ensures WorktreeUlid8(PF + (d + ['.'] + u)) == u && WorktreeLookupKey(PF + (d + ['.'] + u)) == "wi_" + u
  {
    assert (PF + u)[|PF|..] == u;
    assert '.' !in u by { assert forall i :: 0 <= i < |u| ==> IsBase62(u[i]); }
    assert (PF + (d + ['.'] + u))[|PF|..] == d + ['.'] + u;
    DigitsExclude(d, '.');
    FirstOf(d, '.', u);
    Parts(d, '.', u);
    UlidHasNoSlug(PF + u);
    UlidHasNoSlug(PF + (d + ['.'] + u));
  }

  /** No directory name reads both as a slug and as a legacy id. */
  lemma UlidHasNoSlug(name: string)
    requires WorktreeUlid8(name) != ""
    ensures WorktreeSlug(name) == ""
  {
    var rest := name[|PF|..];
    var dot := IndexChar(rest, '.');
    forall i | 0 <= i < |rest| ensures rest[i] != '-' {
      if dot < 0 {
        assert IsBase62(rest[i]);
      } else if i < dot {
        assert IsDigit(rest[..dot][i]);
      } else if i > dot {
        assert rest[dot + 1..][i - dot - 1] == rest[i] && IsBase62(rest[dot + 1..][i - dot - 1]);
      }
    }
  }

  // ---------------------------------------------------------------- the names, written out

  /** A project's directory, and what the server is asked about for it. */
  lemma NameOfSlug(p: string, d: string)
    requires p != "" && '#' !in p && AllDigits(d)
    ensures SlugDir(p + "#" + d) == "pf." + p + "-" + d
    ensures WorktreeProject("pf." + p + "-" + d) == p && WorktreeLookupKey("pf." + p + "-" + d) == p + "#" + d
  {
    assert p + "#" + d == p + ['#'] + d && PF + (p + ['-'] + d) == "pf." + p + "-" + d;
    DashedParts(p, d);
    DashedFixes(p);
    SplitsOnLastDash(p, d);
  }

  predicate IsLetterOrDigit(c: char) { '0' <= c <= '9' || 'A' <= c <= 'Z' || 'a' <= c <= 'z' }

  // An id tail: eight letters or digits, possibly behind a number and a dot.
  ghost predicate IsTail(rest: string, u: string) {
    && |u| == 8 && (forall i :: 0 <= i < 8 ==> IsLetterOrDigit(u[i]))
    && (rest == u || exists d: string :: d != "" && (forall i :: 0 <= i < |d| ==> '0' <= d[i] <= '9') && rest == d + ['.'] + u)
  }

  /** What a legacy name is, and the id it stands for. */
  lemma UlidIff(rest: string, u: string)
    requires u != ""
    ensures WorktreeUlid8("pf." + rest) == u <==> IsTail(rest, u)
  {
    hide IsTail, WorktreeUlid8;
    if WorktreeUlid8("pf." + rest) == u { UlidIsTail(rest, u); }
    if IsTail(rest, u) { TailIsUlid(rest, u); }
  }

  lemma UlidIsTail(rest: string, u: string)
    requires u != "" && WorktreeUlid8("pf." + rest) == u
    ensures IsTail(rest, u)
  {
    assert ("pf." + rest)[|PF|..] == rest;
    var dot := IndexChar(rest, '.');
    if dot >= 0 { SplitAt(rest, dot); }
  }

  lemma TailIsUlid(rest: string, u: string)
    requires IsTail(rest, u)
    ensures WorktreeUlid8("pf." + rest) == u
  {
    assert ("pf." + rest)[|PF|..] == rest;
    assert '.' !in u by { assert forall i :: 0 <= i < 8 ==> IsLetterOrDigit(u[i]); }
    if rest != u {
      var d: string :| d != "" && (forall i :: 0 <= i < |d| ==> '0' <= d[i] <= '9') && rest == d + ['.'] + u;
      FirstOf(d, '.', u);
      Parts(d, '.', u);
    }
  }

  ghost predicate IsProjectDir(name: string) {
    exists p: string, d: string :: p != "" && AllDigits(d) && name == "pf." + p + "-" + d
  }

  /** A name with the prefix has a project exactly when it ends in a dash and digits behind something. */
  lemma ProjectIff(name: string)
    requires HasPrefix(name, "pf.")
    ensures WorktreeProject(name) != "" <==> IsProjectDir(name)
  {
    hide IsProjectDir, WorktreeProject;
    if WorktreeProject(name) != "" { HasParts(name); }
    if IsProjectDir(name) { PartsGiveProject(name); }
  }

  lemma HasParts(name: string)
    requires HasPrefix(name, "pf.") && WorktreeProject(name) != ""
    ensures IsProjectDir(name)
  {
    hide HasPrefix, TrimPrefix;
    var p, d := DirDecomposes(name);
    assert name == "pf." + p + "-" + d;
  }

  lemma PartsGiveProject(name: string)
    requires IsProjectDir(name)
    ensures WorktreeProject(name) != ""
  {
    var p: string, d: string :| p != "" && AllDigits(d) && name == "pf." + p + "-" + d;
    assert name == PF + (p + ['-'] + d);
    SplitsOnLastDash(p, d);
  }

  /** There is nothing to ask about a name exactly when it is neither a project's nor a legacy one. */
  lemma NoKeyIff(rest: string)
    ensures WorktreeLookupKey("pf." + rest) == "" <==> !IsProjectDir("pf." + rest) && !exists u: string :: IsTail(rest, u)
  {
    hide IsProjectDir, IsTail, WorktreeUlid8, WorktreeProject;
    var name := "pf." + rest;
    ProjectIff(name);
    var u := WorktreeUlid8(name);
    if u != "" { UlidIff(rest, u); }
    if v: string :| IsTail(rest, v) {
      TailIsText(rest, v);
      UlidIff(rest, v);
    }
    assert WorktreeSlug(name) == "" <==> WorktreeProject(name) == "";
  }

  lemma TailIsText(rest: string, u: string)
    requires IsTail(rest, u)
    ensures u != ""
  {
  }
}
