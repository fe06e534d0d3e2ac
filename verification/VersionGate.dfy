/** The version-bump gate: a change to a plugin's files must raise its version.
    One run of the gate is modelled, then main as a chain of squash merges. */
module VersionGate {
  import opened Common
  import opened Text
  import opened Versions

  // ---------------------------------------------------------------- trees

  // A JSON `version` field: absent or null, a string, or something else.
  datatype Stamp = Missing | Str(text: string) | NotText

  datatype Entry = Entry(name: string, source: string)

  // File contents as the gate reads them; what it does not read is kept as `rest`.
  datatype Content = Manifest(version: Stamp, rest: string) | Catalog(entries: seq<Entry>, rest: string) | Other(bytes: string)

  type Tree = map<string, Content>

  const CANONICAL_MANIFEST := ".claude-plugin/plugin.json"
  const CANONICAL_CATALOG := ".claude-plugin/marketplace.json"
  const ROOT_CATALOG := "marketplace.json"

  function ManifestPath(dir: string): string { dir + "/" + CANONICAL_MANIFEST }

  function StampAt(t: Tree, dir: string): Stamp {
    var path := ManifestPath(dir);
    if path in t && t[path].Manifest? then t[path].version else Missing
  }

  function ParseStamp(v: Stamp): Option<seq<nat>> {
    if v.Str? then ParseVersion(v.text) else None
  }

  predicate Under(path: string, dir: string) { HasPrefix(path, dir + "/") }

  // ---------------------------------------------------------------- plugin_sources

  // os.path.normpath's treatment of "", "." and "..".
  function FoldPath(comps: seq<string>, absolute: bool, acc: seq<string>): seq<string> {
    if comps == [] then acc
    else
      var c := comps[0];
      var acc' := if c == "" || c == "." then acc
                  else if c != ".." || (!absolute && acc == []) || (acc != [] && acc[|acc| - 1] == "..") then acc + [c]
                  else if acc != [] then acc[..|acc| - 1]
                  else acc;
      FoldPath(comps[1..], absolute, acc')
  }

  function NormSource(source: string): string {
    var acc := FoldPath(Split(source, '/'), HasPrefix(source, "/"), []);
    var joined := if acc == [] then "" else Join(acc, '/');
    var norm := if joined == "" && !HasPrefix(source, "/") then "." else joined;
    var slashed := seq(|norm|, i requires 0 <= i < |norm| => if norm[i] == '\\' then '/' else norm[i]);
    TrimRight(TrimLeft(slashed, (c: char) => c == '/'), (c: char) => c == '/')
  }

  function AddEntries(sources: map<string, string>, entries: seq<Entry>): map<string, string> {
    if entries == [] then sources
    else
      var e := entries[|entries| - 1];
      var earlier := AddEntries(sources, entries[..|entries| - 1]);
      if e.name != "" && e.source != "" then earlier[e.name := NormSource(e.source)] else earlier
  }

  function EntriesAt(t: Tree, catalog: string): seq<Entry> {
    if catalog in t && t[catalog].Catalog? then t[catalog].entries else []
  }

  // The canonical catalog is read last, so it wins.
  function PluginSources(t: Tree): map<string, string> {
    AddEntries(AddEntries(map[], EntriesAt(t, ROOT_CATALOG)), EntriesAt(t, CANONICAL_CATALOG))
  }

  method AddCatalog(start: map<string, string>, entries: seq<Entry>) returns (sources: map<string, string>)
    ensures sources == AddEntries(start, entries)
  {
    hide NormSource;
    sources := start;
    for i := 0 to |entries|
      invariant sources == AddEntries(start, entries[..i])
    {
      assert entries[..i + 1][..i] == entries[..i];
      if entries[i].name != "" && entries[i].source != "" {
        sources := sources[entries[i].name := NormSource(entries[i].source)];
      }
    }
    assert entries[..|entries|] == entries;
  }

  method PluginSourcesOf(t: Tree) returns (sources: map<string, string>)
    ensures sources == PluginSources(t)
  {
    hide AddEntries;
    sources := map[];
    var catalogs := [ROOT_CATALOG, CANONICAL_CATALOG];
    for k := 0 to 2
      invariant k == 0 ==> sources == map[]
      invariant k == 1 ==> sources == AddEntries(map[], EntriesAt(t, ROOT_CATALOG))
      invariant k == 2 ==> sources == PluginSources(t)
    {
      sources := AddCatalog(sources, EntriesAt(t, catalogs[k]));
    }
  }

  // ---------------------------------------------------------------- check_bump

  datatype Verdict = Pass | Unorderable | SameVersion | WentDown

  function Judge(touched: bool, base: Stamp, now: Stamp): Verdict {
    if !touched || base.Missing? then Pass
    else
      var b, n := ParseStamp(base), ParseStamp(now);
      if b.None? || n.None? then Unorderable
      else if n.value == b.value then SameVersion
      else if Less(n.value, b.value) then WentDown
      else Pass
  }

  predicate Touched(changed: seq<string>, dir: string) {
    exists i :: 0 <= i < |changed| && Under(changed[i], dir)
  }

  function VerdictOn(name: string, changed: seq<string>, sources: map<string, string>, base: Tree, now: Tree): Verdict
    requires name in sources
  {
    Judge(Touched(changed, sources[name]), StampAt(base, sources[name]), StampAt(now, sources[name]))
  }

  datatype Problem = Bump(name: string, verdict: Verdict) | NoSources

  // One problem per failing plugin, in the order of `names`.
  function Failing(names: seq<string>, changed: seq<string>, sources: map<string, string>, base: Tree, now: Tree): seq<Problem>
    requires forall i :: 0 <= i < |names| ==> names[i] in sources
  {
    if names == [] then []
    else
      var last := names[|names| - 1];
      var v := VerdictOn(last, changed, sources, base, now);
      Failing(names[..|names| - 1], changed, sources, base, now) + if v == Pass then [] else [Bump(last, v)]
  }

  // Plugin i does not pass, and this is what is said of it.
  ghost predicate FailsAt(names: seq<string>, changed: seq<string>, sources: map<string, string>, base: Tree, now: Tree, p: Problem, i: nat)
    requires i < |names| && names[i] in sources
  {
    VerdictOn(names[i], changed, sources, base, now) != Pass && p == Bump(names[i], VerdictOn(names[i], changed, sources, base, now))
  }

  lemma {:induction false} FailingIs(names: seq<string>, changed: seq<string>, sources: map<string, string>, base: Tree, now: Tree, p: Problem)
    requires forall i :: 0 <= i < |names| ==> names[i] in sources
    ensures p in Failing(names, changed, sources, base, now) <==>
            exists i :: 0 <= i < |names| && FailsAt(names, changed, sources, base, now, p, i)
  {
    hide VerdictOn;
    if names != [] {
      var before, n := names[..|names| - 1], |names| - 1;
      FailingIs(before, changed, sources, base, now, p);
      forall i | 0 <= i < n
        ensures FailsAt(before, changed, sources, base, now, p, i) <==> FailsAt(names, changed, sources, base, now, p, i)
      {
        assert before[i] == names[i];
      }
      assert FailsAt(names, changed, sources, base, now, p, n) <==>
             VerdictOn(names[n], changed, sources, base, now) != Pass && p == Bump(names[n], VerdictOn(names[n], changed, sources, base, now));
    }
  }

  lemma FailingAre(names: seq<string>, changed: seq<string>, sources: map<string, string>, base: Tree, now: Tree)
    requires forall i :: 0 <= i < |names| ==> names[i] in sources
    ensures forall p :: p in Failing(names, changed, sources, base, now) <==>
              exists i :: 0 <= i < |names| && FailsAt(names, changed, sources, base, now, p, i)
  {
    hide FailsAt, Failing;
    forall p
      ensures p in Failing(names, changed, sources, base, now) <==>
              exists i :: 0 <= i < |names| && FailsAt(names, changed, sources, base, now, p, i)
    {
      FailingIs(names, changed, sources, base, now, p);
    }
  }

  method PathsUnder(changed: seq<string>, dir: string) returns (touched: seq<string>)
    ensures touched != [] <==> Touched(changed, dir)
    ensures forall p :: p in touched <==> p in changed && dir + "/" <= p
  {
    touched := [];
    for j := 0 to |changed|
      invariant forall p :: p in touched <==> p in changed[..j] && dir + "/" <= p
      invariant touched != [] <==> exists m :: 0 <= m < j && Under(changed[m], dir)
    {
      assert changed[..j + 1] == changed[..j] + [changed[j]];
      if HasPrefix(changed[j], dir + "/") {
        assert Under(changed[j], dir);
        touched := touched + [changed[j]];
      }
    }
    assert changed[..|changed|] == changed;
  }

  /** The gate's loop over the plugins. */
  method CheckBump(names: seq<string>, changed: seq<string>, sources: map<string, string>, base: Tree, now: Tree)
    returns (problems: seq<Problem>)
    requires forall i :: 0 <= i < |names| ==> names[i] in sources
    ensures problems == Failing(names, changed, sources, base, now)
    ensures problems == [] <==> forall i :: 0 <= i < |names| ==> VerdictOn(names[i], changed, sources, base, now) == Pass
    ensures forall p :: p in problems <==> exists i :: 0 <= i < |names| && FailsAt(names, changed, sources, base, now, p, i)
  {
    hide FailsAt, StampAt, ParseStamp;
    FailingAre(names, changed, sources, base, now);
    problems := [];
    for i := 0 to |names|
      invariant problems == Failing(names[..i], changed, sources, base, now)
      invariant problems == [] <==> forall k :: 0 <= k < i ==> VerdictOn(names[k], changed, sources, base, now) == Pass
    {
      assert names[..i + 1][..i] == names[..i];
      var dir := sources[names[i]];
      var touched := PathsUnder(changed, dir);
      if touched == [] { continue; }
      var base_v, now_v := StampAt(base, dir), StampAt(now, dir);
      if base_v.Missing? { continue; }
      var base_t, now_t := ParseStamp(base_v), ParseStamp(now_v);
      if base_t.None? || now_t.None? {
        problems := problems + [Bump(names[i], Unorderable)];
        continue;
      }
      if now_t.value == base_t.value {
        problems := problems + [Bump(names[i], SameVersion)];
        continue;
      }
      if Less(now_t.value, base_t.value) {
        problems := problems + [Bump(names[i], WentDown)];
        continue;
      }
    }
    assert names[..|names|] == names;
  }

  predicate Same(a: Tree, b: Tree, p: string) {
    (p in a <==> p in b) && (p in a ==> a[p] == b[p])
  }

  // The three-dot diff without renames: every path that differs from the merge base.
  ghost predicate IsDiff(changed: seq<string>, mergeBase: Tree, head: Tree) {
    forall p :: p in changed <==> !Same(mergeBase, head, p)
  }

  ghost predicate TouchedSince(mergeBase: Tree, head: Tree, dir: string) {
    exists p :: Under(p, dir) && !Same(mergeBase, head, p)
  }

  // The gate lets a head through: changes counted from the merge base, versions compared with the base tip.
  ghost predicate Passes(mergeBase: Tree, tip: Tree, head: Tree) {
    var sources := PluginSources(head);
    && sources != map[]
    && forall name :: name in sources ==>
         Judge(TouchedSince(mergeBase, head, sources[name]), StampAt(tip, sources[name]), StampAt(head, sources[name])) == Pass
  }

  method CheckBumpSince(names: seq<string>, changed: seq<string>, tip: Tree, head: Tree, ghost mergeBase: Tree)
    returns (problems: seq<Problem>)
    requires forall n :: n in names <==> n in PluginSources(head)
    requires IsDiff(changed, mergeBase, head)
    ensures problems == [] <==> Passes(mergeBase, tip, head)
  {
    var sources := PluginSourcesOf(head);
    if |sources| == 0 { return [NoSources]; }
    problems := CheckBump(names, changed, sources, tip, head);
    forall dir ensures Touched(changed, dir) <==> TouchedSince(mergeBase, head, dir) {
      if Touched(changed, dir) {
        var i :| 0 <= i < |changed| && Under(changed[i], dir);
        assert changed[i] in changed;
      }
      if TouchedSince(mergeBase, head, dir) {
        var p :| Under(p, dir) && !Same(mergeBase, head, p);
        assert p in changed;
      }
    }
    if problems == [] {
      forall name | name in sources
        ensures Judge(TouchedSince(mergeBase, head, sources[name]), StampAt(tip, sources[name]), StampAt(head, sources[name])) == Pass
      {
        var i :| 0 <= i < |names| && names[i] == name;
        assert VerdictOn(names[i], changed, sources, tip, head) == Pass;
      }
    } else {
      var i :| 0 <= i < |names| && VerdictOn(names[i], changed, sources, tip, head) != Pass;
      assert names[i] in sources;
    }
  }

  // ---------------------------------------------------------------- what a verdict means

  /** For versions as printed: a touched plugin passes exactly when its version goes up, and the
      verdict says otherwise what it did. */
  lemma JudgedAsPrinted(touched: bool, a: seq<nat>, b: seq<nat>)
    requires a != [] && b != []
    ensures var verdict := Judge(touched, Str(Dotted(a)), Str(Dotted(b)));
            && (verdict == Pass <==> !touched || Less(a, b))
            && (verdict == SameVersion <==> touched && a == b)
            && (verdict == WentDown <==> touched && Less(b, a))
            && verdict != Unorderable
  {
    hide ParseVersion, Dotted;
    DottedReadsBack(a);
    DottedReadsBack(b);
    LessIsTotal(a, b);
    if Less(a, b) { LessIsStrict(a, b); }
    if Less(b, a) { LessIsStrict(b, a); }
  }

  /** A touched plugin without a version at the base passes; one whose version then or now is
      not digits and dots is refused as not orderable. */
  lemma JudgedOtherwise(base: Stamp, now: Stamp)
    ensures Judge(true, Missing, now) == Pass
    ensures Judge(true, base, now) == Unorderable <==> base != Missing && (ParseStamp(base).None? || ParseStamp(now).None?)
    ensures ParseStamp(NotText) == ParseStamp(Missing) == None
  {
  }

  // A plugin alone in a catalog, with this printed version.
  predicate Carries(t: Tree, dir: string, ns: seq<nat>)
    requires ns != []
  {
    && dir + "/.claude-plugin/plugin.json" in t && t[dir + "/.claude-plugin/plugin.json"].Manifest?
    && t[dir + "/.claude-plugin/plugin.json"].version == Str(Dotted(ns))
  }

  /** The gate's answer for one plugin, from the manifests and the changed paths. */
  lemma GateIff(name: string, changed: seq<string>, sources: map<string, string>, base: Tree, now: Tree, a: seq<nat>, b: seq<nat>)
    requires name in sources && a != [] && b != []
    requires Carries(base, sources[name], a) && Carries(now, sources[name], b)
    ensures VerdictOn(name, changed, sources, base, now) == Pass <==>
            (exists i :: 0 <= i < |changed| && sources[name] + "/" <= changed[i]) ==> Less(a, b)
  {
    hide Dotted, Judge, StampAt, Carries;
    var dir := sources[name];
    StampIs(base, dir, a);
    StampIs(now, dir, b);
    JudgedAsPrinted(Touched(changed, dir), a, b);
    TouchedIff(changed, dir);
  }

  lemma StampIs(t: Tree, dir: string, ns: seq<nat>)
    requires ns != [] && Carries(t, dir, ns)
    ensures StampAt(t, dir) == Str(Dotted(ns))
  {
    hide Dotted;
    assert "/" + CANONICAL_MANIFEST == "/.claude-plugin/plugin.json";
    assert ManifestPath(dir) == dir + "/.claude-plugin/plugin.json";
  }

  lemma TouchedIff(changed: seq<string>, dir: string)
    ensures Touched(changed, dir) <==> exists i :: 0 <= i < |changed| && dir + "/" <= changed[i]
  {
    if i :| 0 <= i < |changed| && dir + "/" <= changed[i] { assert Under(changed[i], dir); }
  }

  /** So 1.1.10 is above 1.1.9. */
  lemma TenIsAboveNine()
    ensures Judge(true, Str("1.1.9"), Str("1.1.10")) == Pass && Judge(true, Str("1.1.10"), Str("1.1.9")) == WentDown
  {
    assert Decimal(1) == "1" && Decimal(9) == "9" && Decimal(10) == "10";
    assert [1, 1, 9][1..] == [1, 9] && [1, 9][1..] == [9] && [1, 1, 10][1..] == [1, 10] && [1, 10][1..] == [10];
    assert Dotted([9]) == "9" && Dotted([1, 9]) == "1.9" && Dotted([1, 1, 9]) == "1.1.9";
    assert Dotted([10]) == "10" && Dotted([1, 10]) == "1.10" && Dotted([1, 1, 10]) == "1.1.10";
    assert Less([9], [10]) && Less([1, 9], [1, 10]) && Less([1, 1, 9], [1, 1, 10]);
    JudgedAsPrinted(true, [1, 1, 9], [1, 1, 10]);
    JudgedAsPrinted(true, [1, 1, 10], [1, 1, 9]);
  }

  // ---------------------------------------------------------------- where the plugins are

  // A path component that stands for itself.
  predicate PlainComponent(c: string) { c != "" && c != "." && c != ".." && '/' !in c && '\\' !in c }

  lemma {:induction false} FoldPlain(comps: seq<string>, acc: seq<string>)
    requires forall i :: 0 <= i < |comps| ==> PlainComponent(comps[i])
    ensures FoldPath(comps, false, acc) == acc + comps
  {
    if comps == [] {
      assert acc + comps == acc;
    } else {
      FoldPlain(comps[1..], acc + [comps[0]]);
      assert acc + [comps[0]] + comps[1..] == acc + comps;
    }
  }

  lemma {:induction false} PlainJoin(comps: seq<string>)
    requires comps != [] && forall i :: 0 <= i < |comps| ==> PlainComponent(comps[i])
    ensures var p := Join(comps, '/'); p != "" && p[0] != '/' && p[|p| - 1] != '/' && '\\' !in p
  {
    assert PlainComponent(comps[0]);
    if |comps| > 1 { PlainJoin(comps[1..]); }
  }

  lemma SlashesStay(p: string)
    requires p != "" && p[0] != '/' && p[|p| - 1] != '/' && '\\' !in p
    ensures var slashed := seq(|p|, i requires 0 <= i < |p| => if p[i] == '\\' then '/' else p[i]);
            TrimRight(TrimLeft(slashed, (c: char) => c == '/'), (c: char) => c == '/') == p
  {
    var slashed := seq(|p|, i requires 0 <= i < |p| => if p[i] == '\\' then '/' else p[i]);
    assert slashed == p;
    var cut := (c: char) => c == '/';
    TrimLeftIs(p, cut);
    TrimRightIs(p, cut);
    assert TrimLeft(p, cut) == p;
    assert TrimRight(p, cut) == p;
  }

  lemma NormOf(source: string, comps: seq<string>)
    requires comps != [] && (forall i :: 0 <= i < |comps| ==> PlainComponent(comps[i]))
    requires !HasPrefix(source, "/") && FoldPath(Split(source, '/'), false, []) == comps
    ensures NormSource(source) == Join(comps, '/')
  {
    hide FoldPath, TrimLeft, TrimRight, Split, Join;
    PlainJoin(comps);
    SlashesStay(Join(comps, '/'));
  }

  /** A source written as a relative path, with or without "./" in front or a slash behind, is that
      path; and a component that goes up takes back the one before it. */
  lemma NormSourceIs(comps: seq<string>, up: string)
    requires comps != [] && (forall i :: 0 <= i < |comps| ==> PlainComponent(comps[i])) && PlainComponent(up)
    ensures var p := Join(comps, '/');
            && NormSource(p) == p && NormSource("./" + p) == p && NormSource(p + "/") == p
            && NormSource(up + "/../" + p) == p
  {
    hide FoldPath, Split, Join, NormSource;
    var p := Join(comps, '/');
    PlainJoin(comps);
    forall i | 0 <= i < |comps| ensures '/' !in comps[i] { assert PlainComponent(comps[i]); }
    SplitOfJoin(comps, '/');
    FoldPlain(comps, []);
    assert [] + comps == comps;
    NotAbsolute(p, up);
    FoldDot(comps);
    FoldEmptyEnd(comps);
    FoldUp(comps, up);
    DotInFront(p);
    SlashBehind(p);
    UpInFront(p, up);
    NormOf(p, comps);
    NormOf("./" + p, comps);
    NormOf(p + "/", comps);
    NormOf(up + "/../" + p, comps);
  }

  lemma NotAbsolute(p: string, up: string)
    requires p != "" && p[0] != '/' && PlainComponent(up)
    ensures !HasPrefix(p, "/") && !HasPrefix("./" + p, "/") && !HasPrefix(p + "/", "/") && !HasPrefix(up + "/../" + p, "/")
  {
    assert (p + "/")[0] == p[0] && ("./" + p)[0] == '.' && (up + "/../" + p)[0] == up[0];
  }

  lemma DotInFront(p: string)
    ensures Split("./" + p, '/') == ["."] + Split(p, '/')
  {
    assert "./" + p == "." + ['/'] + p;
    SplitPiece(".", '/');
    SplitConcat(".", p, '/');
  }

  lemma SlashBehind(p: string)
    ensures Split(p + "/", '/') == Split(p, '/') + [""]
  {
    assert p + "/" == p + ['/'] + "";
    SplitPiece("", '/');
    SplitConcat(p, "", '/');
  }

  lemma UpInFront(p: string, up: string)
    requires PlainComponent(up)
    ensures Split(up + "/../" + p, '/') == [up, ".."] + Split(p, '/')
  {
    assert up + "/../" + p == up + ['/'] + (".." + ['/'] + p);
    SplitPiece("..", '/');
    SplitPiece(up, '/');
    SplitConcat("..", p, '/');
    SplitConcat(up, ".." + ['/'] + p, '/');
    assert [up] + ([".."] + Split(p, '/')) == [up, ".."] + Split(p, '/');
  }

  lemma NormFrom(source: string, acc: seq<string>)
    requires FoldPath(Split(source, '/'), HasPrefix(source, "/"), []) == acc && acc != []
    requires var p := Join(acc, '/'); p != "" && p[0] != '/' && p[|p| - 1] != '/' && '\\' !in p
    ensures NormSource(source) == Join(acc, '/')
  {
    hide FoldPath, TrimLeft, TrimRight, Split, Join;
    SlashesStay(Join(acc, '/'));
  }

  lemma RelativeUp(comps: seq<string>)
    requires comps != [] && (forall i :: 0 <= i < |comps| ==> PlainComponent(comps[i])) && Split(Join(comps, '/'), '/') == comps
    ensures NormSource("../" + Join(comps, '/')) == "../" + Join(comps, '/')
  {
    hide Split, Join, NormSource, FoldPath, PlainComponent;
    var p := Join(comps, '/');
    PlainJoin(comps);
    UpParts(p);
    FoldUps(comps);
    JoinConcat([".."], comps, '/');
    OneJoined("..");
    UpEnds(p);
    assert ".." + ['/'] + p == "../" + p;
    NormFrom("../" + p, [".."] + comps);
  }

  lemma AbsoluteUp(comps: seq<string>)
    requires comps != [] && (forall i :: 0 <= i < |comps| ==> PlainComponent(comps[i])) && Split(Join(comps, '/'), '/') == comps
    ensures NormSource("/" + Join(comps, '/')) == Join(comps, '/') && NormSource("/../" + Join(comps, '/')) == Join(comps, '/')
  {
    hide Split, Join, NormSource, FoldPath, PlainComponent;
    var p := Join(comps, '/');
    PlainJoin(comps);
    UpParts(p);
    FoldUps(comps);
    UpEnds(p);
    NormFrom("/" + p, comps);
    NormFrom("/../" + p, comps);
  }

  /** Going up from the start is kept in a relative source and dropped in an absolute one. */
  lemma NormSourceUp(comps: seq<string>)
    requires comps != [] && forall i :: 0 <= i < |comps| ==> PlainComponent(comps[i])
    ensures var p := Join(comps, '/');
            && NormSource("../" + p) == "../" + p
            && NormSource("/" + p) == p && NormSource("/../" + p) == p
  {
    hide Split, Join, NormSource;
    forall i | 0 <= i < |comps| ensures '/' !in comps[i] { assert PlainComponent(comps[i]); }
    SplitOfJoin(comps, '/');
    RelativeUp(comps);
    AbsoluteUp(comps);
  }

  lemma OneJoined(s: string)
    ensures Join([s], '/') == s
  {
  }

  lemma UpEnds(p: string)
    requires p != "" && p[0] != '/' && p[|p| - 1] != '/' && '\\' !in p
    ensures var q := "../" + p; q[0] != '/' && q[|q| - 1] != '/' && '\\' !in q && !HasPrefix(q, "/")
    ensures HasPrefix("/" + p, "/") && HasPrefix("/../" + p, "/")
  {
  }

  lemma UpParts(p: string)
    ensures Split("../" + p, '/') == [".."] + Split(p, '/') && Split("/" + p, '/') == [""] + Split(p, '/')
    ensures Split("/../" + p, '/') == [""] + ([".."] + Split(p, '/'))
  {
    hide Split;
    assert "../" + p == ".." + ['/'] + p && "/" + p == "" + ['/'] + p && "/../" + p == "" + ['/'] + ("../" + p);
    SplitPiece("", '/');
    SplitPiece("..", '/');
    SplitConcat("..", p, '/');
    SplitConcat("", p, '/');
    SplitConcat("", "../" + p, '/');
  }

  lemma FoldUps(comps: seq<string>)
    requires forall i :: 0 <= i < |comps| ==> PlainComponent(comps[i])
    ensures FoldPath([".."] + comps, false, []) == [".."] + comps
    ensures FoldPath([""] + comps, true, []) == comps && FoldPath([""] + ([".."] + comps), true, []) == comps
  {
    assert ([".."] + comps)[1..] == comps && [] + [".."] == [".."] && ([""] + comps)[1..] == comps && [] + comps == comps;
    assert ([""] + ([".."] + comps))[1..] == [".."] + comps;
    FoldPlain(comps, [".."]);
    FoldPlainAbsolute(comps, []);
  }

  lemma {:induction false} FoldPlainAbsolute(comps: seq<string>, acc: seq<string>)
    requires forall i :: 0 <= i < |comps| ==> PlainComponent(comps[i])
    ensures FoldPath(comps, true, acc) == acc + comps
  {
    if comps == [] {
      assert acc + comps == acc;
    } else {
      FoldPlainAbsolute(comps[1..], acc + [comps[0]]);
      assert acc + [comps[0]] + comps[1..] == acc + comps;
    }
  }

  lemma FoldDot(comps: seq<string>)
    ensures FoldPath(["."] + comps, false, []) == FoldPath(comps, false, [])
  {
    assert (["."] + comps)[1..] == comps;
  }

  lemma {:induction false} FoldEmptyEndFrom(comps: seq<string>, acc: seq<string>)
    requires forall i :: 0 <= i < |comps| ==> PlainComponent(comps[i])
    ensures FoldPath(comps + [""], false, acc) == acc + comps
  {
    if comps == [] {
      assert comps + [""] == [""] && [""][1..] == [];
      assert acc + comps == acc;
    } else {
      assert (comps + [""])[1..] == comps[1..] + [""] && (comps + [""])[0] == comps[0];
      FoldEmptyEndFrom(comps[1..], acc + [comps[0]]);
      assert acc + [comps[0]] + comps[1..] == acc + comps;
    }
  }

  lemma FoldEmptyEnd(comps: seq<string>)
    requires forall i :: 0 <= i < |comps| ==> PlainComponent(comps[i])
    ensures FoldPath(comps + [""], false, []) == comps
  {
    FoldEmptyEndFrom(comps, []);
    assert [] + comps == comps;
  }

  lemma FoldUp(comps: seq<string>, up: string)
    requires PlainComponent(up)
    ensures FoldPath([up, ".."] + comps, false, []) == FoldPath(comps, false, [])
  {
    assert ([up, ".."] + comps)[1..] == [".."] + comps && ([".."] + comps)[1..] == comps;
    assert [] + [up] == [up] && [up][..0] == [];
  }

  // An entry of a catalog that names a plugin and its source.
  predicate Names(e: Entry, name: string) { e.name == name && name != "" && e.source != "" }

  // Some entry names the plugin, and the last one that does has this directory.
  predicate LastNamed(entries: seq<Entry>, name: string, dir: string) {
    exists i :: 0 <= i < |entries| && Names(entries[i], name) && NormSource(entries[i].source) == dir
      && forall j :: i < j < |entries| ==> !Names(entries[j], name)
  }

  predicate NeverNamed(entries: seq<Entry>, name: string) { forall i :: 0 <= i < |entries| ==> !Names(entries[i], name) }

  lemma {:induction false} EntriesAre(sources: map<string, string>, entries: seq<Entry>, name: string)
    ensures NeverNamed(entries, name) ==>
              (name in AddEntries(sources, entries) <==> name in sources)
              && (name in sources ==> AddEntries(sources, entries)[name] == sources[name])
    ensures !NeverNamed(entries, name) ==>
              name in AddEntries(sources, entries) && LastNamed(entries, name, AddEntries(sources, entries)[name])
  {
    hide NormSource, LastNamed;
    if entries != [] {
      var before, e := entries[..|entries| - 1], entries[|entries| - 1];
      EntriesAre(sources, before, name);
      if Names(e, name) {
        NamedLast(entries, name);
      } else {
        NotTheLast(entries, name);
      }
    }
  }

  lemma NamedLast(entries: seq<Entry>, name: string)
    requires entries != [] && Names(entries[|entries| - 1], name)
    ensures LastNamed(entries, name, NormSource(entries[|entries| - 1].source)) && !NeverNamed(entries, name)
  {
  }

  lemma NotTheLast(entries: seq<Entry>, name: string)
    requires entries != [] && !Names(entries[|entries| - 1], name)
    ensures var before := entries[..|entries| - 1];
            && (NeverNamed(entries, name) <==> NeverNamed(before, name))
            && forall dir :: LastNamed(before, name, dir) ==> LastNamed(entries, name, dir)
  {
    hide LastNamed, Names, NormSource;
    var before := entries[..|entries| - 1];
    assert forall i :: 0 <= i < |before| ==> before[i] == entries[i];
    forall dir | LastNamed(before, name, dir) ensures LastNamed(entries, name, dir) { StillLast(entries, name, dir); }
  }

  lemma StillLast(entries: seq<Entry>, name: string, dir: string)
    requires entries != [] && !Names(entries[|entries| - 1], name) && LastNamed(entries[..|entries| - 1], name, dir)
    ensures LastNamed(entries, name, dir)
  {
    hide Names, NormSource;
    var before := entries[..|entries| - 1];
    var i :| 0 <= i < |before| && Names(before[i], name) && NormSource(before[i].source) == dir
      && forall j :: i < j < |before| ==> !Names(before[j], name);
    assert before[i] == entries[i];
    forall j | i < j < |entries| ensures !Names(entries[j], name) { if j < |before| { assert before[j] == entries[j]; } }
  }

  function CatalogEntries(t: Tree, path: string): seq<Entry> {
    if path in t && t[path].Catalog? then t[path].entries else []
  }

  /** A plugin's directory: that of the last entry naming it in .claude-plugin/marketplace.json, or
      else in marketplace.json; a plugin named in neither is not looked at. */
  lemma SourcesAre(t: Tree, name: string)
    ensures var canonical, root := CatalogEntries(t, ".claude-plugin/marketplace.json"), CatalogEntries(t, "marketplace.json");
            && (name in PluginSources(t) <==> !NeverNamed(canonical, name) || !NeverNamed(root, name))
            && (!NeverNamed(canonical, name) ==> LastNamed(canonical, name, PluginSources(t)[name]))
            && (NeverNamed(canonical, name) && !NeverNamed(root, name) ==> LastNamed(root, name, PluginSources(t)[name]))
  {
    hide AddEntries, NeverNamed, LastNamed;
    EntriesAre(map[], EntriesAt(t, ROOT_CATALOG), name);
    EntriesAre(AddEntries(map[], EntriesAt(t, ROOT_CATALOG)), EntriesAt(t, CANONICAL_CATALOG), name);
  }
}
