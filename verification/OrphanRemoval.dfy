/** `doctor --fix` on task worktrees: which directories become candidates, what is
    re-checked before anything is deleted, and what is left on disk. */
module OrphanRemoval {
  import opened Common
  import opened Text
  import opened WorktreeNames
  import opened ActiveListing
  import opened WorkItemStatus

  // What reading one work item answers; "" stands for a missing or non-string status.
  datatype Reading = Unread | Status(text: string)

  datatype VerdictKind = Terminal | Active | Unknown

  datatype Verdict = Verdict(dir: string, key: string, status: string, kind: VerdictKind)

  // The re-check of one directory. `key` is what the server is asked about, `reading` what it answers.
  function VerifyOrphan(dir: string, key: string, reading: Reading): Verdict {
    if key == "" then Verdict(dir, "", "", Unknown)
    else
      match reading
      case Unread => Verdict(dir, key, "", Unknown)
      case Status(s) =>
        if s == "" then Verdict(dir, key, "", Unknown)
        else if !IsTerminal(s) then Verdict(dir, key, s, Active)
        else Verdict(dir, key, s, Terminal)
  }

  function ForceAllows(v: Verdict, stated: string, named: bool): bool {
    match v.kind
    case Terminal => true
    case Unknown => named
    case Active => named && stated != "" && stated == v.status
  }

  // --force-remove: directory to stated status, "" when none was stated.
  type Forced = map<string, string>

  predicate Decide(dir: string, key: string, reading: Reading, forced: Forced) {
    var named := dir in forced;
    ForceAllows(VerifyOrphan(dir, key, reading), if named then forced[dir] else "", named)
  }

  // Nothing could be established about the directory.
  predicate Unestablished(key: string, reading: Reading) {
    key == "" || reading.Unread? || reading.text == ""
  }

  predicate FoundTerminal(key: string, reading: Reading) {
    key != "" && reading.Status? && IsTerminal(reading.text)
  }

  /** The only grounds for a deletion: its work item was just read and is finished;
      or nothing could be established and the directory was named; or it was named
      together with the very status just read. */
  predicate Justified(dir: string, key: string, reading: Reading, forced: Forced) {
    || FoundTerminal(key, reading)
    || (dir in forced && Unestablished(key, reading))
    || (dir in forced && forced[dir] != "" && reading == Status(forced[dir]))
  }

  lemma DecidedIsJustified(dir: string, key: string, reading: Reading, forced: Forced)
    ensures Decide(dir, key, reading, forced) <==> Justified(dir, key, reading, forced)
  {
  }

  /** A verdict is about the directory and the key asked for, and carries the status that was read. */
  lemma VerdictIs(dir: string, key: string, reading: Reading)
    ensures var v := VerifyOrphan(dir, key, reading);
            && v.dir == dir && v.key == key
            && v.status == (if key != "" && reading.Status? then reading.text else "")
            && (v.kind == Unknown <==> key == "" || reading == Unread || reading == Status(""))
  {
  }

  // ---------------------------------------------------------------- the grounds, written out

  // The server answered that the work item is over.
  predicate ReadFinished(reading: Reading) {
    reading == Status("wrapped") || reading == Status("failed") || reading == Status("cancelled")
  }

  /** Without force a directory may go only if it stands for a work item that was read as
      wrapped, failed or cancelled; with force also if nothing was established, or if the
      status stated is the one read. And one read as finished is never refused. */
  lemma GroundsIff(dir: string, key: string, reading: Reading, forced: Forced)
    ensures Justified(dir, key, reading, forced) <==>
            || (key != "" && ReadFinished(reading))
            || (dir in forced && (key == "" || reading == Unread || reading == Status("")))
            || (dir in forced && forced[dir] != "" && reading == Status(forced[dir]))
    ensures FoundTerminal(key, reading) <==> key != "" && ReadFinished(reading)
  {
    if reading.Status? { TerminalIff(reading.text); }
  }

  // ---------------------------------------------------------------- the run

  // How one deletion fares on disk. The tool confirms it by looking; it may be unable to.
  datatype Removal = Gone | StillThere | Unconfirmed(deleted: bool)

  /** The world one run meets: the key a directory stands for, the answer to the
      nth re-check, and the fate of the nth deletion. */
  datatype World = World(key: string -> string, read: (nat, string) -> Reading,
                         remove: (nat, string) -> Removal)

  datatype Report = Report(acted: seq<string>, removed: seq<string>, refused: seq<string>, forced: seq<string>,
                           failedRemoval: seq<string>, unverifiable: seq<string>, unmatched: set<string>, ok: bool)

  datatype Fate = Refused | Removed | RemovalFailed

  // What becomes of the nth directory acted on.
  function FateOf(w: World, acted: seq<string>, forced: Forced, n: nat): Fate
    requires n < |acted|
  {
    if !Decide(acted[n], w.key(acted[n]), w.read(n, w.key(acted[n])), forced) then Refused
    else if w.remove(n, acted[n]) == Gone then Removed
    else RemovalFailed
  }

  // The directories that met a fate among the first n, in order.
  function WithFate(w: World, acted: seq<string>, forced: Forced, fate: Fate, n: nat): seq<string>
    requires n <= |acted|
  {
    if n == 0 then []
    else
      var earlier := WithFate(w, acted, forced, fate, n - 1);
      if FateOf(w, acted, forced, n - 1) == fate then earlier + [acted[n - 1]] else earlier
  }

  predicate ByForce(w: World, acted: seq<string>, forced: Forced, n: nat)
    requires n < |acted|
  {
    FateOf(w, acted, forced, n) != Refused && !FoundTerminal(w.key(acted[n]), w.read(n, w.key(acted[n])))
  }

  // The directories let through although their work item was not found terminal.
  function ForcedThrough(w: World, acted: seq<string>, forced: Forced, n: nat): seq<string>
    requires n <= |acted|
  {
    if n == 0 then []
    else
      var earlier := ForcedThrough(w, acted, forced, n - 1);
      if ByForce(w, acted, forced, n - 1) then earlier + [acted[n - 1]] else earlier
  }

  // Some re-check of this very run justified deleting d.
  ghost predicate Rechecked(w: World, acted: seq<string>, forced: Forced, d: string) {
    exists i :: 0 <= i < |acted| && acted[i] == d && Justified(d, w.key(d), w.read(i, w.key(d)), forced)
  }

  predicate StringLess(a: string, b: string) {
    if b == [] then false
    else if a == [] then true
    else a[0] < b[0] || (a[0] == b[0] && StringLess(a[1..], b[1..]))
  }

  lemma {:induction false} LessThanLater(a: string, b: string, c: string)
    requires StringLess(a, b) && !StringLess(c, b)
    ensures StringLess(a, c)
  {
    if a != [] && c != [] && a[0] == b[0] == c[0] { LessThanLater(a[1..], b[1..], c[1..]); }
  }

  /** The order of Go's strings: a proper prefix first, else by the first character that differs. */
  lemma {:induction false} StringLessIff(a: string, b: string)
    ensures StringLess(a, b) <==>
            || (|a| < |b| && a == b[..|a|])
            || (exists k :: 0 <= k < |a| && k < |b| && a[..k] == b[..k] && a[k] < b[k])
  {
    if a != "" && b != "" {
      if a[0] == b[0] {
        StringLessIff(a[1..], b[1..]);
        assert a == [a[0]] + a[1..] && b == [b[0]] + b[1..];
        if |a| < |b| { PrefixStep(a, b); }
        FirstDifference(a, b);
      } else {
        DifferAtOnce(a, b);
        if |a| < |b| { assert b[..|a|][0] == b[0]; }
      }
    }
  }

  lemma PrefixStep(a: string, b: string)
    requires a != "" && |a| < |b| && a[0] == b[0]
    ensures a == b[..|a|] <==> a[1..] == b[1..][..|a| - 1]
  {
    assert b[..|a|] == [b[0]] + b[1..][..|a| - 1] && a == [a[0]] + a[1..];
  }

  lemma DifferAtOnce(a: string, b: string)
    requires a != "" && b != "" && a[0] != b[0]
    ensures a[..0] == b[..0] && forall k :: 0 < k < |a| && k < |b| ==> a[..k] != b[..k]
  {
    forall k | 0 < k < |a| && k < |b| ensures a[..k] != b[..k] { assert a[..k][0] == a[0] && b[..k][0] == b[0]; }
  }

  lemma FirstDifference(a: string, b: string)
    requires a != "" && b != "" && a[0] == b[0]
    ensures (exists k :: 0 <= k < |a| && k < |b| && a[..k] == b[..k] && a[k] < b[k])
       <==> (exists k :: 0 <= k < |a[1..]| && k < |b[1..]| && a[1..][..k] == b[1..][..k] && a[1..][k] < b[1..][k])
  {
    if k :| 0 <= k < |a| && k < |b| && a[..k] == b[..k] && a[k] < b[k] {
      assert k > 0;
      assert a[1..][..k - 1] == a[..k][1..] && b[1..][..k - 1] == b[..k][1..];
      assert a[1..][k - 1] < b[1..][k - 1];
    }
    if k :| 0 <= k < |a[1..]| && k < |b[1..]| && a[1..][..k] == b[1..][..k] && a[1..][k] < b[1..][k] {
      assert a[..k + 1] == [a[0]] + a[1..][..k] && b[..k + 1] == [b[0]] + b[1..][..k];
      assert a[k + 1] < b[k + 1];
    }
  }

  predicate Sorted(s: seq<string>) { forall i, j :: 0 <= i < j < |s| ==> !StringLess(s[j], s[i]) }

  lemma {:induction false} LessIsOneWay(a: string, b: string)
    requires StringLess(a, b)
    ensures !StringLess(b, a)
  {
    if a != [] && a[0] == b[0] { LessIsOneWay(a[1..], b[1..]); }
  }

  lemma InsertSorted(s: seq<string>, j: nat, x: string)
    requires Sorted(s) && j <= |s| && (j > 0 ==> !StringLess(x, s[j - 1]))
    requires forall m :: j <= m < |s| ==> StringLess(x, s[m])
    ensures Sorted(s[..j] + [x] + s[j..])
  {
    hide StringLess;
    forall i | 0 <= i < j ensures !StringLess(x, s[i]) {
      if StringLess(x, s[i]) && i < j - 1 { LessThanLater(x, s[i], s[j - 1]); }
    }
    forall m | j <= m < |s| ensures !StringLess(s[m], x) { LessIsOneWay(x, s[m]); }
  }

  lemma InsertKeepsItems(s: seq<string>, j: nat, x: string)
    requires j <= |s|
    ensures multiset(s[..j] + [x] + s[j..]) == multiset(s) + multiset{x}
  {
    assert s == s[..j] + s[j..];
  }

  lemma EmptySorted()
    ensures Sorted([])
  {
  }

  method SortStrings(xs: seq<string>) returns (sorted: seq<string>)
    ensures multiset(sorted) == multiset(xs) && Sorted(sorted)
  {
    hide Sorted, StringLess;
    sorted := [];
    EmptySorted();
    for i := 0 to |xs|
      invariant multiset(sorted) == multiset(xs[..i]) && Sorted(sorted)
    {
      var j := |sorted|;
      while j > 0 && StringLess(xs[i], sorted[j - 1])
        invariant 0 <= j <= |sorted|
        invariant forall m :: j <= m < |sorted| ==> StringLess(xs[i], sorted[m])
      {
        j := j - 1;
      }
      assert xs[..i + 1] == xs[..i] + [xs[i]];
      InsertSorted(sorted, j, xs[i]);
      InsertKeepsItems(sorted, j, xs[i]);
      sorted := sorted[..j] + [xs[i]] + sorted[j..];
    }
    assert xs[..|xs|] == xs;
  }

  // The directories to act on, sorted, and the unverifiable ones left alone.
  method SelectActing(candidates: seq<string>, unverifiable: seq<string>, forced: Forced)
    returns (acting: seq<string>, kept: seq<string>)
    ensures multiset(acting) == multiset(candidates) + multiset(Named(unverifiable, forced, |unverifiable|)) && Sorted(acting)
    ensures kept == Unnamed(unverifiable, forced, |unverifiable|)
  {
    acting, kept := candidates, [];
    for i := 0 to |unverifiable|
      invariant acting == candidates + Named(unverifiable, forced, i)
      invariant kept == Unnamed(unverifiable, forced, i)
    {
      if unverifiable[i] in forced { acting := acting + [unverifiable[i]]; } else { kept := kept + [unverifiable[i]]; }
    }
    acting := SortStrings(acting);
  }

  class Workspace {
    var dirs: set<string>

    method RemoveWorktreeDir(dir: string, fate: Removal) returns (confirmed: bool)
      modifies this
      ensures confirmed <==> fate == Gone
      ensures dirs == if fate.StillThere? || fate == Unconfirmed(false) then old(dirs) else old(dirs) - {dir}
    {
      match fate {
        case Gone => dirs := dirs - {dir}; return true;
        case StillThere => return false;
        case Unconfirmed(deleted) => if deleted { dirs := dirs - {dir}; } return false;
      }
    }

    // One directory: re-check it, decide, and remove it if that is allowed.
    method ActOnOne(w: World, acted: seq<string>, forced: Forced, n: nat) returns (fate: Fate, byForce: bool)
      requires n < |acted|
      modifies this
      ensures fate == FateOf(w, acted, forced, n) && byForce == ByForce(w, acted, forced, n)
      ensures old(dirs) - {acted[n]} <= dirs <= old(dirs)
      ensures dirs != old(dirs) ==> Justified(acted[n], w.key(acted[n]), w.read(n, w.key(acted[n])), forced)
      ensures fate == Removed ==> acted[n] !in dirs
    {
      var dir, key := acted[n], w.key(acted[n]);
      var v := VerifyOrphan(dir, key, w.read(n, key));
      var named := dir in forced;
      if !ForceAllows(v, if named then forced[dir] else "", named) { return Refused, false; }
      DecidedIsJustified(dir, key, w.read(n, key), forced);
      byForce := v.kind != Terminal;
      var confirmed := RemoveWorktreeDir(dir, w.remove(n, dir));
      fate := if confirmed then Removed else RemovalFailed;
    }

    /** The loop that deletes. Whatever disappears from disk was re-checked in this
        loop and justified; the acted-on directories split, position by position,
        into refused, removed and failed. */
    method ActOn(w: World, acted: seq<string>, forced: Forced)
      returns (removed: seq<string>, refused: seq<string>, forcedDirs: seq<string>, failedRemoval: seq<string>)
      modifies this
      ensures dirs <= old(dirs)
      ensures forall d :: d in old(dirs) - dirs ==> Rechecked(w, acted, forced, d)
      ensures forall i :: 0 <= i < |acted| && FateOf(w, acted, forced, i) == Removed ==> acted[i] !in dirs
      ensures refused == WithFate(w, acted, forced, Refused, |acted|)
      ensures removed == WithFate(w, acted, forced, Removed, |acted|)
      ensures failedRemoval == WithFate(w, acted, forced, RemovalFailed, |acted|)
      ensures forcedDirs == ForcedThrough(w, acted, forced, |acted|)
    {
      hide FateOf, ByForce, Justified;
      removed, refused, forcedDirs, failedRemoval := [], [], [], [];
      for n := 0 to |acted|
        invariant dirs <= old(dirs)
        invariant forall d :: d in old(dirs) - dirs ==> Rechecked(w, acted, forced, d)
        invariant forall i :: 0 <= i < n && FateOf(w, acted, forced, i) == Removed ==> acted[i] !in dirs
        invariant refused == WithFate(w, acted, forced, Refused, n)
        invariant removed == WithFate(w, acted, forced, Removed, n)
        invariant failedRemoval == WithFate(w, acted, forced, RemovalFailed, n)
        invariant forcedDirs == ForcedThrough(w, acted, forced, n)
      {
        ghost var before := dirs;
        var fate, byForce := ActOnOne(w, acted, forced, n);
        if dirs != before { assert Rechecked(w, acted, forced, acted[n]); }
        match fate {
          case Refused => refused := refused + [acted[n]];
          case Removed => removed := removed + [acted[n]];
          case RemovalFailed => failedRemoval := failedRemoval + [acted[n]];
        }
        if byForce { forcedDirs := forcedDirs + [acted[n]]; }
      }
    }

    /** `--fix`. Unverifiable directories are acted on only when named. */
    method RemoveOrphans(w: World, candidates: seq<string>, unverifiable: seq<string>, forced: Forced) returns (r: Report)
      modifies this
      ensures dirs <= old(dirs)
      ensures forall d :: d in old(dirs) - dirs ==> Rechecked(w, r.acted, forced, d)
      // Unforced, only what this run read as wrapped, failed or cancelled goes.
      ensures forall d :: d in old(dirs) - dirs && d !in forced ==> ReadAsFinished(w, r.acted, d)
      // And whatever each of its re-checks read as one of these is not refused.
      ensures forall d :: AlwaysReadAsFinished(w, r.acted, d) ==> d !in r.refused
      ensures multiset(r.acted) == multiset(candidates) + multiset(Named(unverifiable, forced, |unverifiable|)) && Sorted(r.acted)
      ensures multiset(r.removed) + multiset(r.refused) + multiset(r.failedRemoval) == multiset(r.acted)
      ensures r.refused == WithFate(w, r.acted, forced, Refused, |r.acted|)
      ensures r.removed == WithFate(w, r.acted, forced, Removed, |r.acted|)
      ensures r.forced == ForcedThrough(w, r.acted, forced, |r.acted|)
      ensures r.unverifiable == Unnamed(unverifiable, forced, |unverifiable|)
      // Written out: what was let through by force, and what was left because it was not named.
      ensures forall d :: d in r.forced <==> d in forced && LetThroughByForce(w, r.acted, forced, d)
      ensures forall d :: d in r.unverifiable <==> d in unverifiable && d !in forced
      ensures forall d :: d in r.unmatched <==> d in forced && d !in r.acted
      ensures r.ok <==> r.refused == [] && r.forced == [] && r.unverifiable == [] && r.unmatched == {} && r.failedRemoval == []
      ensures r.ok ==> forall d :: d in r.acted ==> d !in dirs && FoundFinished(w, r.acted, d)
    {
      var acting, kept := SelectActing(candidates, unverifiable, forced);
      var unmatched := set d | d in forced && d !in acting;
      if |acting| == 0 && |unmatched| == 0 && |kept| == 0 {
        UnnamedAre(unverifiable, forced);
        return Report([], [], [], [], [], [], {}, true);
      }
      ghost var before := dirs;
      var removed, refused, forcedDirs, failedRemoval := ActOn(w, acting, forced);
      FatesPartition(w, acting, forced);
      UnforcedAreFinished(w, acting, forced, before - dirs);
      FinishedAreNotRefused(w, acting, forced);
      ForcedAre(w, acting, forced);
      UnnamedAre(unverifiable, forced);
      var ok := |refused| == 0 && |forcedDirs| == 0 && |kept| == 0 && |unmatched| == 0 && |failedRemoval| == 0;
      if ok { AllClear(w, acting, forced, dirs); }
      return Report(acting, removed, refused, forcedDirs, failedRemoval, kept, unmatched, ok);
    }
  }

  // The unverifiable directories that were named, and the ones that were not, in order.
  function Named(unverifiable: seq<string>, forced: Forced, n: nat): seq<string>
    requires n <= |unverifiable|
  {
    if n == 0 then []
    else
      var earlier := Named(unverifiable, forced, n - 1);
      if unverifiable[n - 1] in forced then earlier + [unverifiable[n - 1]] else earlier
  }

  function Unnamed(unverifiable: seq<string>, forced: Forced, n: nat): seq<string>
    requires n <= |unverifiable|
  {
    if n == 0 then []
    else
      var earlier := Unnamed(unverifiable, forced, n - 1);
      if unverifiable[n - 1] in forced then earlier else earlier + [unverifiable[n - 1]]
  }

  // This run read d's work item and found it finished.
  ghost predicate FoundFinished(w: World, acted: seq<string>, d: string) {
    exists i :: 0 <= i < |acted| && acted[i] == d && FoundTerminal(w.key(d), w.read(i, w.key(d)))
  }

  // This run read d's work item as wrapped, failed or cancelled; or each of its re-checks of d did.
  ghost predicate ReadAsFinished(w: World, acted: seq<string>, d: string) {
    exists i :: 0 <= i < |acted| && acted[i] == d && w.key(d) != "" && ReadFinished(w.read(i, w.key(d)))
  }

  ghost predicate AlwaysReadAsFinished(w: World, acted: seq<string>, d: string) {
    w.key(d) != "" && forall i :: 0 <= i < |acted| && acted[i] == d ==> ReadFinished(w.read(i, w.key(d)))
  }

  lemma UnforcedAreFinished(w: World, acted: seq<string>, forced: Forced, gone: set<string>)
    requires forall d :: d in gone ==> Rechecked(w, acted, forced, d)
    ensures forall d :: d in gone && d !in forced ==> ReadAsFinished(w, acted, d)
  {
    hide Justified, ReadFinished;
    forall d | d in gone && d !in forced ensures ReadAsFinished(w, acted, d) {
      var i :| 0 <= i < |acted| && acted[i] == d && Justified(d, w.key(d), w.read(i, w.key(d)), forced);
      GroundsIff(d, w.key(d), w.read(i, w.key(d)), forced);
    }
  }

  lemma FinishedAreNotRefused(w: World, acted: seq<string>, forced: Forced)
    ensures forall d :: AlwaysReadAsFinished(w, acted, d) ==> d !in WithFate(w, acted, forced, Refused, |acted|)
  {
    hide Justified, Decide, ReadFinished;
    forall d | AlwaysReadAsFinished(w, acted, d) && d in WithFate(w, acted, forced, Refused, |acted|) ensures false {
      var i := RefusedAt(w, acted, forced, |acted|, d);
      GroundsIff(d, w.key(d), w.read(i, w.key(d)), forced);
      DecidedIsJustified(d, w.key(d), w.read(i, w.key(d)), forced);
    }
  }

  lemma {:induction false} RefusedAt(w: World, acted: seq<string>, forced: Forced, n: nat, d: string) returns (i: nat)
    requires n <= |acted| && d in WithFate(w, acted, forced, Refused, n)
    ensures i < n && acted[i] == d && FateOf(w, acted, forced, i) == Refused
  {
    if FateOf(w, acted, forced, n - 1) == Refused && acted[n - 1] == d { i := n - 1; } else { i := RefusedAt(w, acted, forced, n - 1, d); }
  }

  // Some re-check of d did not find its work item over, and the force flag allowed it all the same.
  ghost predicate LetThroughByForce(w: World, acted: seq<string>, forced: Forced, d: string) {
    exists i :: 0 <= i < |acted| && acted[i] == d && !(w.key(d) != "" && ReadFinished(w.read(i, w.key(d))))
      && AllowedByForce(w.key(d), w.read(i, w.key(d)), forced, d)
  }

  // Nothing was established, or the stated status is the one read.
  predicate AllowedByForce(key: string, reading: Reading, forced: Forced, d: string) {
    || key == "" || reading == Unread || reading == Status("")
    || (d in forced && forced[d] != "" && reading == Status(forced[d]))
  }

  lemma {:induction false} ForcedAt(w: World, acted: seq<string>, forced: Forced, n: nat, d: string)
    requires n <= |acted|
    ensures d in ForcedThrough(w, acted, forced, n) <==> exists i :: 0 <= i < n && acted[i] == d && ByForce(w, acted, forced, i)
  {
    hide ByForce;
    if n > 0 { ForcedAt(w, acted, forced, n - 1, d); }
  }

  lemma ByForceIff(w: World, acted: seq<string>, forced: Forced, i: nat)
    requires i < |acted|
    ensures var d := acted[i];
            ByForce(w, acted, forced, i) <==>
            && d in forced && !(w.key(d) != "" && ReadFinished(w.read(i, w.key(d))))
            && AllowedByForce(w.key(d), w.read(i, w.key(d)), forced, d)
  {
    hide Justified, Decide, ReadFinished, FoundTerminal;
    var d := acted[i];
    GroundsIff(d, w.key(d), w.read(i, w.key(d)), forced);
    DecidedIsJustified(d, w.key(d), w.read(i, w.key(d)), forced);
  }

  lemma ForcedAre(w: World, acted: seq<string>, forced: Forced)
    ensures forall d :: d in ForcedThrough(w, acted, forced, |acted|) <==> d in forced && LetThroughByForce(w, acted, forced, d)
  {
    hide ByForce, ForcedThrough, ReadFinished, AllowedByForce;
    forall d ensures d in ForcedThrough(w, acted, forced, |acted|) <==> d in forced && LetThroughByForce(w, acted, forced, d) {
      ForcedAt(w, acted, forced, |acted|, d);
      forall i | 0 <= i < |acted| && acted[i] == d
        ensures ByForce(w, acted, forced, i) <==>
                && d in forced && !(w.key(d) != "" && ReadFinished(w.read(i, w.key(d))))
                && AllowedByForce(w.key(d), w.read(i, w.key(d)), forced, d)
      {
        ByForceIff(w, acted, forced, i);
      }
    }
  }

  lemma {:induction false} UnnamedIs(unverifiable: seq<string>, forced: Forced, n: nat, d: string)
    requires n <= |unverifiable|
    ensures d in Unnamed(unverifiable, forced, n) <==> d in unverifiable[..n] && d !in forced
  {
    if n > 0 {
      UnnamedIs(unverifiable, forced, n - 1, d);
      assert unverifiable[..n] == unverifiable[..n - 1] + [unverifiable[n - 1]];
    }
  }

  lemma UnnamedAre(unverifiable: seq<string>, forced: Forced)
    ensures forall d :: d in Unnamed(unverifiable, forced, |unverifiable|) <==> d in unverifiable && d !in forced
  {
    forall d ensures d in Unnamed(unverifiable, forced, |unverifiable|) <==> d in unverifiable && d !in forced {
      UnnamedIs(unverifiable, forced, |unverifiable|, d);
      assert unverifiable[..|unverifiable|] == unverifiable;
    }
  }

  // How often d is among the first n, and how often it met a fate there.
  function Occurrences(acted: seq<string>, n: nat, d: string): nat
    requires n <= |acted|
  {
    if n == 0 then 0 else Occurrences(acted, n - 1, d) + if acted[n - 1] == d then 1 else 0
  }

  function Tally(w: World, acted: seq<string>, forced: Forced, fate: Fate, n: nat, d: string): nat
    requires n <= |acted|
  {
    if n == 0 then 0
    else Tally(w, acted, forced, fate, n - 1, d) + if FateOf(w, acted, forced, n - 1) == fate && acted[n - 1] == d then 1 else 0
  }

  lemma {:induction false} TallyCounts(w: World, acted: seq<string>, forced: Forced, fate: Fate, n: nat, d: string)
    requires n <= |acted|
    ensures multiset(WithFate(w, acted, forced, fate, n))[d] == Tally(w, acted, forced, fate, n, d)
  {
    if n > 0 {
      TallyCounts(w, acted, forced, fate, n - 1, d);
      CountSnoc(WithFate(w, acted, forced, fate, n - 1), acted[n - 1], d);
    }
  }

  lemma CountSnoc(s: seq<string>, x: string, d: string)
    ensures multiset(s + [x])[d] == multiset(s)[d] + if x == d then 1 else 0
  {
  }

  lemma {:induction false} OccurrencesCount(acted: seq<string>, n: nat, d: string)
    requires n <= |acted|
    ensures multiset(acted[..n])[d] == Occurrences(acted, n, d)
  {
    if n > 0 {
      OccurrencesCount(acted, n - 1, d);
      assert acted[..n] == acted[..n - 1] + [acted[n - 1]];
    }
  }

  lemma {:induction false} TalliesAddUp(w: World, acted: seq<string>, forced: Forced, n: nat, d: string)
    requires n <= |acted|
    ensures Tally(w, acted, forced, Removed, n, d) + Tally(w, acted, forced, Refused, n, d)
            + Tally(w, acted, forced, RemovalFailed, n, d) == Occurrences(acted, n, d)
  {
    if n > 0 { TalliesAddUp(w, acted, forced, n - 1, d); }
  }

  /** Every directory acted on is removed, refused or failed, and only one of them. */
  lemma FatesPartition(w: World, acted: seq<string>, forced: Forced)
    ensures multiset(WithFate(w, acted, forced, Removed, |acted|)) + multiset(WithFate(w, acted, forced, Refused, |acted|))
            + multiset(WithFate(w, acted, forced, RemovalFailed, |acted|)) == multiset(acted)
  {
    assert acted[..|acted|] == acted;
    forall d: string
      ensures multiset(WithFate(w, acted, forced, Removed, |acted|))[d] + multiset(WithFate(w, acted, forced, Refused, |acted|))[d]
              + multiset(WithFate(w, acted, forced, RemovalFailed, |acted|))[d] == multiset(acted)[d]
    {
      TallyCounts(w, acted, forced, Removed, |acted|, d);
      TallyCounts(w, acted, forced, Refused, |acted|, d);
      TallyCounts(w, acted, forced, RemovalFailed, |acted|, d);
      OccurrencesCount(acted, |acted|, d);
      TalliesAddUp(w, acted, forced, |acted|, d);
    }
  }

  // With nothing refused, forced or failed, every directory is gone and was found finished.
  lemma AllClear(w: World, acted: seq<string>, forced: Forced, dirs: set<string>)
    requires WithFate(w, acted, forced, Refused, |acted|) == []
    requires WithFate(w, acted, forced, RemovalFailed, |acted|) == []
    requires ForcedThrough(w, acted, forced, |acted|) == []
    requires forall i :: 0 <= i < |acted| && FateOf(w, acted, forced, i) == Removed ==> acted[i] !in dirs
    ensures forall d :: d in acted ==> d !in dirs && FoundFinished(w, acted, d)
  {
    NoneWithFate(w, acted, forced, Refused, |acted|);
    NoneWithFate(w, acted, forced, RemovalFailed, |acted|);
    NoneForced(w, acted, forced, |acted|);
    forall d | d in acted ensures d !in dirs && FoundFinished(w, acted, d) {
      var i :| 0 <= i < |acted| && acted[i] == d;
      assert FateOf(w, acted, forced, i) != Refused && FateOf(w, acted, forced, i) != RemovalFailed;
      assert !ByForce(w, acted, forced, i);
    }
  }

  lemma {:induction false} NoneWithFate(w: World, acted: seq<string>, forced: Forced, fate: Fate, n: nat)
    requires n <= |acted| && WithFate(w, acted, forced, fate, n) == []
    ensures forall i :: 0 <= i < n ==> FateOf(w, acted, forced, i) != fate
  {
    if n > 0 { NoneWithFate(w, acted, forced, fate, n - 1); }
  }

  lemma {:induction false} NoneForced(w: World, acted: seq<string>, forced: Forced, n: nat)
    requires n <= |acted| && ForcedThrough(w, acted, forced, n) == []
    ensures forall i :: 0 <= i < n ==> !ByForce(w, acted, forced, i)
  {
    if n > 0 { NoneForced(w, acted, forced, n - 1); }
  }
}
