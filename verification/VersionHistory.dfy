/** What the gate buys over a whole history of main, and what it needs for that. */
module VersionHistory {
  import opened Common
  import opened Text
  import opened Versions
  import opened VersionGate

  // ---------------------------------------------------------------- squash merges

  /** What a clean three-way merge guarantees at one path: a path only one side
      changed comes from that side, and where both changed a manifest its version
      line merges three-way, so two different new versions would have conflicted. */
  ghost predicate MergesAt(base: Tree, tip: Tree, head: Tree, result: Tree, p: string) {
    && (Same(base, head, p) ==> Same(tip, result, p))
    && (!Same(base, head, p) && Same(base, tip, p) ==> Same(head, result, p))
    && (!Same(base, head, p) && !Same(base, tip, p)
        && p in base && p in tip && p in head && base[p].Manifest? && tip[p].Manifest? && head[p].Manifest? ==>
          && p in result && result[p].Manifest?
          && MergesStamp(base[p].version, tip[p].version, head[p].version, result[p].version))
  }

  predicate MergesStamp(base: Stamp, tip: Stamp, head: Stamp, result: Stamp) {
    if head == base then result == tip
    else if tip == base || tip == head then result == head
    else false
  }

  ghost predicate CleanMerge(base: Tree, tip: Tree, head: Tree, result: Tree) {
    forall p :: MergesAt(base, tip, head, result, p)
  }

  function Subtree(t: Tree, dir: string): Tree {
    map p | p in t && Under(p, dir) :: t[p]
  }

  function Version(t: Tree, dir: string): Option<seq<nat>> { ParseStamp(StampAt(t, dir)) }

  // Some plugin in the head's catalogs has this directory, so the gate looks at it.
  predicate Listed(head: Tree, dir: string) {
    exists name :: name in PluginSources(head) && PluginSources(head)[name] == dir
  }

  // A pull request: the main commit it was branched from (or last merged), the main commit
  // the gate compared it with, and its head.
  datatype PullRequest = PullRequest(branchPoint: nat, judged: nat, head: Tree)

  // Changes are counted from the merge base of the head and the commit compared with.
  function MergeBase(pr: PullRequest): nat { if pr.judged < pr.branchPoint then pr.judged else pr.branchPoint }

  /** main[k + 1] is the squash merge of prs[k] onto main[k]; the gate passed against that
      commit or any earlier one, and a pull request that it sees touch the directory lists a
      plugin there. */
  ghost predicate History(main: seq<Tree>, prs: seq<PullRequest>, dir: string) {
    && |main| == |prs| + 1
    && forall k :: 0 <= k < |prs| ==> MergeStep(main, prs, k, dir)
  }

  ghost predicate MergeStep(main: seq<Tree>, prs: seq<PullRequest>, k: int, dir: string)
    requires |main| == |prs| + 1 && 0 <= k < |prs|
  {
    var pr := prs[k];
    && pr.branchPoint <= k && pr.judged <= k
    && Passes(main[MergeBase(pr)], main[pr.judged], pr.head)
    && (TouchedSince(main[MergeBase(pr)], pr.head, dir) ==> Listed(pr.head, dir))
    && CleanMerge(main[pr.branchPoint], main[k], pr.head, main[k + 1])
  }

  // Every pull request was compared with its branch point or a later commit ...
  predicate JudgedSinceBranch(prs: seq<PullRequest>) {
    forall k :: 0 <= k < |prs| ==> prs[k].branchPoint <= prs[k].judged
  }

  // ... or with the very commit it was merged onto.
  predicate JudgedAtTip(prs: seq<PullRequest>) {
    forall k :: 0 <= k < |prs| ==> prs[k].judged == k
  }

  // ---------------------------------------------------------------- one merge

  lemma UnderManifest(dir: string)
    ensures Under(ManifestPath(dir), dir)
  {
    assert ManifestPath(dir)[..|dir| + 1] == dir + "/";
  }

  /** A pull request that touches the plugin and passes has raised its own
      manifest above the tip's, hence changed it since it branched. */
  lemma PassingTouchChangesManifest(base: Tree, tip: Tree, head: Tree, dir: string)
    requires Passes(base, tip, head) && Listed(head, dir) && TouchedSince(base, head, dir)
    requires Version(base, dir).Some? && Version(tip, dir).Some?
    requires AtMost(Version(base, dir).value, Version(tip, dir).value)
    ensures Version(head, dir).Some? && Less(Version(tip, dir).value, Version(head, dir).value)
    ensures StampAt(base, dir) != StampAt(head, dir)
    ensures !Same(base, head, ManifestPath(dir))
  {
    var b, t, h := Version(base, dir), Version(tip, dir), Version(head, dir);
    var name :| name in PluginSources(head) && PluginSources(head)[name] == dir;
    assert Judge(TouchedSince(base, head, PluginSources(head)[name]), StampAt(tip, dir), StampAt(head, dir)) == Pass;
    LessIsTotal(t.value, h.value);
    if b.value != t.value { LessIsTransitive(b.value, t.value, h.value); }
    LessIsStrict(b.value, h.value);
  }

  lemma UntouchedMergeKeepsPlugin(base: Tree, tip: Tree, head: Tree, result: Tree, dir: string)
    requires CleanMerge(base, tip, head, result) && !TouchedSince(base, head, dir)
    ensures Subtree(tip, dir) == Subtree(result, dir) && StampAt(tip, dir) == StampAt(result, dir)
  {
    forall p | Under(p, dir) ensures Same(tip, result, p) {
      assert MergesAt(base, tip, head, result, p);
    }
    UnderManifest(dir);
    assert Same(tip, result, ManifestPath(dir));
  }

  // Where the version line of a clean merge comes from.
  lemma MergedStamp(base: Tree, tip: Tree, head: Tree, result: Tree, dir: string)
    requires CleanMerge(base, tip, head, result)
    requires Version(base, dir).Some? && Version(tip, dir).Some? && Version(head, dir).Some?
    ensures StampAt(result, dir) == if StampAt(head, dir) == StampAt(base, dir) then StampAt(tip, dir) else StampAt(head, dir)
    ensures StampAt(head, dir) != StampAt(base, dir) ==> StampAt(tip, dir) == StampAt(base, dir) || StampAt(tip, dir) == StampAt(head, dir)
  {
    assert MergesAt(base, tip, head, result, ManifestPath(dir));
  }

  lemma SubtreeHoldsStamp(t: Tree, t': Tree, dir: string)
    requires Subtree(t, dir) == Subtree(t', dir)
    ensures StampAt(t, dir) == StampAt(t', dir)
  {
    UnderManifest(dir);
    var m := ManifestPath(dir);
    assert m in t <==> m in Subtree(t, dir);
    assert m in t' <==> m in Subtree(t', dir);
    if m in t { assert Subtree(t, dir)[m] == t[m]; }
    if m in t' { assert Subtree(t', dir)[m] == t'[m]; }
  }

  /** One merge, whatever it was judged against: main's version goes up exactly when the
      head's version is above the tip's. */
  lemma MergeRaisesIff(base: Tree, tip: Tree, head: Tree, result: Tree, dir: string)
    requires CleanMerge(base, tip, head, result)
    requires Version(base, dir).Some? && Version(tip, dir).Some? && Version(head, dir).Some?
    requires AtMost(Version(base, dir).value, Version(tip, dir).value)
    ensures Version(result, dir).Some?
    ensures Less(Version(tip, dir).value, Version(result, dir).value) <==> Less(Version(tip, dir).value, Version(head, dir).value)
    ensures Less(Version(base, dir).value, Version(head, dir).value) ==>
              Version(result, dir) == Version(head, dir) && AtMost(Version(tip, dir).value, Version(result, dir).value)
  {
    hide CleanMerge, Less;
    var b, t, h := Version(base, dir).value, Version(tip, dir).value, Version(head, dir).value;
    MergedStamp(base, tip, head, result, dir);
    if Less(t, h) { LessIsStrict(t, h); }
    if Less(b, t) { LessIsStrict(b, t); }
    if Less(b, h) { LessIsStrict(b, h); }
    if Less(t, t) { LessIsStrict(t, t); }
  }

  /** A merge judged at its branch point or later: the version of main never goes down, and
      ends as the head's if the plugin was touched. */
  lemma MergeKeepsOrder(base: Tree, judged: Tree, tip: Tree, head: Tree, result: Tree, dir: string)
    requires Passes(base, judged, head) && CleanMerge(base, tip, head, result)
    requires TouchedSince(base, head, dir) ==> Listed(head, dir)
    requires Version(base, dir).Some? && Version(judged, dir).Some? && Version(tip, dir).Some?
    requires AtMost(Version(base, dir).value, Version(judged, dir).value)
    requires AtMost(Version(base, dir).value, Version(tip, dir).value)
    ensures Version(result, dir).Some? && AtMost(Version(tip, dir).value, Version(result, dir).value)
    ensures Subtree(tip, dir) != Subtree(result, dir) ==>
              && Version(head, dir).Some? && Version(result, dir) == Version(head, dir)
              && Less(Version(judged, dir).value, Version(head, dir).value)
  {
    hide Passes, CleanMerge, Listed, Less, Subtree;
    if TouchedSince(base, head, dir) {
      PassingTouchChangesManifest(base, judged, head, dir);
      BelowAtMost(Version(base, dir).value, Version(judged, dir).value, Version(head, dir).value);
      MergeRaisesIff(base, tip, head, result, dir);
    } else {
      UntouchedMergeKeepsPlugin(base, tip, head, result, dir);
    }
  }

  lemma BelowAtMost(a: seq<nat>, b: seq<nat>, c: seq<nat>)
    requires AtMost(a, b) && Less(b, c)
    ensures Less(a, c)
  {
    if a != b { LessIsTransitive(a, b, c); }
  }

  /** One merge judged against its tip: the version of main never goes down, and goes up
      whenever the plugin's files change. */
  lemma MergeRaisesVersion(base: Tree, tip: Tree, head: Tree, result: Tree, dir: string)
    requires Passes(base, tip, head) && CleanMerge(base, tip, head, result)
    requires TouchedSince(base, head, dir) ==> Listed(head, dir)
    requires Version(base, dir).Some? && Version(tip, dir).Some?
    requires AtMost(Version(base, dir).value, Version(tip, dir).value)
    ensures Version(result, dir).Some?
    ensures AtMost(Version(tip, dir).value, Version(result, dir).value)
    ensures Subtree(tip, dir) != Subtree(result, dir) ==> Less(Version(tip, dir).value, Version(result, dir).value)
  {
    MergeKeepsOrder(base, tip, tip, head, result, dir);
  }

  // ---------------------------------------------------------------- whole histories

  // The head of each pull request has a version, and so has every commit of main.
  lemma HeadHasVersion(base: Tree, judged: Tree, head: Tree, dir: string)
    requires Passes(base, judged, head) && (TouchedSince(base, head, dir) ==> Listed(head, dir))
    requires Version(base, dir).Some? && Version(judged, dir).Some?
    ensures Version(head, dir).Some?
  {
    if TouchedSince(base, head, dir) {
      var name :| name in PluginSources(head) && PluginSources(head)[name] == dir;
      assert Judge(TouchedSince(base, head, PluginSources(head)[name]), StampAt(judged, dir), StampAt(head, dir)) == Pass;
    } else {
      UnderManifest(dir);
      assert Same(base, head, ManifestPath(dir));
    }
  }

  lemma {:induction false} VersionsExist(main: seq<Tree>, prs: seq<PullRequest>, dir: string, i: nat)
    requires History(main, prs, dir) && Version(main[0], dir).Some? && i < |main|
    ensures Version(main[i], dir).Some?
    ensures i > 0 ==> Version(prs[i - 1].head, dir).Some?
    decreases i
  {
    hide Passes, Listed, CleanMerge, StampAt;
    if i > 0 {
      var k := i - 1;
      assert MergeStep(main, prs, k, dir);
      var pr := prs[k];
      VersionsExist(main, prs, dir, k);
      VersionsExist(main, prs, dir, pr.branchPoint);
      VersionsExist(main, prs, dir, pr.judged);
      HeadHasVersion(main[MergeBase(pr)], main[pr.judged], pr.head, dir);
      MergedStamp(main[pr.branchPoint], main[k], pr.head, main[i], dir);
    }
  }

  lemma {:induction false} VersionsNeverFall(main: seq<Tree>, prs: seq<PullRequest>, dir: string, i: nat, j: nat)
    requires History(main, prs, dir) && JudgedSinceBranch(prs) && Version(main[0], dir).Some?
    requires i <= j < |main|
    ensures Version(main[i], dir).Some? && Version(main[j], dir).Some?
    ensures AtMost(Version(main[i], dir).value, Version(main[j], dir).value)
    decreases j, i
  {
    hide Passes, Listed, CleanMerge, Version, Less;
    if i == j {
      VersionsExist(main, prs, dir, i);
    } else {
      var k := j - 1;
      assert MergeStep(main, prs, k, dir);
      var b, n := prs[k].branchPoint, prs[k].judged;
      VersionsNeverFall(main, prs, dir, b, k);
      VersionsNeverFall(main, prs, dir, b, n);
      VersionsNeverFall(main, prs, dir, i, k);
      MergeKeepsOrder(main[b], main[n], main[k], prs[k].head, main[j], dir);
      AtMostIsTransitive(Version(main[i], dir).value, Version(main[k], dir).value, Version(main[j], dir).value);
    }
  }

  lemma AtMostIsTransitive(a: seq<nat>, b: seq<nat>, c: seq<nat>)
    requires AtMost(a, b) && AtMost(b, c)
    ensures AtMost(a, c)
    ensures a == c ==> b == a
  {
    if a != b && b != c {
      LessIsTransitive(a, b, c);
      LessIsStrict(a, c);
    }
  }

  // No later commit has a lower version, and one version stands for one set of plugin files.
  predicate InOrder(a: Tree, b: Tree, dir: string) {
    && Version(a, dir).Some? && Version(b, dir).Some?
    && AtMost(Version(a, dir).value, Version(b, dir).value)
    && (Version(a, dir) == Version(b, dir) ==> Subtree(a, dir) == Subtree(b, dir))
  }

  ghost predicate Ordered(main: seq<Tree>, dir: string) {
    forall i, j :: 0 <= i <= j < |main| ==> InOrder(main[i], main[j], dir)
  }

  // A merge that changes the plugin's files finds the tip below the head's version.
  ghost predicate RaisedBeforehand(main: seq<Tree>, prs: seq<PullRequest>, k: int, dir: string)
    requires |main| == |prs| + 1 && 0 <= k < |prs|
  {
    Subtree(main[k], dir) != Subtree(main[k + 1], dir) ==>
      && Version(main[k], dir).Some? && Version(prs[k].head, dir).Some?
      && Less(Version(main[k], dir).value, Version(prs[k].head, dir).value)
  }

  lemma NextInOrder(base: Tree, tip: Tree, head: Tree, result: Tree, dir: string)
    requires CleanMerge(base, tip, head, result)
    requires Version(base, dir).Some? && Version(tip, dir).Some? && Version(head, dir).Some?
    requires AtMost(Version(base, dir).value, Version(tip, dir).value)
    ensures InOrder(tip, result, dir) <==>
              (Subtree(tip, dir) != Subtree(result, dir) ==> Less(Version(tip, dir).value, Version(head, dir).value))
  {
    hide CleanMerge, Less, Subtree;
    MergeRaisesIff(base, tip, head, result, dir);
    var t, r := Version(tip, dir).value, Version(result, dir).value;
    if Less(t, r) { LessIsStrict(t, r); }
    if Subtree(tip, dir) == Subtree(result, dir) { SubtreeHoldsStamp(tip, result, dir); }
  }

  lemma InOrderIsTransitive(a: Tree, b: Tree, c: Tree, dir: string)
    requires InOrder(a, b, dir) && InOrder(b, c, dir)
    ensures InOrder(a, c, dir)
  {
    hide Less, Subtree, Version;
    AtMostIsTransitive(Version(a, dir).value, Version(b, dir).value, Version(c, dir).value);
  }

  lemma {:induction false} OrderedUpTo(main: seq<Tree>, prs: seq<PullRequest>, dir: string, i: nat, j: nat)
    requires History(main, prs, dir) && Version(main[0], dir).Some? && i <= j < |main|
    requires forall k :: 0 <= k < j ==> RaisedBeforehand(main, prs, k, dir)
    ensures InOrder(main[i], main[j], dir)
    decreases j, i
  {
    hide Passes, Listed, CleanMerge, Version, Less, Subtree;
    if i == j {
      VersionsExist(main, prs, dir, i);
    } else {
      var k := j - 1;
      assert MergeStep(main, prs, k, dir) && RaisedBeforehand(main, prs, k, dir);
      var b := prs[k].branchPoint;
      OrderedUpTo(main, prs, dir, i, k);
      OrderedUpTo(main, prs, dir, b, k);
      VersionsExist(main, prs, dir, j);
      NextInOrder(main[b], main[k], prs[k].head, main[j], dir);
      InOrderIsTransitive(main[i], main[k], main[j], dir);
    }
  }

  /** Over any history whose pull requests were judged against any earlier commits: versions
      never fall and each stands for one tree exactly when every merge that changes the
      plugin's files finds the tip below the head's version. */
  lemma VersionsIdentifyTreesIff(main: seq<Tree>, prs: seq<PullRequest>, dir: string)
    requires History(main, prs, dir) && Version(main[0], dir).Some?
    ensures Ordered(main, dir) <==> forall k :: 0 <= k < |prs| ==> RaisedBeforehand(main, prs, k, dir)
  {
    hide Passes, Listed, CleanMerge, Version, Less, Subtree;
    if Ordered(main, dir) {
      forall k | 0 <= k < |prs| ensures RaisedBeforehand(main, prs, k, dir) {
        assert MergeStep(main, prs, k, dir);
        var b := prs[k].branchPoint;
        assert InOrder(main[b], main[k], dir) && InOrder(main[k], main[k + 1], dir);
        VersionsExist(main, prs, dir, k + 1);
        NextInOrder(main[b], main[k], prs[k].head, main[k + 1], dir);
      }
    } else if forall k :: 0 <= k < |prs| ==> RaisedBeforehand(main, prs, k, dir) {
      forall i, j | 0 <= i <= j < |main| ensures InOrder(main[i], main[j], dir) { OrderedUpTo(main, prs, dir, i, j); }
    }
  }

  ghost predicate OneTreePerVersion(main: seq<Tree>, dir: string) {
    forall i, j :: 0 <= i <= j < |main| && Version(main[i], dir) == Version(main[j], dir) ==> Subtree(main[i], dir) == Subtree(main[j], dir)
  }

  // A merge changes the plugin's files and finds the tip at the head's version already.
  ghost predicate Overtaken(main: seq<Tree>, prs: seq<PullRequest>, k: int, dir: string)
    requires |main| == |prs| + 1 && 0 <= k < |prs|
  {
    Subtree(main[k], dir) != Subtree(main[k + 1], dir) && Version(main[k], dir) == Version(prs[k].head, dir)
  }

  /** Judged at their branch points or later, whatever main has become since: two trees ship
      under one version exactly when some merge that changes the plugin's files finds the tip
      at its head's version already. */
  lemma TwoTreesIff(main: seq<Tree>, prs: seq<PullRequest>, dir: string)
    requires History(main, prs, dir) && JudgedSinceBranch(prs) && Version(main[0], dir).Some?
    ensures !OneTreePerVersion(main, dir) <==> exists k :: 0 <= k < |prs| && Overtaken(main, prs, k, dir)
  {
    hide Passes, Listed, CleanMerge, Version, Less, Subtree;
    VersionsIdentifyTreesIff(main, prs, dir);
    forall i, j | 0 <= i <= j < |main|
      ensures InOrder(main[i], main[j], dir) <==> (Version(main[i], dir) == Version(main[j], dir) ==> Subtree(main[i], dir) == Subtree(main[j], dir))
    {
      VersionsNeverFall(main, prs, dir, i, j);
    }
    assert Ordered(main, dir) <==> OneTreePerVersion(main, dir);
    forall k | 0 <= k < |prs| ensures RaisedBeforehand(main, prs, k, dir) <==> !Overtaken(main, prs, k, dir) {
      RaisedIsNotOvertaken(main, prs, k, dir);
    }
  }

  lemma RaisedIsNotOvertaken(main: seq<Tree>, prs: seq<PullRequest>, k: nat, dir: string)
    requires History(main, prs, dir) && JudgedSinceBranch(prs) && Version(main[0], dir).Some? && k < |prs|
    ensures RaisedBeforehand(main, prs, k, dir) <==> !Overtaken(main, prs, k, dir)
  {
    hide Passes, Listed, CleanMerge, Version, Less, Subtree;
    assert MergeStep(main, prs, k, dir);
    var b, n := prs[k].branchPoint, prs[k].judged;
    VersionsNeverFall(main, prs, dir, b, k);
    VersionsNeverFall(main, prs, dir, b, n);
    VersionsExist(main, prs, dir, k + 1);
    MergeKeepsOrder(main[b], main[n], main[k], prs[k].head, main[k + 1], dir);
    var t, h := Version(main[k], dir).value, Version(prs[k].head, dir).value;
    if Less(t, h) { LessIsStrict(t, h); }
  }

  /** The theorem the gate exists for. Over any history whose every merge passed
      against the then tip, with pull requests branched at any earlier commits, two
      commits of main that carry the same version carry the same plugin files. */
  lemma OneVersionOneTree(main: seq<Tree>, prs: seq<PullRequest>, dir: string)
    requires History(main, prs, dir) && JudgedAtTip(prs) && Version(main[0], dir).Some?
    ensures Ordered(main, dir) && OneTreePerVersion(main, dir)
  {
    hide Passes, Listed, CleanMerge, Version, Less, Subtree;
    forall k | 0 <= k < |prs| ensures prs[k].branchPoint <= prs[k].judged { assert MergeStep(main, prs, k, dir); }
    forall k | 0 <= k < |prs| ensures RaisedBeforehand(main, prs, k, dir) {
      assert MergeStep(main, prs, k, dir);
      var b := prs[k].branchPoint;
      VersionsNeverFall(main, prs, dir, b, k);
      MergeKeepsOrder(main[b], main[k], main[k], prs[k].head, main[k + 1], dir);
    }
    VersionsIdentifyTreesIff(main, prs, dir);
    forall i, j | 0 <= i <= j < |main| && Version(main[i], dir) == Version(main[j], dir)
      ensures Subtree(main[i], dir) == Subtree(main[j], dir)
    {
      assert InOrder(main[i], main[j], dir);
    }
  }

  // ---------------------------------------------------------------- what the hypotheses are needed for

  // Every listed plugin outside this directory is let through.
  ghost predicate OthersPass(base: Tree, tip: Tree, head: Tree, dir: string) {
    var sources := PluginSources(head);
    forall name :: name in sources && sources[name] != dir ==>
      Judge(TouchedSince(base, head, sources[name]), StampAt(tip, sources[name]), StampAt(head, sources[name])) == Pass
  }

  // The version was raised, or there was none yet.
  predicate Bumped(tip: Tree, head: Tree, dir: string) {
    || StampAt(tip, dir).Missing?
    || (Version(tip, dir).Some? && Version(head, dir).Some? && Less(Version(tip, dir).value, Version(head, dir).value))
  }

  /** A pull request that touches a plugin's files is let through, the other plugins
      passing, exactly when it raises the version or lists no plugin in that directory:
      one that takes the plugin out of the catalogs is not judged. */
  lemma TouchPassesIff(base: Tree, tip: Tree, head: Tree, dir: string)
    requires TouchedSince(base, head, dir) && PluginSources(head) != map[] && OthersPass(base, tip, head, dir)
    ensures Passes(base, tip, head) <==> !Listed(head, dir) || Bumped(tip, head, dir)
  {
    JudgedBumped(tip, head, dir);
    if name :| name in PluginSources(head) && PluginSources(head)[name] == dir {
      assert Listed(head, dir);
    }
  }

  lemma JudgedBumped(tip: Tree, head: Tree, dir: string)
    ensures Judge(true, StampAt(tip, dir), StampAt(head, dir)) == Pass <==> Bumped(tip, head, dir)
  {
    if Version(tip, dir).Some? && Version(head, dir).Some? {
      var b, n := Version(tip, dir).value, Version(head, dir).value;
      LessIsTotal(b, n);
      if Less(b, n) { LessIsStrict(b, n); }
      if Less(n, b) { LessIsStrict(n, b); }
    }
  }

  predicate CoversNone(sources: map<string, string>, p: string) {
    forall name :: name in sources ==> !Under(p, sources[name])
  }

  /** Two such pull requests undo the guarantee: one takes the plugin out of the catalog
      and adds a file to it, the next puts the catalog back. Both pass and merge cleanly,
      and two commits that list the plugin at one version differ in its files. */
  lemma DelistingShipsTwoTrees(t: Tree, dir: string, cut: Content, a: string, x: Content)
    requires CANONICAL_CATALOG in t && a !in t && !IsCatalog(a) && !IsCatalog(ManifestPath(dir))
    requires Under(a, dir) && Listed(t, dir) && Version(t, dir).Some?
    requires var first := t[CANONICAL_CATALOG := cut][a := x];
             && !Listed(first, dir) && PluginSources(first) != map[]
             && CoversNone(PluginSources(first), a) && CoversNone(PluginSources(first), CANONICAL_CATALOG)
    requires CoversNone(PluginSources(t), CANONICAL_CATALOG)
    ensures var first := t[CANONICAL_CATALOG := cut][a := x];
            var second := first[CANONICAL_CATALOG := t[CANONICAL_CATALOG]];
            && Passes(t, t, first) && CleanMerge(t, t, first, first)
            && Passes(first, first, second) && CleanMerge(first, first, second, second)
            && Listed(second, dir) && Version(second, dir) == Version(t, dir)
            && Subtree(second, dir) != Subtree(t, dir)
  {
    hide Judge, AddEntries;
    var first := t[CANONICAL_CATALOG := cut][a := x];
    var second := first[CANONICAL_CATALOG := t[CANONICAL_CATALOG]];
    assert EntriesAt(second, CANONICAL_CATALOG) == EntriesAt(t, CANONICAL_CATALOG);
    assert EntriesAt(second, ROOT_CATALOG) == EntriesAt(t, ROOT_CATALOG);
    UntouchedPasses(t, first);
    UntouchedPasses(first, second);
    FirstMergeIsClean(t, first);
    FirstMergeIsClean(first, second);
    assert a in Subtree(second, dir) && a !in Subtree(t, dir);
  }

  // A pull request that changes nothing under a listed directory is let through.
  lemma UntouchedPasses(base: Tree, head: Tree)
    requires PluginSources(head) != map[]
    requires forall p, name :: !Same(base, head, p) && name in PluginSources(head) ==> !Under(p, PluginSources(head)[name])
    ensures Passes(base, base, head)
  {
  }

  predicate IsCatalog(p: string) { p == ROOT_CATALOG || p == CANONICAL_CATALOG }

  /** An edit of one file, a manifest or a catalog as well, that leaves every version alone
      gets through exactly when no listed plugin that already has a version covers that file. */
  lemma UnbumpedEditPasses(t: Tree, p: string, c: Content)
    requires !(p in t && t[p] == c)
    requires var sources := PluginSources(t[p := c]);
             sources != map[] && forall name :: name in sources ==> StampAt(t[p := c], sources[name]) == StampAt(t, sources[name])
    ensures var sources := PluginSources(t[p := c]);
            Passes(t, t, t[p := c]) <==>
              forall name :: name in sources ==> !Under(p, sources[name]) || StampAt(t, sources[name]).Missing?
  {
    hide Judge, PluginSources;
    var head := t[p := c];
    var sources := PluginSources(head);
    assert !Same(t, head, p);
    forall name | name in sources
      ensures Judge(TouchedSince(t, head, sources[name]), StampAt(t, sources[name]), StampAt(head, sources[name])) == Pass
              <==> !Under(p, sources[name]) || StampAt(t, sources[name]).Missing?
    {
      assert TouchedSince(t, head, sources[name]) <==> Under(p, sources[name]);
      SameStampIsNoBump(TouchedSince(t, head, sources[name]), StampAt(t, sources[name]));
    }
  }

  lemma SameStampIsNoBump(touched: bool, stamp: Stamp)
    ensures Judge(touched, stamp, stamp) == Pass <==> !touched || stamp.Missing?
  {
  }

  /** A plugin at the repository root, written "./" or ".", is listed with the
      directory "." and no repository path starts with "./": it is never gated. */
  lemma RootPluginIsNeverGated(base: Tree, tip: Tree, head: Tree)
    requires forall p :: p in base || p in head ==> !HasPrefix(p, "./")
    ensures NormSource("./") == "." && NormSource(".") == "."
    ensures Judge(TouchedSince(base, head, "."), StampAt(tip, "."), StampAt(head, ".")) == Pass
  {
    SplitPiece(".", '/');
    SplitPiece("", '/');
    SplitConcat(".", "", '/');
    assert "./" == "." + ['/'] + "";
    assert Split("./", '/') == [".", ""];
    assert FoldPath([".", ""][1..], false, []) == FoldPath([""], false, []) == FoldPath([""][1..], false, []) == [];
    assert FoldPath([".", ""], false, []) == [];
    assert FoldPath(["."], false, []) == FoldPath(["."][1..], false, []) == [];
    assert "." + "/" == "./";
    forall p | Under(p, ".") ensures Same(base, head, p) {}
  }

  /** Judged against a base that is no longer the tip, two pull requests may raise
      to the same version, both pass, and merge cleanly: two different trees ship
      under one version. Judged against the tip the second is refused. */
  lemma StaleBaseShipsTwoTrees(t: Tree, name: string, dir: string, v: string, rest: string, a: string, b: string, x: Content, y: Content)
    requires PluginSources(t) == map[name := dir]
    requires Version(t, dir).Some? && ParseVersion(v).Some? && Less(Version(t, dir).value, ParseVersion(v).value)
    requires Under(a, dir) && Under(b, dir) && a !in t && b !in t && a != b
    requires !IsCatalog(a) && !IsCatalog(b) && !IsCatalog(ManifestPath(dir))
    ensures var raised := t[ManifestPath(dir) := Manifest(Str(v), rest)];
            var first, second, result := raised[a := x], raised[b := y], raised[a := x][b := y];
            && Passes(t, t, first) && CleanMerge(t, t, first, first)
            && Passes(t, t, second) && CleanMerge(t, first, second, result)
            && Version(first, dir) == Version(result, dir)
            && Subtree(first, dir) != Subtree(result, dir)
            && !Passes(t, first, second)
  {
    var m := ManifestPath(dir);
    var raised := t[m := Manifest(Str(v), rest)];
    var first, second, result := raised[a := x], raised[b := y], raised[a := x][b := y];
    SameCatalogs(t, first, name, dir);
    SameCatalogs(t, second, name, dir);
    assert m in t && t[m].Manifest?;
    RaisedPasses(t, first, name, dir);
    RaisedPasses(t, second, name, dir);
    FirstMergeIsClean(t, first);
    SecondMergeIsClean(t, m, Manifest(Str(v), rest), a, b, x, y);
    assert Under(b, dir) && !Same(t, second, b);
    assert b in Subtree(result, dir) && b !in Subtree(first, dir);
    UnraisedFails(t, first, second, name, dir);
  }

  /** Judged against a commit older than its branch point, a pull request may even take the
      version down: above the old one, below the one it started from. */
  lemma OldBaseLowersVersion(t: Tree, name: string, dir: string, high: string, low: string, rest: string)
    requires PluginSources(t) == map[name := dir] && !IsCatalog(ManifestPath(dir))
    requires Version(t, dir).Some? && ParseVersion(high).Some? && ParseVersion(low).Some?
    requires Less(Version(t, dir).value, ParseVersion(low).value) && Less(ParseVersion(low).value, ParseVersion(high).value)
    ensures var first := t[ManifestPath(dir) := Manifest(Str(high), rest)];
            var second := t[ManifestPath(dir) := Manifest(Str(low), rest)];
            && History([t, first, second], [PullRequest(0, 0, first), PullRequest(1, 0, second)], dir)
            && !InOrder(first, second, dir)
  {
    hide Passes, CleanMerge, TouchedSince, Listed;
    var m := ManifestPath(dir);
    var first, second := t[m := Manifest(Str(high), rest)], t[m := Manifest(Str(low), rest)];
    var main, prs := [t, first, second], [PullRequest(0, 0, first), PullRequest(1, 0, second)];
    LessIsTransitive(Version(t, dir).value, ParseVersion(low).value, ParseVersion(high).value);
    LessIsStrict(ParseVersion(low).value, ParseVersion(high).value);
    SameCatalogs(t, first, name, dir);
    SameCatalogs(t, second, name, dir);
    RaisedPasses(t, first, name, dir);
    RaisedPasses(t, second, name, dir);
    FirstMergeIsClean(t, first);
    FirstMergeIsClean(first, second);
    OnlyPluginIsListed(first, name, dir);
    OnlyPluginIsListed(second, name, dir);
    assert MergeStep(main, prs, 0, dir) && MergeStep(main, prs, 1, dir);
  }

  lemma OnlyPluginIsListed(t: Tree, name: string, dir: string)
    requires PluginSources(t) == map[name := dir]
    ensures Listed(t, dir)
  {
    assert name in PluginSources(t);
  }

  lemma RaisedPasses(t: Tree, head: Tree, name: string, dir: string)
    requires PluginSources(head) == map[name := dir]
    requires Version(t, dir).Some? && Version(head, dir).Some? && Less(Version(t, dir).value, Version(head, dir).value)
    ensures Passes(t, t, head)
  {
    assert name in PluginSources(head);
    LessIsStrict(Version(t, dir).value, Version(head, dir).value);
  }

  lemma UnraisedFails(t: Tree, tip: Tree, head: Tree, name: string, dir: string)
    requires PluginSources(head) == map[name := dir] && TouchedSince(t, head, dir)
    requires Version(tip, dir).Some? && Version(tip, dir) == Version(head, dir)
    ensures !Passes(t, tip, head)
  {
    assert PluginSources(head)[name] == dir;
  }

  lemma FirstMergeIsClean(t: Tree, head: Tree)
    ensures CleanMerge(t, t, head, head)
  {
  }

  // Two heads that write the same manifest and one new file each merge cleanly.
  lemma SecondMergeIsClean(t: Tree, m: string, c: Content, a: string, b: string, x: Content, y: Content)
    requires m in t && t[m].Manifest? && c.Manifest? && a !in t && b !in t && a != b
    ensures CleanMerge(t, t[m := c][a := x], t[m := c][b := y], t[m := c][a := x][b := y])
  {
  }

  lemma SameCatalogs(t: Tree, head: Tree, name: string, dir: string)
    requires PluginSources(t) == map[name := dir]
    requires Same(t, head, ROOT_CATALOG) && Same(t, head, CANONICAL_CATALOG)
    ensures PluginSources(head) == map[name := dir]
  {
    assert EntriesAt(head, ROOT_CATALOG) == EntriesAt(t, ROOT_CATALOG);
    assert EntriesAt(head, CANONICAL_CATALOG) == EntriesAt(t, CANONICAL_CATALOG);
  }
}
