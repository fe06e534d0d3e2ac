/** `doctor --fix` from the directory listing to the deletions: what the active
    listing selects, and what holds whatever that listing said. */
module WorktreeCheck {
  import opened Common
  import opened Text
  import opened WorktreeNames
  import opened ActiveListing
  import opened OrphanRemoval

  // What walking one project's listing came to.
  type Listing = string -> Result<seq<Item>, ListError>

  function SlugDirs(items: seq<Item>, n: nat): set<string>
    requires n <= |items|
  {
    if n == 0 then {}
    else
      var earlier, m := SlugDirs(items, n - 1), items[n - 1];
      if m.Object? && m.slug.Some? && m.slug.value != "" then earlier + {SlugDir(m.slug.value)} else earlier
  }

  function IdTails(items: seq<Item>, n: nat): set<string>
    requires n <= |items|
  {
    if n == 0 then {}
    else
      var earlier, m := IdTails(items, n - 1), items[n - 1];
      if m.Object? && m.id.Some? && |m.id.value| > 3 then earlier + {m.id.value[3..]} else earlier
  }

  // Everything the listings of the first n projects show as active, and the projects that could not be listed.
  function ActiveSlugs(projects: seq<string>, listing: Listing, n: nat): set<string>
    requires n <= |projects|
  {
    if n == 0 then {}
    else
      match listing(projects[n - 1])
      case Ok(items) => ActiveSlugs(projects, listing, n - 1) + SlugDirs(items, |items|)
      case Err(_) => ActiveSlugs(projects, listing, n - 1)
  }

  function ActiveIds(projects: seq<string>, listing: Listing, n: nat): set<string>
    requires n <= |projects|
  {
    if n == 0 then {}
    else
      match listing(projects[n - 1])
      case Ok(items) => ActiveIds(projects, listing, n - 1) + IdTails(items, |items|)
      case Err(_) => ActiveIds(projects, listing, n - 1)
  }

  function FailedProjects(projects: seq<string>, listing: Listing, n: nat): set<string>
    requires n <= |projects|
  {
    if n == 0 then {}
    else FailedProjects(projects, listing, n - 1) + if listing(projects[n - 1]).Err? then {projects[n - 1]} else {}
  }

  predicate ShownActive(name: string, slugs: set<string>, ids: set<string>) {
    name in slugs || (WorktreeUlid8(name) != "" && WorktreeUlid8(name) in ids)
  }

  // The name was compared with an incomplete set, so "not active" means nothing.
  predicate ListingGap(name: string, failed: set<string>) {
    failed != {} && (WorktreeProject(name) == "" || WorktreeProject(name) in failed)
  }

  // A worktree name that complete listings do not show as active.
  predicate IsOrphan(d: string, projects: seq<string>, listing: Listing) {
    && HasPrefix(d, PF)
    && !ShownActive(d, ActiveSlugs(projects, listing, |projects|), ActiveIds(projects, listing, |projects|))
    && !ListingGap(d, FailedProjects(projects, listing, |projects|))
  }

  method CollectActive(projects: seq<string>, listing: Listing)
    returns (slugs: set<string>, ids: set<string>, failed: set<string>)
    ensures slugs == ActiveSlugs(projects, listing, |projects|)
    ensures ids == ActiveIds(projects, listing, |projects|)
    ensures failed == FailedProjects(projects, listing, |projects|)
  {
    slugs, ids, failed := {}, {}, {};
    for k := 0 to |projects|
      invariant slugs == ActiveSlugs(projects, listing, k)
      invariant ids == ActiveIds(projects, listing, k)
      invariant failed == FailedProjects(projects, listing, k)
    {
      var result := listing(projects[k]);
      if result.Err? {
        failed := failed + {projects[k]};
        continue;
      }
      var newSlugs, newIds := CollectItems(result.value);
      slugs, ids := slugs + newSlugs, ids + newIds;
    }
  }

  method CollectItems(items: seq<Item>) returns (slugs: set<string>, ids: set<string>)
    ensures slugs == SlugDirs(items, |items|) && ids == IdTails(items, |items|)
  {
    slugs, ids := {}, {};
    for i := 0 to |items|
      invariant slugs == SlugDirs(items, i) && ids == IdTails(items, i)
    {
      if items[i].NotObject? { continue; }
      if items[i].id.Some? && |items[i].id.value| > 3 { ids := ids + {items[i].id.value[3..]}; }
      if items[i].slug.Some? && items[i].slug.value != "" { slugs := slugs + {SlugDir(items[i].slug.value)}; }
    }
  }

  // Splits the worktrees into orphan candidates and ones the listing cannot speak about.
  method SelectCandidates(wt: seq<string>, slugs: set<string>, ids: set<string>, failed: set<string>)
    returns (candidates: seq<string>, unverifiable: seq<string>)
    ensures forall d :: d in candidates <==> d in wt && !ShownActive(d, slugs, ids) && !ListingGap(d, failed)
    ensures forall d :: d in unverifiable <==> d in wt && !ShownActive(d, slugs, ids) && ListingGap(d, failed)
  {
    candidates, unverifiable := [], [];
    for i := 0 to |wt|
      invariant forall d :: d in candidates <==> d in wt[..i] && !ShownActive(d, slugs, ids) && !ListingGap(d, failed)
      invariant forall d :: d in unverifiable <==> d in wt[..i] && !ShownActive(d, slugs, ids) && ListingGap(d, failed)
    {
      assert wt[..i + 1] == wt[..i] + [wt[i]];
      if ShownActive(wt[i], slugs, ids) { continue; }
      if ListingGap(wt[i], failed) {
        unverifiable := unverifiable + [wt[i]];
      } else {
        candidates := candidates + [wt[i]];
      }
    }
    assert wt[..|wt|] == wt;
  }

  method Worktrees(entries: seq<string>) returns (wt: seq<string>)
    ensures forall d :: d in wt <==> d in entries && HasPrefix(d, PF)
  {
    wt := [];
    for i := 0 to |entries|
      invariant forall d :: d in wt <==> d in entries[..i] && HasPrefix(d, PF)
    {
      assert entries[..i + 1] == entries[..i] + [entries[i]];
      if HasPrefix(entries[i], PF) { wt := wt + [entries[i]]; }
    }
    assert entries[..|entries|] == entries;
  }

  /** `checkWorktrees` with --fix. `connected` is whether there is a client and a
      config to ask with; `listing` may be wrong in any way whatever. */
  method CheckWorktrees(ws: Workspace, w: World, entries: seq<string>, connected: bool,
                        projects: seq<string>, listing: Listing, forced: Forced)
    returns (r: Report)
    requires forall d :: d in entries <==> d in ws.dirs
    requires forall d :: w.key(d) == WorktreeLookupKey(d)
    modifies ws
    ensures ws.dirs <= old(ws.dirs)
    // Deletion safety, whatever the listing said.
    ensures forall d :: d in old(ws.dirs) - ws.dirs ==> HasPrefix(d, PF) && Rechecked(w, r.acted, forced, d)
    // Unforced, only what was read as wrapped, failed or cancelled goes, whatever becomes of the rest.
    ensures forall d :: d in old(ws.dirs) - ws.dirs && d !in forced ==> ReadAsFinished(w, r.acted, d)
    // And what every re-check of the run read as one of these is not refused.
    ensures forall d :: AlwaysReadAsFinished(w, r.acted, d) ==> d !in r.refused
    // What is left unlooked at was not named; what went by force was, and for a reason.
    ensures connected ==> forall d :: d in r.unverifiable ==> d !in forced
    ensures forall d :: d in r.forced ==> d in forced && LetThroughByForce(w, r.acted, forced, d)
    // What the listing shows as active is not acted on, not even by force.
    ensures forall d :: ShownActive(d, ActiveSlugs(projects, listing, |projects|), ActiveIds(projects, listing, |projects|)) ==> d !in r.acted
    // What a failed listing says nothing about is acted on only when named.
    ensures forall d :: d in r.acted && ListingGap(d, FailedProjects(projects, listing, |projects|)) ==> d in forced
    // Every other worktree on disk is looked at.
    ensures connected ==> forall d :: d in entries && IsOrphan(d, projects, listing) ==> d in r.acted
    // "ok" means nothing was kept, forced or failed, and every named directory was acted on, unless there was no worktree at all.
    ensures r.ok ==> r.refused == [] && r.forced == [] && r.failedRemoval == [] && r.unverifiable == []
    ensures r.ok ==> forall d :: d in r.acted ==> d !in ws.dirs && FoundFinished(w, r.acted, d)
    ensures r.ok && (exists d :: d in forced && d !in r.acted) ==> forall d :: d in entries ==> !HasPrefix(d, PF)
    // And then that is what is reported: nothing acted on, nothing unmatched, whatever was named.
    ensures (forall d :: d in entries ==> !HasPrefix(d, PF)) ==> r.ok && r.unmatched == {} && r.acted == []
    // With worktrees but nothing to ask with: not ok, nothing touched or acted on, every worktree
    // listed as not looked at, and again nothing unmatched, whatever was named.
    ensures !connected && (exists d :: d in entries && HasPrefix(d, PF)) ==>
              && !r.ok && r.acted == [] && r.unmatched == {} && ws.dirs == old(ws.dirs)
              && (forall d :: d in r.unverifiable <==> d in entries && HasPrefix(d, PF))
    // Otherwise every name that was not acted on is reported.
    ensures connected && (exists d :: d in entries && HasPrefix(d, PF)) ==> forall d :: d in r.unmatched <==> d in forced && d !in r.acted
  {
    var wt := Worktrees(entries);
    if |wt| == 0 { return Report([], [], [], [], [], [], {}, true); }
    assert wt[0] in wt;
    if !connected { return Report([], [], [], [], [], wt, {}, false); }
    var slugs, ids, failed := CollectActive(projects, listing);
    var candidates, unverifiable := SelectCandidates(wt, slugs, ids, failed);
    r := ws.RemoveOrphans(w, candidates, unverifiable, forced);
    ActedIs(r.acted, candidates, unverifiable, forced);
  }

  // Membership in what is acted on.
  lemma ActedIs(acted: seq<string>, candidates: seq<string>, unverifiable: seq<string>, forced: Forced)
    requires multiset(acted) == multiset(candidates) + multiset(Named(unverifiable, forced, |unverifiable|))
    ensures forall d :: d in acted <==> d in candidates || (d in unverifiable && d in forced)
  {
    forall d ensures d in acted <==> d in candidates || (d in unverifiable && d in forced) {
      NamedIs(unverifiable, forced, |unverifiable|, d);
      assert unverifiable[..|unverifiable|] == unverifiable;
      assert d in acted <==> d in multiset(acted);
    }
  }

  lemma {:induction false} NamedIs(unverifiable: seq<string>, forced: Forced, n: nat, d: string)
    requires n <= |unverifiable|
    ensures d in Named(unverifiable, forced, n) <==> d in unverifiable[..n] && d in forced
  {
    if n > 0 {
      NamedIs(unverifiable, forced, n - 1, d);
      assert unverifiable[..n] == unverifiable[..n - 1] + [unverifiable[n - 1]];
    }
  }

  /** A worktree whose work item is in a readable listing is shown active: for
      every #-free project, listing <p>#<seq> protects pf.<p>-<seq>. */
  lemma {:induction false} ListedIsShownActive(projects: seq<string>, listing: Listing, n: nat, k: nat, i: nat)
    requires k < n <= |projects| && listing(projects[k]).Ok? && i < |listing(projects[k]).value|
    ensures var m := listing(projects[k]).value[i];
            && (m.Object? && m.slug.Some? && m.slug.value != "" ==> SlugDir(m.slug.value) in ActiveSlugs(projects, listing, n))
            && (m.Object? && m.id.Some? && |m.id.value| > 3 ==> m.id.value[3..] in ActiveIds(projects, listing, n))
  {
    if k == n - 1 {
      var items := listing(projects[k]).value;
      ItemIsCollected(items, |items|, i);
    } else {
      ListedIsShownActive(projects, listing, n - 1, k, i);
    }
  }

  lemma {:induction false} ItemIsCollected(items: seq<Item>, n: nat, i: nat)
    requires i < n <= |items|
    ensures var m := items[i];
            && (m.Object? && m.slug.Some? && m.slug.value != "" ==> SlugDir(m.slug.value) in SlugDirs(items, n))
            && (m.Object? && m.id.Some? && |m.id.value| > 3 ==> m.id.value[3..] in IdTails(items, n))
  {
    if i < n - 1 { ItemIsCollected(items, n - 1, i); }
  }

  // ---------------------------------------------------------------- the selection, written out

  // Item i of the listing of project k, among the first n projects.
  ghost predicate IsListed(projects: seq<string>, listing: Listing, n: nat, m: Item)
    requires n <= |projects|
  {
    exists k :: 0 <= k < n && listing(projects[k]).Ok? && m in listing(projects[k]).value
  }

  predicate HasSlugDir(m: Item, dir: string) { m.Object? && m.slug.Some? && m.slug.value != "" && dir == SlugDir(m.slug.value) }

  predicate HasIdTail(m: Item, tail: string) { m.Object? && m.id.Some? && |m.id.value| > 3 && tail == m.id.value[3..] }

  lemma {:induction false} CollectedIff(items: seq<Item>, n: nat, name: string)
    requires n <= |items|
    ensures name in SlugDirs(items, n) <==> exists i :: 0 <= i < n && HasSlugDir(items[i], name)
    ensures name in IdTails(items, n) <==> exists i :: 0 <= i < n && HasIdTail(items[i], name)
  {
    if n > 0 { CollectedIff(items, n - 1, name); }
  }

  /** Exactly the directories of listed slugs are shown active, and exactly the tails of listed ids. */
  lemma {:induction false} ShownIff(projects: seq<string>, listing: Listing, n: nat, name: string)
    requires n <= |projects|
    ensures name in ActiveSlugs(projects, listing, n) <==> exists m :: IsListed(projects, listing, n, m) && HasSlugDir(m, name)
    ensures name in ActiveIds(projects, listing, n) <==> exists m :: IsListed(projects, listing, n, m) && HasIdTail(m, name)
    ensures name in FailedProjects(projects, listing, n) <==> exists k :: 0 <= k < n && projects[k] == name && listing(name).Err?
  {
    hide SlugDirs, IdTails, HasSlugDir, HasIdTail;
    if n > 0 {
      ShownIff(projects, listing, n - 1, name);
      var last := listing(projects[n - 1]);
      forall m
        ensures IsListed(projects, listing, n, m) <==> (IsListed(projects, listing, n - 1, m) || (last.Ok? && m in last.value))
      {
      }
      if last.Ok? { CollectedIff(last.value, |last.value|, name); }
    }
  }

  /** A project's directory is in a gap of the listing exactly when that project could not be
      listed, and a directory of no project exactly when any could not. */
  lemma GapIff(p: string, d: string, other: string, failed: set<string>)
    requires p != "" && '#' !in p && AllDigits(d) && WorktreeProject(other) == ""
    ensures ListingGap("pf." + p + "-" + d, failed) <==> p in failed
    ensures ListingGap(other, failed) <==> failed != {}
  {
    NameOfSlug(p, d);
  }

  /** So the directory of a work item goes unforced only if no readable listing shows its slug,
      its project could be listed, and it was read as over. */
  lemma CandidateIff(p: string, d: string, projects: seq<string>, listing: Listing)
    requires p != "" && '#' !in p && AllDigits(d)
    ensures IsOrphan("pf." + p + "-" + d, projects, listing) <==>
            && !(exists m :: IsListed(projects, listing, |projects|, m) && HasSlugDir(m, "pf." + p + "-" + d))
            && !(exists k :: 0 <= k < |projects| && projects[k] == p && listing(p).Err?)
  {
    var dir := "pf." + p + "-" + d;
    hide ActiveSlugs, ActiveIds, FailedProjects, HasSlugDir, IsListed;
    NameOfSlug(p, d);
    assert HasPrefix(dir, PF) by { assert dir[..3] == "pf."; }
    ShownIff(projects, listing, |projects|, dir);
    ShownIff(projects, listing, |projects|, p);
    GapIff(p, d, "", FailedProjects(projects, listing, |projects|));
    if WorktreeUlid8(dir) != "" { UlidHasNoSlug(dir); }
    SlugIsNotEmpty(p, d);
  }

  lemma SlugIsNotEmpty(p: string, d: string)
    requires p != "" && '#' !in p && AllDigits(d)
    ensures WorktreeSlug("pf." + p + "-" + d) != "" && WorktreeProject("") == ""
  {
    NameOfSlug(p, d);
  }

  /** A legacy directory becomes a candidate exactly when no readable listing shows its id, or a slug
      of that very name, and every project could be listed. */
  lemma LegacyCandidateIff(u: string, projects: seq<string>, listing: Listing)
    requires IsTail(u, u)
    ensures IsOrphan("pf." + u, projects, listing) <==>
            && !(exists m :: IsListed(projects, listing, |projects|, m) && (HasIdTail(m, u) || HasSlugDir(m, "pf." + u)))
            && !(exists k :: 0 <= k < |projects| && listing(projects[k]).Err?)
  {
    var dir := "pf." + u;
    hide ActiveSlugs, ActiveIds, FailedProjects, HasSlugDir, HasIdTail, IsListed;
    TailIsText(u, u);
    UlidIff(u, u);
    UlidHasNoSlug(dir);
    assert WorktreeProject(dir) == "";
    assert HasPrefix(dir, PF) by { assert dir[..3] == "pf."; }
    ShownIff(projects, listing, |projects|, dir);
    ShownIff(projects, listing, |projects|, u);
    SomeFailedIff(projects, listing, |projects|);
  }

  lemma {:induction false} SomeFailedIff(projects: seq<string>, listing: Listing, n: nat)
    requires n <= |projects|
    ensures FailedProjects(projects, listing, n) != {} <==> exists k :: 0 <= k < n && listing(projects[k]).Err?
  {
    if n > 0 { SomeFailedIff(projects, listing, n - 1); }
  }
}
