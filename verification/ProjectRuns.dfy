/** Whole runs of a project: people edit descriptions and add or remove repos on
    either side, and inits with any outcome run in between. */
module ProjectRuns {
  import opened Common
  import opened DescriptionSync
  import opened OwnerInit
  import opened OwnerInitProperties

  datatype ProjectEvent =
    | LocalText(name: string, text: string)
    | ServerText(name: string, text: string)
    | LocalAdds(local: LocalRepo)
    | ServerAdds(server: ServerRepo)
    | LocalRemoves(name: string)
    | ServerRemoves(name: string)
    | Inits(outcome: Outcome)

  function SetLocalText(rs: seq<LocalRepo>, name: string, text: string): seq<LocalRepo> {
    if rs == [] then []
    else
      var l := rs[|rs| - 1];
      SetLocalText(rs[..|rs| - 1], name, text) + [if l.name == name then l.(description := text) else l]
  }

  function SetServerText(rs: seq<ServerRepo>, name: string, text: string): seq<ServerRepo> {
    if rs == [] then []
    else
      var s := rs[|rs| - 1];
      SetServerText(rs[..|rs| - 1], name, text) + [if s.name == name then s.(description := Some(text)) else s]
  }

  function LocalWithout(rs: seq<LocalRepo>, name: string): seq<LocalRepo> {
    if rs == [] then []
    else if rs[|rs| - 1].name == name then LocalWithout(rs[..|rs| - 1], name)
    else LocalWithout(rs[..|rs| - 1], name) + [rs[|rs| - 1]]
  }

  function ServerWithout(rs: seq<ServerRepo>, name: string): seq<ServerRepo> {
    if rs == [] then []
    else if rs[|rs| - 1].name == name then ServerWithout(rs[..|rs| - 1], name)
    else ServerWithout(rs[..|rs| - 1], name) + [rs[|rs| - 1]]
  }

  function ProjectStep(p: Project, e: ProjectEvent): Project {
    match e
    case LocalText(n, t) => p.(local := SetLocalText(p.local, n, t))
    case ServerText(n, t) => p.(server := SetServerText(p.server, n, t))
    case LocalAdds(l) => if l.name != "" && l.name !in LocalByName(p.local) then p.(local := p.local + [l]) else p
    case ServerAdds(s) => if s.name != "" && s.name !in ServerByName(p.server) then p.(server := p.server + [s]) else p
    case LocalRemoves(n) => p.(local := LocalWithout(p.local, n))
    case ServerRemoves(n) => p.(server := ServerWithout(p.server, n))
    case Inits(o) => Init(p, o)
  }

  function ProjectRun(p: Project, es: seq<ProjectEvent>): Project {
    if es == [] then p else ProjectStep(ProjectRun(p, es[..|es| - 1]), es[|es| - 1])
  }

  predicate Removes(e: ProjectEvent, n: string) { (e.LocalRemoves? || e.ServerRemoves?) && e.name == n }

  // No event of the run removes repo n from either side.
  predicate Keeps(es: seq<ProjectEvent>, n: string) {
    forall i :: 0 <= i < |es| ==> !Removes(es[i], n)
  }

  // What an event means to repo n alone.
  function EventFor(e: ProjectEvent, n: string): seq<Event> {
    match e
    case LocalText(m, t) => if m == n then [EditLocal(t)] else []
    case ServerText(m, t) => if m == n then [EditServer(t)] else []
    case Inits(o) => [RunInit(o)]
    case _ => []
  }

  function EventsFor(es: seq<ProjectEvent>, n: string): seq<Event> {
    if es == [] then [] else EventsFor(es[..|es| - 1], n) + EventFor(es[|es| - 1], n)
  }

  // ---------------------------------------------------------------- single events

  lemma {:induction false} SetLocalTextNames(rs: seq<LocalRepo>, m: string, t: string)
    ensures |SetLocalText(rs, m, t)| == |rs|
    ensures forall i :: 0 <= i < |rs| ==> SetLocalText(rs, m, t)[i].name == rs[i].name
  {
    if rs != [] { SetLocalTextNames(rs[..|rs| - 1], m, t); }
  }

  lemma {:induction false} SetServerTextNames(rs: seq<ServerRepo>, m: string, t: string)
    ensures |SetServerText(rs, m, t)| == |rs|
    ensures forall i :: 0 <= i < |rs| ==> SetServerText(rs, m, t)[i].name == rs[i].name
  {
    if rs != [] { SetServerTextNames(rs[..|rs| - 1], m, t); }
  }

  lemma {:induction false} SetLocalTextAt(rs: seq<LocalRepo>, m: string, t: string, n: string)
    ensures n in LocalByName(SetLocalText(rs, m, t)) <==> n in LocalByName(rs)
    ensures n in LocalByName(rs) ==>
      LocalByName(SetLocalText(rs, m, t))[n] == if m == n then LocalByName(rs)[n].(description := t) else LocalByName(rs)[n]
  {
    if rs != [] {
      SetLocalTextAt(rs[..|rs| - 1], m, t, n);
      var out := SetLocalText(rs, m, t);
      assert out[..|out| - 1] == SetLocalText(rs[..|rs| - 1], m, t);
      LocalNamesTheirKey(rs, n);
      LocalNamesTheirKey(rs[..|rs| - 1], n);
    }
  }

  lemma {:induction false} LocalNamesTheirKey(rs: seq<LocalRepo>, n: string)
    ensures n in LocalByName(rs) ==> LocalByName(rs)[n].name == n
  {
    if n in LocalByName(rs) { var i := LocalIndex(rs, n); }
  }

  lemma {:induction false} SetServerTextAt(rs: seq<ServerRepo>, m: string, t: string, n: string)
    ensures n in ServerByName(SetServerText(rs, m, t)) <==> n in ServerByName(rs)
    ensures n in ServerByName(rs) ==>
      ServerByName(SetServerText(rs, m, t))[n]
      == if m == n then ServerByName(rs)[n].(description := Some(t)) else ServerByName(rs)[n]
  {
    if rs != [] {
      SetServerTextAt(rs[..|rs| - 1], m, t, n);
      var out := SetServerText(rs, m, t);
      assert out[..|out| - 1] == SetServerText(rs[..|rs| - 1], m, t);
    }
  }

  lemma {:induction false} LocalWithoutAt(rs: seq<LocalRepo>, m: string, n: string)
    ensures n in LocalByName(LocalWithout(rs, m)) <==> n != m && n in LocalByName(rs)
    ensures n != m && n in LocalByName(rs) ==> LocalByName(LocalWithout(rs, m))[n] == LocalByName(rs)[n]
    ensures DistinctLocal(rs) ==> DistinctLocal(LocalWithout(rs, m))
  {
    if rs != [] {
      var init, last, out := rs[..|rs| - 1], rs[|rs| - 1], LocalWithout(rs, m);
      LocalWithoutAt(init, m, n);
      if last.name == m {
        assert out == LocalWithout(init, m);
      } else {
        assert out[..|out| - 1] == LocalWithout(init, m) && out[|out| - 1] == last;
        if DistinctLocal(rs) {
          forall i | 0 <= i < |LocalWithout(init, m)| ensures LocalWithout(init, m)[i].name != last.name {
            LocalWithoutIsFrom(init, m, i);
          }
        }
      }
    }
  }

  lemma {:induction false} LocalWithoutIsFrom(rs: seq<LocalRepo>, m: string, i: nat)
    requires i < |LocalWithout(rs, m)|
    ensures LocalWithout(rs, m)[i] in rs
  {
    if i < |LocalWithout(rs[..|rs| - 1], m)| { LocalWithoutIsFrom(rs[..|rs| - 1], m, i); }
  }

  lemma {:induction false} ServerWithoutAt(rs: seq<ServerRepo>, m: string, n: string)
    ensures n in ServerByName(ServerWithout(rs, m)) <==> n != m && n in ServerByName(rs)
    ensures n != m && n in ServerByName(rs) ==> ServerByName(ServerWithout(rs, m))[n] == ServerByName(rs)[n]
    ensures DistinctServer(rs) ==> DistinctServer(ServerWithout(rs, m))
  {
    if rs != [] {
      var init, last, out := rs[..|rs| - 1], rs[|rs| - 1], ServerWithout(rs, m);
      ServerWithoutAt(init, m, n);
      if last.name == m {
        assert out == ServerWithout(init, m);
      } else {
        assert out[..|out| - 1] == ServerWithout(init, m) && out[|out| - 1] == last;
        if DistinctServer(rs) {
          forall i | 0 <= i < |ServerWithout(init, m)| ensures ServerWithout(init, m)[i].name != last.name {
            ServerWithoutIsFrom(init, m, i);
          }
        }
      }
    }
  }

  lemma {:induction false} ServerWithoutIsFrom(rs: seq<ServerRepo>, m: string, i: nat)
    requires i < |ServerWithout(rs, m)|
    ensures ServerWithout(rs, m)[i] in rs
  {
    if i < |ServerWithout(rs[..|rs| - 1], m)| { ServerWithoutIsFrom(rs[..|rs| - 1], m, i); }
  }

  lemma StepKeepsNames(p: Project, e: ProjectEvent)
    requires Named(p)
    ensures Named(ProjectStep(p, e))
  {
    match e
    case LocalText(m, t) => SetLocalTextNames(p.local, m, t);
    case ServerText(m, t) => SetServerTextNames(p.server, m, t);
    case LocalAdds(l) => forall i | 0 <= i < |p.local| ensures p.local[i].name in LocalByName(p.local) { LocalAt(p.local, i); }
    case ServerAdds(s) => forall i | 0 <= i < |p.server| ensures p.server[i].name in ServerByName(p.server) { ServerAt(p.server, i); }
    case LocalRemoves(m) => LocalWithoutAt(p.local, m, m);
    case ServerRemoves(m) => ServerWithoutAt(p.server, m, m);
    case Inits(o) => LocalNamesAfterInit(p, o); MergedDistinct(p);
  }

  // An edit of one text, seen from repo n.
  lemma LocalTextProjects(p: Project, m: string, t: string, n: string)
    requires Named(p) && OnBoth(p, n)
    ensures var p' := ProjectStep(p, LocalText(m, t));
            OnBoth(p', n) && View(p', n) == if m == n then View(p, n).(local := t) else View(p, n)
  {
    hide SetLocalText, LocalByName, ServerByName;
    SetLocalTextAt(p.local, m, t, n);
  }

  lemma ServerTextProjects(p: Project, m: string, t: string, n: string)
    requires Named(p) && OnBoth(p, n)
    ensures var p' := ProjectStep(p, ServerText(m, t));
            OnBoth(p', n) && View(p', n) == if m == n then View(p, n).(server := t) else View(p, n)
  {
    hide SetServerText, LocalByName, ServerByName;
    SetServerTextAt(p.server, m, t, n);
  }

  // Other repos come and go without repo n noticing.
  lemma OthersProject(p: Project, e: ProjectEvent, n: string)
    requires Named(p) && OnBoth(p, n) && !Removes(e, n)
    requires e.LocalAdds? || e.ServerAdds? || e.LocalRemoves? || e.ServerRemoves?
    ensures OnBoth(ProjectStep(p, e), n) && View(ProjectStep(p, e), n) == View(p, n)
  {
    match e
    case LocalAdds(l) => assert (p.local + [l])[..|p.local|] == p.local;
    case ServerAdds(s) => assert (p.server + [s])[..|p.server|] == p.server;
    case LocalRemoves(m) => LocalWithoutAt(p.local, m, n);
    case ServerRemoves(m) => ServerWithoutAt(p.server, m, n);
    case _ =>
  }

  lemma RunOne(r: Repo, e: Event)
    ensures Run(r, []) == r && Run(r, [e]) == Step(r, e)
  {
    assert [e][..0] == [];
  }

  lemma StepProjects(p: Project, e: ProjectEvent, n: string)
    requires Named(p) && OnBoth(p, n) && !Removes(e, n)
    ensures OnBoth(ProjectStep(p, e), n)
    ensures View(ProjectStep(p, e), n) == Run(View(p, n), EventFor(e, n))
  {
    hide Named, OnBoth, Run, InitStep, View, Init, LocalByName, ServerByName;
    match e
    case LocalText(m, t) => LocalTextProjects(p, m, t, n); RunOne(View(p, n), EditLocal(t));
    case ServerText(m, t) => ServerTextProjects(p, m, t, n); RunOne(View(p, n), EditServer(t));
    case Inits(o) => InitSimulatesStep(p, o, n); RunOne(View(p, n), RunInit(o));
    case _ => OthersProject(p, e, n); RunOne(View(p, n), RunInit(Clean));
  }

  // ---------------------------------------------------------------- runs

  lemma {:induction false} RunKeepsNames(p: Project, es: seq<ProjectEvent>)
    requires Named(p)
    ensures Named(ProjectRun(p, es))
  {
    if es != [] {
      RunKeepsNames(p, es[..|es| - 1]);
      StepKeepsNames(ProjectRun(p, es[..|es| - 1]), es[|es| - 1]);
    }
  }

  lemma {:induction false} RunAppend(r: Repo, es: seq<Event>, fs: seq<Event>)
    ensures Run(r, es + fs) == Run(Run(r, es), fs)
  {
    if fs == [] {
      assert es + fs == es;
    } else {
      assert (es + fs)[..|es + fs| - 1] == es + fs[..|fs| - 1];
      RunAppend(r, es, fs[..|fs| - 1]);
    }
  }

  /** Refinement: along any run that never removes repo n, what happens to n is a
      run of the single-repo protocol on the events that concern n. Every result
      of DescriptionSync therefore holds of every repo of every project run. */
  lemma {:induction false} RunProjects(p: Project, es: seq<ProjectEvent>, n: string)
    requires Named(p) && OnBoth(p, n) && Keeps(es, n)
    ensures OnBoth(ProjectRun(p, es), n)
    ensures View(ProjectRun(p, es), n) == Run(View(p, n), EventsFor(es, n))
  {
    if es != [] {
      var before, e := es[..|es| - 1], es[|es| - 1];
      assert forall i :: 0 <= i < |before| ==> before[i] == es[i];
      RunProjects(p, before, n);
      RunKeepsNames(p, before);
      assert !Removes(e, n);
      StepProjects(ProjectRun(p, before), e, n);
      RunAppend(View(p, n), EventsFor(before, n), EventFor(e, n));
    }
  }

  predicate VisibleOutcomes(es: seq<ProjectEvent>) {
    forall i :: 0 <= i < |es| ==> es[i].Inits? ==> es[i].outcome == Clean || es[i].outcome == PatchFailed
  }

  lemma {:induction false} VisibleEventsFor(es: seq<ProjectEvent>, n: string)
    requires VisibleOutcomes(es)
    ensures VisibleInits(EventsFor(es, n))
  {
    if es != [] {
      var before := es[..|es| - 1];
      assert forall i :: 0 <= i < |before| ==> before[i] == es[i];
      VisibleEventsFor(before, n);
    }
  }

  /** No lost edit, for whole projects: whatever else happens in the run, an init
      changes a side of repo n only while that side still holds the text the last
      agreeing init left there. */
  lemma ProjectLosesNoEdit(p: Project, es: seq<ProjectEvent>, o: Outcome, n: string)
    requires Named(p) && OnBoth(p, n) && Keeps(es, n)
    requires VisibleOutcomes(es) && (o == Clean || o == PatchFailed)
    ensures var q := ProjectRun(p, es);
            && OnBoth(q, n) && OnBoth(Init(q, o), n)
            && var before, after, agreed := View(q, n), View(Init(q, o), n), LastAgreed(View(p, n), EventsFor(es, n));
               && (after.local != before.local ==> before.local == agreed && after.local == before.server)
               && (after.server != before.server ==> before.server == agreed && after.server == before.local)
  {
    hide Init, Keeps, EventsFor, ProjectRun, Named, VisibleOutcomes;
    var q, events := ProjectRun(p, es), EventsFor(es, n);
    RunProjects(p, es, n);
    RunKeepsNames(p, es);
    InitSimulatesStep(q, o, n);
    VisibleEventsFor(es, n);
    NoEditIsLost(View(p, n), events, o);
    assert (events + [RunInit(o)])[..|events|] == events;
  }

  // ---------------------------------------------------------------- running init twice

  lemma {:induction false} NoPushesNoChange(rs: seq<ServerRepo>, ds: seq<Decision>)
    requires !AnyPush(ds)
    ensures ApplyPushes(rs, ds) == rs
  {
    if ds != [] {
      var before := ds[..|ds| - 1];
      assert ds[|ds| - 1].direction != Push;
      assert forall i :: 0 <= i < |before| ==> before[i] == ds[i];
      NoPushesNoChange(rs, before);
    }
  }

  lemma ServerAfterCleanInit(p: Project)
    ensures Init(p, Clean).server == Merged(p)
  {
    if !NeedPatch(p) {
      NoPushesNoChange(p.server + [], Decisions(p.local, ServerByName(p.server)));
    }
  }

  // After a clean init both lists name the same repos in the same order, and no repo is left to push.
  lemma AlignedAfterCleanInit(p: Project, i: nat)
    requires Named(p) && i < |Merged(p)|
    ensures var q := Init(p, Clean);
            && |q.server| == |q.local| == |Merged(p)|
            && Named(q)
            && q.local[i].name == q.server[i].name == Merged(p)[i].name
            && OnBoth(q, q.server[i].name)
            && View(q, q.server[i].name) == Repo(q.local[i].baseline, q.local[i].description, Text(q.server[i].description))
            && (View(q, q.server[i].name).Settled() || View(q, q.server[i].name).InConflict())
  {
    var q := Init(p, Clean);
    var n := Merged(p)[i].name;
    ServerAfterCleanInit(p);
    MergedDistinct(p);
    LocalNamesAfterInit(p, Clean);
    ServerAt(q.server, i);
    LocalAt(q.local, i);
    MergedAt(p, i);
    if OnBoth(p, n) {
      InitSimulatesStep(p, Clean, n);
    } else {
      LocalDescsAt(p.local, ServerByName(p.server), true, n);
    }
  }

  lemma NothingLeftToSend(p: Project)
    requires Named(p)
    ensures !NeedPatch(Init(p, Clean))
  {
    var q := Init(p, Clean);
    var byName := ServerByName(q.server);
    ServerAfterCleanInit(p);
    if Appends(q.local, byName) != [] {
      var k := AppendSource(q.local, byName, 0);
      AlignedAfterCleanInit(p, k);
    }
    if AnyPush(Decisions(q.local, byName)) {
      var ds := Decisions(q.local, byName);
      var i :| 0 <= i < |ds| && ds[i].direction == Push;
      var k := DecisionSource(q.local, byName, i);
      AlignedAfterCleanInit(p, k);
    }
  }

  /** Idempotence: after a clean init, conflicts or not, a second init sends no
      PATCH and writes the file it found. */
  lemma SecondInitChangesNothing(p: Project, o: Outcome)
    requires Named(p)
    ensures var q := Init(p, Clean);
            && !NeedPatch(q)
            && Init(q, o) == q
  {
    hide ServerByName, LocalByName, Decisions;
    var q := Init(p, Clean);
    NothingLeftToSend(p);
    ServerAfterCleanInit(p);
    var byName := ServerByName(q.server);
    NoPushesNoChange(q.server + [], Decisions(q.local, byName));
    assert Merged(q) == q.server;
    forall i | 0 <= i < |q.server|
      ensures i < |q.local| && YamlRepo(q.server[i], LocalDescs(Decisions(q.local, byName), true)) == q.local[i]
    {
      AlignedAfterCleanInit(p, i);
      LocalDescsAt(q.local, byName, true, q.server[i].name);
    }
    if |Merged(p)| > 0 { AlignedAfterCleanInit(p, 0); }
    assert YamlRepos(q.server, LocalDescs(Decisions(q.local, byName), true)) == q.local;
  }

  // ---------------------------------------------------------------- repos on one side only

  /** The appended repo. Its recorded baseline is its own text whatever became of
      the PATCH, so the baseline records something the server holds exactly when
      the PATCH was applied. */
  lemma AppendedBaseline(p: Project, o: Outcome, k: nat)
    requires Named(p) && o.FileWritten()
    requires k < |p.local| && Appendable(p.local[k], ServerByName(p.server))
    ensures var l, q := p.local[k], Init(p, o);
            && l.name in LocalByName(q.local)
            && RecordedAs(LocalByName(q.local)[l.name]) == LocalRepoDesc(l.description, l.description)
            && (l.name in ServerByName(q.server) <==> o.Applied())
            && (o.Applied() ==> Text(ServerByName(q.server)[l.name].description) == l.description)
  {
    var byName, l, q, m := ServerByName(p.server), p.local[k], Init(p, o), Merged(p);
    var j := AppendTarget(p.local, byName, k);
    var i := |p.server| + j;
    MergedAt(p, 0);
    MergedAt(p, i);
    MergedDistinct(p);
    LocalNamesAfterInit(p, o);
    LocalAt(q.local, i);
    ServerAt(m, i);
    LocalDescsAt(p.local, byName, !NeedPatch(p) || o.Acknowledged(), l.name);
  }

  /** So after a failed append, a repo of that name created on the server with
      another text takes the owner's text away on the next clean init, although
      the two sides never held a common one. */
  lemma FailedAppendLosesText(p: Project, k: nat, failed: Project, s: ServerRepo)
    requires Named(p) && failed == Init(p, PatchFailed)
    requires k < |p.local| && Appendable(p.local[k], ServerByName(p.server))
    requires s.name == p.local[k].name
    ensures var q := Init(ProjectStep(failed, ServerAdds(s)), Clean);
            && OnBoth(q, s.name)
            && View(q, s.name) == Repo(Text(s.description), Text(s.description), Text(s.description))
  {
    StepKeepsNames(p, Inits(PatchFailed));
    assert && s.name in LocalByName(failed.local) && s.name !in ServerByName(failed.server)
           && LocalByName(failed.local)[s.name].baseline == LocalByName(failed.local)[s.name].description by {
      AppendedBaseline(p, PatchFailed, k);
    }
    AdoptsNewServerRepo(failed, s);
  }

  // A local-only repo whose baseline equals its text takes the text of a server repo created later.
  lemma AdoptsNewServerRepo(p: Project, s: ServerRepo)
    requires Named(p)
    requires s.name != "" && s.name in LocalByName(p.local) && s.name !in ServerByName(p.server)
    requires LocalByName(p.local)[s.name].baseline == LocalByName(p.local)[s.name].description
    ensures var q := Init(ProjectStep(p, ServerAdds(s)), Clean);
            OnBoth(q, s.name) && View(q, s.name) == Repo(Text(s.description), Text(s.description), Text(s.description))
  {
    var p' := ProjectStep(p, ServerAdds(s));
    StepKeepsNames(p, ServerAdds(s));
    assert p'.server[..|p.server|] == p.server && p'.server[|p.server|] == s;
    InitSimulatesStep(p', Clean, s.name);
  }

  lemma UnfoldTwo(p: Project, e0: ProjectEvent, e1: ProjectEvent)
    ensures ProjectRun(p, [e0, e1]) == ProjectStep(ProjectStep(p, e0), e1)
  {
    assert [e0, e1][..1] == [e0];
    assert [e0][..0] == [];
    assert ProjectRun(p, [e0]) == ProjectStep(ProjectRun(p, []), e0);
  }

  /** Removing a repo on the server does not remove it: the owner's next clean
      init puts it back when the local entry has a URL, stripped of every field the
      local file does not carry; without a URL it disappears from both sides. */
  lemma ServerRemovalIsUndone(p: Project, n: string)
    requires Named(p) && OnBoth(p, n)
    ensures var l, q := LocalByName(p.local)[n], ProjectRun(p, [ServerRemoves(n), Inits(Clean)]);
            && (n in ServerByName(q.server) <==> l.url != "")
            && (n in LocalByName(q.local) <==> l.url != "")
            && (l.url != "" ==> ServerByName(q.server)[n] == AsServerRepo(l))
  {
    hide Init, ProjectRun, ServerWithout, Named, LocalByName, ServerByName;
    UnfoldTwo(p, ServerRemoves(n), Inits(Clean));
    var p1 := ProjectStep(p, ServerRemoves(n));
    StepKeepsNames(p, ServerRemoves(n));
    ServerWithoutAt(p.server, n, n);
    if LocalByName(p.local)[n].url != "" {
      PutBackAfterInit(p1, n);
    } else {
      GoneAfterInit(p1, n);
    }
  }

  lemma PutBackAfterInit(p: Project, n: string)
    requires Named(p) && n !in ServerByName(p.server)
    requires n in LocalByName(p.local) && LocalByName(p.local)[n].url != ""
    ensures n in LocalByName(Init(p, Clean).local)
    ensures n in ServerByName(Init(p, Clean).server)
    ensures ServerByName(Init(p, Clean).server)[n] == AsServerRepo(LocalByName(p.local)[n])
  {
    var q := Init(p, Clean);
    var k := LocalIndex(p.local, n);
    LocalAt(p.local, k);
    ServerAfterCleanInit(p);
    AppendedBaseline(p, Clean, k);
    var i := ServerIndex(q.server, n);
    MergedAt(p, i);
    if i < |p.server| {
      ServerAt(p.server, i);
      assert false;
    }
    var j := AppendSource(p.local, ServerByName(p.server), i - |p.server|);
    LocalAt(p.local, j);
  }

  lemma GoneAfterInit(p: Project, n: string)
    requires Named(p) && n !in ServerByName(p.server)
    requires n in LocalByName(p.local) ==> LocalByName(p.local)[n].url == ""
    ensures n !in ServerByName(Init(p, Clean).server)
    ensures n !in LocalByName(Init(p, Clean).local)
  {
    var q := Init(p, Clean);
    ServerAfterCleanInit(p);
    if n in ServerByName(q.server) {
      var i := ServerIndex(q.server, n);
      NotMerged(p, n, i);
    } else if n in LocalByName(q.local) {
      var i := LocalIndex(q.local, n);
      NotMerged(p, n, i);
    }
  }

  // A name that is neither on the server nor appendable is not in the merged list.
  lemma NotMerged(p: Project, n: string, i: nat)
    requires Named(p) && n !in ServerByName(p.server)
    requires n in LocalByName(p.local) ==> LocalByName(p.local)[n].url == ""
    requires i < |Merged(p)|
    ensures Merged(p)[i].name != n
  {
    MergedAt(p, i);
    if i < |p.server| {
      ServerAt(p.server, i);
    } else {
      var j := AppendSource(p.local, ServerByName(p.server), i - |p.server|);
      LocalAt(p.local, j);
    }
  }
}
