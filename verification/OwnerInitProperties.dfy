/** What one owner init, and any run of them, does to a project's repos. */
module OwnerInitProperties {
  import opened Common
  import opened DescriptionSync
  import opened OwnerInit

  predicate DistinctServer(rs: seq<ServerRepo>) {
    && (forall i :: 0 <= i < |rs| ==> rs[i].name != "")
    && (forall i, j :: 0 <= i < j < |rs| ==> rs[i].name != rs[j].name)
  }

  predicate DistinctLocal(rs: seq<LocalRepo>) {
    && (forall i :: 0 <= i < |rs| ==> rs[i].name != "")
    && (forall i, j :: 0 <= i < j < |rs| ==> rs[i].name != rs[j].name)
  }

  // Repo names are non-empty and distinct on each side.
  predicate Named(p: Project) { DistinctServer(p.server) && DistinctLocal(p.local) }

  function LocalByName(rs: seq<LocalRepo>): map<string, LocalRepo> {
    if rs == [] then map[]
    else LocalByName(rs[..|rs| - 1])[rs[|rs| - 1].name := rs[|rs| - 1]]
  }

  predicate OnBoth(p: Project, n: string) { n in ServerByName(p.server) && n in LocalByName(p.local) }

  // The three texts the protocol is about, for a repo present on both sides.
  function View(p: Project, n: string): Repo
    requires OnBoth(p, n)
  {
    var l := LocalByName(p.local)[n];
    Repo(l.baseline, l.description, Text(ServerByName(p.server)[n].description))
  }

  // ---------------------------------------------------------------- lookups

  lemma {:induction false} ServerAt(rs: seq<ServerRepo>, i: nat)
    requires DistinctServer(rs) && i < |rs|
    ensures rs[i].name in ServerByName(rs) && ServerByName(rs)[rs[i].name] == rs[i]
  {
    if i < |rs| - 1 { ServerAt(rs[..|rs| - 1], i); }
  }

  lemma {:induction false} ServerIndex(rs: seq<ServerRepo>, n: string) returns (i: nat)
    requires n in ServerByName(rs)
    ensures i < |rs| && rs[i].name == n && ServerByName(rs)[n] == rs[i]
  {
    if rs[|rs| - 1].name == n { i := |rs| - 1; } else { i := ServerIndex(rs[..|rs| - 1], n); }
  }

  lemma {:induction false} LocalAt(rs: seq<LocalRepo>, i: nat)
    requires DistinctLocal(rs) && i < |rs|
    ensures rs[i].name in LocalByName(rs) && LocalByName(rs)[rs[i].name] == rs[i]
  {
    if i < |rs| - 1 { LocalAt(rs[..|rs| - 1], i); }
  }

  lemma {:induction false} LocalIndex(rs: seq<LocalRepo>, n: string) returns (i: nat)
    requires n in LocalByName(rs)
    ensures i < |rs| && rs[i].name == n && LocalByName(rs)[n] == rs[i]
  {
    if rs[|rs| - 1].name == n { i := |rs| - 1; } else { i := LocalIndex(rs[..|rs| - 1], n); }
  }

  lemma LastIsNew(rs: seq<LocalRepo>)
    requires DistinctLocal(rs) && rs != []
    ensures rs[|rs| - 1].name !in LocalByName(rs[..|rs| - 1])
  {
    var n := rs[|rs| - 1].name;
    if n in LocalByName(rs[..|rs| - 1]) { var i := LocalIndex(rs[..|rs| - 1], n); }
  }

  // ---------------------------------------------------------------- the merged list

  predicate SameNames(a: seq<ServerRepo>, b: seq<ServerRepo>) {
    |a| == |b| && forall i :: 0 <= i < |a| ==> a[i].name == b[i].name
  }

  lemma {:induction false} SetFirstNames(rs: seq<ServerRepo>, name: string, text: string)
    ensures SameNames(SetFirst(rs, name, text), rs)
  {
    if rs != [] { SetFirstNames(rs[1..], name, text); }
  }

  lemma {:induction false} ApplyPushesNames(rs: seq<ServerRepo>, ds: seq<Decision>)
    ensures SameNames(ApplyPushes(rs, ds), rs)
  {
    if ds != [] {
      ApplyPushesNames(rs, ds[..|ds| - 1]);
      SetFirstNames(ApplyPushes(rs, ds[..|ds| - 1]), ds[|ds| - 1].repo, ds[|ds| - 1].local);
    }
  }

  lemma {:induction false} SetFirstAt(rs: seq<ServerRepo>, name: string, text: string, i: nat)
    requires DistinctServer(rs) && i < |rs|
    ensures SetFirst(rs, name, text)[i] == if rs[i].name == name then rs[i].(description := Some(text)) else rs[i]
  {
    if rs[0].name != name && i > 0 { SetFirstAt(rs[1..], name, text, i - 1); }
  }

  // What the push side leaves of one server repo: its description, replaced or not.
  function PushInto(s: ServerRepo, locals: map<string, LocalRepo>): ServerRepo {
    if s.name in locals && DecisionFor(locals[s.name], s).direction == Push
    then s.(description := Some(locals[s.name].description)) else s
  }

  // Decisions grow by at most one entry per local repo.
  lemma DecisionsUnfold(locals: seq<LocalRepo>, byName: map<string, ServerRepo>)
    requires locals != []
    ensures var init, l, ds := locals[..|locals| - 1], locals[|locals| - 1], Decisions(locals, byName);
            if l.name != "" && l.name in byName
            then ds != [] && ds[..|ds| - 1] == Decisions(init, byName) && ds[|ds| - 1] == DecisionFor(l, byName[l.name])
            else ds == Decisions(init, byName)
  {
  }

  lemma ApplyPushesUnfold(rs: seq<ServerRepo>, ds: seq<Decision>)
    requires ds != []
    ensures var d, done := ds[|ds| - 1], ApplyPushes(rs, ds[..|ds| - 1]);
            ApplyPushes(rs, ds) == if d.direction == Push then SetFirst(done, d.repo, d.local) else done
  {
  }

  lemma AllButLast(locals: seq<LocalRepo>)
    requires DistinctLocal(locals) && locals != []
    ensures DistinctLocal(locals[..|locals| - 1]) && locals[|locals| - 1].name != ""
  {
  }

  lemma {:induction false} ApplyPushesAt(rs: seq<ServerRepo>, locals: seq<LocalRepo>, byName: map<string, ServerRepo>, i: nat)
    requires DistinctServer(rs) && DistinctLocal(locals) && i < |rs|
    requires rs[i].name in byName ==> byName[rs[i].name] == rs[i]
    ensures ApplyPushes(rs, Decisions(locals, byName))[i]
         == if rs[i].name in byName then PushInto(rs[i], LocalByName(locals)) else rs[i]
  {
    hide DistinctLocal, SetFirst;
    if locals != [] {
      var init, l := locals[..|locals| - 1], locals[|locals| - 1];
      AllButLast(locals);
      ApplyPushesAt(rs, init, byName, i);
      LastIsNew(locals);
      DecisionsUnfold(locals, byName);
      var done := ApplyPushes(rs, Decisions(init, byName));
      assert LocalByName(locals) == LocalByName(init)[l.name := l];
      if l.name in byName {
        ApplyPushesUnfold(rs, Decisions(locals, byName));
        ApplyPushesNames(rs, Decisions(init, byName));
        SetFirstAt(done, l.name, l.description, i);
      }
    }
  }

  lemma {:induction false} AppendSource(locals: seq<LocalRepo>, byName: map<string, ServerRepo>, i: nat) returns (k: nat)
    requires i < |Appends(locals, byName)|
    ensures k < |locals| && Appendable(locals[k], byName) && Appends(locals, byName)[i] == AsServerRepo(locals[k])
  {
    var init := locals[..|locals| - 1];
    if i < |Appends(init, byName)| { k := AppendSource(init, byName, i); } else { k := |locals| - 1; }
  }

  lemma {:induction false} AppendTarget(locals: seq<LocalRepo>, byName: map<string, ServerRepo>, k: nat) returns (i: nat)
    requires k < |locals| && Appendable(locals[k], byName)
    ensures i < |Appends(locals, byName)| && Appends(locals, byName)[i] == AsServerRepo(locals[k])
  {
    if k == |locals| - 1 { i := |Appends(locals, byName)| - 1; } else { i := AppendTarget(locals[..|locals| - 1], byName, k); }
  }

  lemma {:induction false} AppendsDistinct(locals: seq<LocalRepo>, byName: map<string, ServerRepo>)
    requires DistinctLocal(locals)
    ensures DistinctServer(Appends(locals, byName))
  {
    if locals != [] {
      var init := locals[..|locals| - 1];
      AppendsDistinct(init, byName);
      forall i | 0 <= i < |Appends(init, byName)|
        ensures Appends(init, byName)[i].name != locals[|locals| - 1].name
      {
        var k := AppendSource(init, byName, i);
        assert init[k] == locals[k];
      }
    }
  }

  lemma CombinedDistinct(p: Project)
    requires Named(p)
    ensures DistinctServer(p.server + Appends(p.local, ServerByName(p.server)))
  {
    var byName := ServerByName(p.server);
    AppendsDistinct(p.local, byName);
    forall i, j | 0 <= i < |p.server| && 0 <= j < |Appends(p.local, byName)|
      ensures p.server[i].name != Appends(p.local, byName)[j].name
    {
      ServerAt(p.server, i);
      var k := AppendSource(p.local, byName, j);
    }
  }

  lemma MergedAt(p: Project, i: nat)
    requires Named(p) && i < |Merged(p)|
    ensures |Merged(p)| == |p.server| + |Appends(p.local, ServerByName(p.server))|
    ensures Merged(p)[i] == if i < |p.server| then PushInto(p.server[i], LocalByName(p.local))
                            else Appends(p.local, ServerByName(p.server))[i - |p.server|]
  {
    var byName := ServerByName(p.server);
    var rs := p.server + Appends(p.local, byName);
    CombinedDistinct(p);
    if i < |p.server| {
      ServerAt(p.server, i);
    } else {
      var k := AppendSource(p.local, byName, i - |p.server|);
    }
    ApplyPushesAt(rs, p.local, byName, i);
  }

  lemma MergedDistinct(p: Project)
    requires Named(p)
    ensures DistinctServer(Merged(p))
  {
    var byName := ServerByName(p.server);
    CombinedDistinct(p);
    ApplyPushesNames(p.server + Appends(p.local, byName), Decisions(p.local, byName));
  }

  /** Framing. With distinct names the PATCHed list is the server's list, in
      order, with the description of the pushed repos replaced and nothing else
      touched, followed by exactly the local-only repos that have a URL. */
  lemma MergeFrames(p: Project)
    requires Named(p)
    ensures var m, n := Merged(p), |p.server|;
            && DistinctServer(m)
            && n <= |m|
            && (forall i :: 0 <= i < n ==> m[i] == PushInto(p.server[i], LocalByName(p.local)))
            && (forall i :: 0 <= i < n ==> m[i].(description := p.server[i].description) == p.server[i])
            && m[n..] == Appends(p.local, ServerByName(p.server))
            && (forall l :: l in p.local && Appendable(l, ServerByName(p.server)) ==> AsServerRepo(l) in m[n..])
  {
    var byName, m := ServerByName(p.server), Merged(p);
    MergedDistinct(p);
    forall i | 0 <= i < |m|
      ensures m[i] == if i < |p.server| then PushInto(p.server[i], LocalByName(p.local)) else Appends(p.local, byName)[i - |p.server|]
    {
      MergedAt(p, i);
    }
    forall l | l in p.local && Appendable(l, byName) ensures AsServerRepo(l) in Appends(p.local, byName) {
      var k :| 0 <= k < |p.local| && p.local[k] == l;
      var i := AppendTarget(p.local, byName, k);
    }
  }

  // ---------------------------------------------------------------- what the local file records

  lemma {:induction false} LocalDescsAt(locals: seq<LocalRepo>, byName: map<string, ServerRepo>, patchOK: bool, n: string)
    requires n != ""
    ensures var descs := LocalDescs(Decisions(locals, byName), patchOK);
            && (n in descs <==> n in LocalByName(locals) && n in byName)
            && (n in descs ==> descs[n] == LocalViewOf(DecisionFor(LocalByName(locals)[n], byName[n]), patchOK))
  {
    if locals != [] {
      var init, l, ds := locals[..|locals| - 1], locals[|locals| - 1], Decisions(locals, byName);
      LocalDescsAt(init, byName, patchOK, n);
      DecisionsUnfold(locals, byName);
      assert LocalByName(locals) == LocalByName(init)[l.name := l];
      if l.name != "" && l.name in byName {
        assert LocalDescs(ds, patchOK) == LocalDescs(Decisions(init, byName), patchOK)[l.name := LocalViewOf(DecisionFor(l, byName[l.name]), patchOK)];
      }
    }
  }

  lemma {:induction false} PushIsDecided(locals: seq<LocalRepo>, byName: map<string, ServerRepo>, k: nat)
    requires k < |locals| && locals[k].name != "" && locals[k].name in byName
    ensures DecisionFor(locals[k], byName[locals[k].name]) in Decisions(locals, byName)
  {
    DecisionsUnfold(locals, byName);
    if k < |locals| - 1 { PushIsDecided(locals[..|locals| - 1], byName, k); }
  }

  lemma {:induction false} DecisionSource(locals: seq<LocalRepo>, byName: map<string, ServerRepo>, i: nat) returns (k: nat)
    requires i < |Decisions(locals, byName)|
    ensures k < |locals| && locals[k].name in byName && Decisions(locals, byName)[i] == DecisionFor(locals[k], byName[locals[k].name])
  {
    DecisionsUnfold(locals, byName);
    var init := locals[..|locals| - 1];
    if i < |Decisions(init, byName)| { k := DecisionSource(init, byName, i); } else { k := |locals| - 1; }
  }

  lemma ServerAfterInit(p: Project, o: Outcome, n: string)
    requires Named(p) && n in ServerByName(p.server)
    ensures DistinctServer(Init(p, o).server)
    ensures n in ServerByName(Init(p, o).server)
    ensures ServerByName(Init(p, o).server)[n]
         == if NeedPatch(p) && o.Applied() then PushInto(ServerByName(p.server)[n], LocalByName(p.local)) else ServerByName(p.server)[n]
  {
    var i := ServerIndex(p.server, n);
    MergedDistinct(p);
    MergedAt(p, i);
    ServerAt(Merged(p), i);
  }

  lemma LocalNamesAfterInit(p: Project, o: Outcome)
    requires Named(p)
    ensures DistinctLocal(Init(p, o).local)
  {
    MergedDistinct(p);
    if o.FileWritten() {
      var locals, m := Init(p, o).local, Merged(p);
      assert |locals| == |m| && forall i :: 0 <= i < |m| ==> locals[i].name == m[i].name;
    }
  }

  function RecordedAs(l: LocalRepo): LocalRepoDesc { LocalRepoDesc(l.description, l.baseline) }

  lemma LocalAfterInit(p: Project, o: Outcome, n: string)
    requires Named(p) && OnBoth(p, n)
    ensures n in LocalByName(Init(p, o).local)
    ensures RecordedAs(LocalByName(Init(p, o).local)[n])
         == if o.FileWritten()
            then LocalViewOf(DecisionFor(LocalByName(p.local)[n], ServerByName(p.server)[n]), !NeedPatch(p) || o.Acknowledged())
            else RecordedAs(LocalByName(p.local)[n])
  {
    if o.FileWritten() {
      var i := ServerIndex(p.server, n);
      MergedAt(p, i);
      LocalNamesAfterInit(p, o);
      LocalAt(Init(p, o).local, i);
      LocalDescsAt(p.local, ServerByName(p.server), !NeedPatch(p) || o.Acknowledged(), n);
    }
  }

  lemma PushNeedsPatch(p: Project, n: string)
    requires Named(p) && OnBoth(p, n)
    requires View(p, n).Decide("").direction == Push
    ensures NeedPatch(p)
  {
    var byName := ServerByName(p.server);
    var k := LocalIndex(p.local, n);
    PushIsDecided(p.local, byName, k);
    var ds := Decisions(p.local, byName);
    var d := DecisionFor(p.local[k], byName[n]);
    var i :| 0 <= i < |ds| && ds[i] == d;
    assert ds[i].direction == Push;
  }

  /** The project-level init IS the single-repo step, for each repo on both sides. */
  lemma InitSimulatesStep(p: Project, o: Outcome, n: string)
    requires Named(p) && OnBoth(p, n)
    ensures Named(Init(p, o)) && OnBoth(Init(p, o), n)
    ensures View(Init(p, o), n) == InitStep(View(p, n), o)
  {
    hide ServerByName, LocalByName, Merged, YamlRepos;
    ServerAfterInit(p, o, n);
    LocalNamesAfterInit(p, o);
    LocalAfterInit(p, o, n);
    var i := ServerIndex(p.server, n);
    if View(p, n).Decide("").direction == Push { PushNeedsPatch(p, n); }
  }

  // ---------------------------------------------------------------- what is written, field by field

  lemma {:induction false} SetFirstKeeps(rs: seq<ServerRepo>, name: string, text: string, i: nat)
    requires i < |rs|
    ensures SetFirst(rs, name, text)[i].(description := rs[i].description) == rs[i]
  {
    if rs[0].name != name && i > 0 { SetFirstKeeps(rs[1..], name, text, i - 1); }
  }

  lemma {:induction false} PushesKeep(rs: seq<ServerRepo>, ds: seq<Decision>, i: nat)
    requires i < |rs|
    ensures ApplyPushes(rs, ds)[i].(description := rs[i].description) == rs[i]
  {
    if ds != [] {
      var d := ds[|ds| - 1];
      PushesKeep(rs, ds[..|ds| - 1], i);
      SetFirstKeeps(ApplyPushes(rs, ds[..|ds| - 1]), d.repo, d.local, i);
    }
  }

  // What is appended, written out: a named local repo with a URL that the server does not have.
  predicate AppendedFrom(s: ServerRepo, l: LocalRepo, server: seq<ServerRepo>) {
    && l.name != "" && l.url != "" && (forall k :: 0 <= k < |server| ==> server[k].name != l.name)
    && s.name == l.name && s.url == l.url && s.github == None && s.detail == ""
    && s.description == if l.description == "" then None else Some(l.description)
  }

  lemma {:induction false} KeysAre(rs: seq<ServerRepo>, n: string)
    ensures n in ServerByName(rs) <==> exists k :: 0 <= k < |rs| && rs[k].name == n
  {
    if rs != [] {
      KeysAre(rs[..|rs| - 1], n);
      if k :| 0 <= k < |rs| && rs[k].name == n && k < |rs| - 1 { assert rs[..|rs| - 1][k].name == n; }
      var before := rs[..|rs| - 1];
      if k :| 0 <= k < |before| && before[k].name == n { assert rs[k].name == n; }
    }
  }

  lemma {:induction false} AppendsFrom(locals: seq<LocalRepo>, server: seq<ServerRepo>, i: nat) returns (j: nat)
    requires i < |Appends(locals, ServerByName(server))|
    ensures j < |locals| && AppendedFrom(Appends(locals, ServerByName(server))[i], locals[j], server)
  {
    var byName, l := ServerByName(server), locals[|locals| - 1];
    if i < |Appends(locals[..|locals| - 1], byName)| {
      j := AppendsFrom(locals[..|locals| - 1], server, i);
    } else {
      j := |locals| - 1;
      KeysAre(server, l.name);
    }
  }

  lemma {:induction false} SetFirstIsFirst(rs: seq<ServerRepo>, name: string, text: string, k: nat, i: nat)
    requires k < i < |rs| && rs[k].name == name
    ensures SetFirst(rs, name, text)[i] == rs[i]
  {
    if rs[0].name != name { SetFirstIsFirst(rs[1..], name, text, k - 1, i - 1); }
  }

  // Every decision is about a repo the server has.
  predicate AboutServer(ds: seq<Decision>, server: seq<ServerRepo>) {
    forall d :: d in ds ==> exists k :: 0 <= k < |server| && server[k].name == d.repo
  }

  lemma {:induction false} DecisionsAreAboutServer(locals: seq<LocalRepo>, server: seq<ServerRepo>)
    ensures AboutServer(Decisions(locals, ServerByName(server)), server)
  {
    if locals != [] {
      DecisionsAreAboutServer(locals[..|locals| - 1], server);
      KeysAre(server, locals[|locals| - 1].name);
    }
  }

  lemma {:induction false} PushesKeepAppended(server: seq<ServerRepo>, more: seq<ServerRepo>, ds: seq<Decision>, i: nat)
    requires AboutServer(ds, server) && i < |more|
    ensures ApplyPushes(server + more, ds)[|server| + i] == more[i]
  {
    if ds != [] {
      var d, before := ds[|ds| - 1], ds[..|ds| - 1];
      assert d in ds;
      PushesKeepAppended(server, more, before, i);
      var k :| 0 <= k < |server| && server[k].name == d.repo;
      PushesKeep(server + more, before, k);
      SetFirstIsFirst(ApplyPushes(server + more, before), d.repo, d.local, k, |server| + i);
    }
  }

  /** The list that is sent, whatever the names: the server's repos in order with at most their
      descriptions changed, and behind them only local repos the server lacks, as they are. */
  lemma SentFields(p: Project, i: nat)
    requires i < |Merged(p)|
    ensures |p.server| <= |Merged(p)|
    ensures i < |p.server| ==> Merged(p)[i].(description := p.server[i].description) == p.server[i]
    ensures i >= |p.server| ==> exists j :: 0 <= j < |p.local| && AppendedFrom(Merged(p)[i], p.local[j], p.server)
  {
    hide Appends, Decisions, ApplyPushes, AppendedFrom;
    var byName := ServerByName(p.server);
    var more, ds := Appends(p.local, byName), Decisions(p.local, byName);
    PushesKeep(p.server + more, ds, i);
    if i >= |p.server| {
      var j := AppendsFrom(p.local, p.server, i - |p.server|);
      DecisionsAreAboutServer(p.local, p.server);
      PushesKeepAppended(p.server, more, ds, i - |p.server|);
    }
  }

  /** When the file is written, a server repo stands at its place with its own name, URL and GitHub
      name; behind them each appended repo stands with its own name and URL and no GitHub name. */
  lemma WrittenFields(p: Project, o: Outcome, i: nat)
    requires o.FileWritten() && i < |Init(p, o).local|
    ensures i < |p.server| ==>
              && Init(p, o).local[i].name == p.server[i].name
              && Init(p, o).local[i].url == p.server[i].url
              && Init(p, o).local[i].github == if p.server[i].github.Some? then p.server[i].github.value else ""
    ensures i >= |p.server| ==>
              && Init(p, o).local[i].github == ""
              && exists j :: 0 <= j < |p.local| && Init(p, o).local[i].name == p.local[j].name && Init(p, o).local[i].url == p.local[j].url
    ensures |Init(p, o).local| == |Merged(p)| >= |p.server|
  {
    SentFields(p, i);
  }
}
