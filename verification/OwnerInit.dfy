/** The owner's `init` of one project: merging the server's repo list with the
    local one, PATCHing the server, and rewriting the project's block of
    `.polyforge.yaml`. The project-level run is shown to be, repo by repo, the
    single-repo protocol of DescriptionSync. */
module OwnerInit {
  import opened Common
  import opened DescriptionSync

  // `detail` stands for the fields init carries through unread (positioning, modules, ...).
  datatype ServerRepo = ServerRepo(name: string, url: string, github: Option<string>,
                                   description: Option<string>, detail: string)

  datatype LocalRepo = LocalRepo(name: string, url: string, github: string,
                                 description: string, baseline: string)

  datatype Project = Project(server: seq<ServerRepo>, local: seq<LocalRepo>)

  function Text(o: Option<string>): string { if o.Some? then o.value else "" }

  // ---------------------------------------------------------------- what init computes

  // The lookup map a loop over the list builds; a later entry of the same name wins.
  function ServerByName(rs: seq<ServerRepo>): map<string, ServerRepo> {
    if rs == [] then map[]
    else ServerByName(rs[..|rs| - 1])[rs[|rs| - 1].name := rs[|rs| - 1]]
  }

  predicate Appendable(l: LocalRepo, byName: map<string, ServerRepo>) {
    l.name != "" && l.url != "" && l.name !in byName
  }

  function AsServerRepo(l: LocalRepo): ServerRepo {
    ServerRepo(l.name, l.url, None, if l.description != "" then Some(l.description) else None, "")
  }

  function Appends(locals: seq<LocalRepo>, byName: map<string, ServerRepo>): seq<ServerRepo> {
    if locals == [] then []
    else
      var l := locals[|locals| - 1];
      Appends(locals[..|locals| - 1], byName) + if Appendable(l, byName) then [AsServerRepo(l)] else []
  }

  function DecisionFor(l: LocalRepo, s: ServerRepo): Decision {
    Repo(l.baseline, l.description, Text(s.description)).Decide(l.name)
  }

  function Decisions(locals: seq<LocalRepo>, byName: map<string, ServerRepo>): seq<Decision> {
    if locals == [] then []
    else
      var l := locals[|locals| - 1];
      Decisions(locals[..|locals| - 1], byName)
      + if l.name != "" && l.name in byName then [DecisionFor(l, byName[l.name])] else []
  }

  // Sets the description of the first repo of that name, as the inner loop with its break does.
  function SetFirst(rs: seq<ServerRepo>, name: string, text: string): (out: seq<ServerRepo>)
    ensures |out| == |rs|
  {
    if rs == [] then []
    else if rs[0].name == name then [rs[0].(description := Some(text))] + rs[1..]
    else [rs[0]] + SetFirst(rs[1..], name, text)
  }

  function ApplyPushes(rs: seq<ServerRepo>, ds: seq<Decision>): (out: seq<ServerRepo>)
    ensures |out| == |rs|
  {
    if ds == [] then rs
    else
      var d := ds[|ds| - 1];
      var done := ApplyPushes(rs, ds[..|ds| - 1]);
      if d.direction == Push then SetFirst(done, d.repo, d.local) else done
  }

  function Merged(p: Project): seq<ServerRepo> {
    var byName := ServerByName(p.server);
    ApplyPushes(p.server + Appends(p.local, byName), Decisions(p.local, byName))
  }

  predicate AnyPush(ds: seq<Decision>) { exists i :: 0 <= i < |ds| && ds[i].direction == Push }

  predicate NeedPatch(p: Project) {
    var byName := ServerByName(p.server);
    Appends(p.local, byName) != [] || AnyPush(Decisions(p.local, byName))
  }

  function LocalDescs(ds: seq<Decision>, patchOK: bool): map<string, LocalRepoDesc> {
    if ds == [] then map[]
    else LocalDescs(ds[..|ds| - 1], patchOK)[ds[|ds| - 1].repo := LocalViewOf(ds[|ds| - 1], patchOK)]
  }

  // One repo as the local file records it.
  function YamlRepo(s: ServerRepo, descs: map<string, LocalRepoDesc>): LocalRepo {
    var d := if s.name in descs then descs[s.name] else LocalRepoDesc(Text(s.description), Text(s.description));
    LocalRepo(s.name, s.url, Text(s.github), d.description, d.baseline)
  }

  function YamlRepos(rs: seq<ServerRepo>, descs: map<string, LocalRepoDesc>): seq<LocalRepo> {
    seq(|rs|, i requires 0 <= i < |rs| => YamlRepo(rs[i], descs))
  }

  function Init(p: Project, o: Outcome): Project {
    var patchOK := !NeedPatch(p) || o.Acknowledged();
    var descs := LocalDescs(Decisions(p.local, ServerByName(p.server)), patchOK);
    Project(if NeedPatch(p) && o.Applied() then Merged(p) else p.server,
            if o.FileWritten() then YamlRepos(Merged(p), descs) else p.local)
  }

  // ---------------------------------------------------------------- the loops

  method IndexServerRepos(serverRepos: seq<ServerRepo>) returns (serverByName: map<string, ServerRepo>)
    ensures serverByName == ServerByName(serverRepos)
  {
    serverByName := map[];
    for i := 0 to |serverRepos|
      invariant serverByName == ServerByName(serverRepos[..i])
    {
      assert serverRepos[..i + 1][..i] == serverRepos[..i];
      serverByName := serverByName[serverRepos[i].name := serverRepos[i]];
    }
    assert serverRepos[..|serverRepos|] == serverRepos;
  }

  method ReconcileDescriptions(localRepos: seq<LocalRepo>, serverByName: map<string, ServerRepo>)
    returns (decisions: seq<Decision>)
    ensures decisions == Decisions(localRepos, serverByName)
  {
    decisions := [];
    for i := 0 to |localRepos|
      invariant decisions == Decisions(localRepos[..i], serverByName)
    {
      assert localRepos[..i + 1][..i] == localRepos[..i];
      var lr := localRepos[i];
      if lr.name == "" || lr.name !in serverByName { continue; }
      var serverDesc := Text(serverByName[lr.name].description);
      decisions := decisions + [Decision(lr.name, ReconcileDescription(lr.baseline, lr.description, serverDesc),
                                         lr.baseline, lr.description, serverDesc)];
    }
    assert localRepos[..|localRepos|] == localRepos;
  }

  method CollectAppends(localRepos: seq<LocalRepo>, serverByName: map<string, ServerRepo>)
    returns (toAppend: seq<ServerRepo>)
    ensures toAppend == Appends(localRepos, serverByName)
  {
    toAppend := [];
    for i := 0 to |localRepos|
      invariant toAppend == Appends(localRepos[..i], serverByName)
    {
      assert localRepos[..i + 1][..i] == localRepos[..i];
      var lr := localRepos[i];
      if lr.name == "" || lr.url == "" { continue; }
      if lr.name !in serverByName {
        toAppend := toAppend + [ServerRepo(lr.name, lr.url, None, if lr.description != "" then Some(lr.description) else None, "")];
      }
    }
    assert localRepos[..|localRepos|] == localRepos;
  }

  method SetDescription(rs: seq<ServerRepo>, name: string, text: string) returns (out: seq<ServerRepo>)
    ensures out == SetFirst(rs, name, text)
  {
    for i := 0 to |rs|
      invariant forall j :: 0 <= j < i ==> rs[j].name != name
    {
      if rs[i].name == name {
        SetFirstSkips(rs, name, text, i);
        return rs[i := rs[i].(description := Some(text))];
      }
    }
    SetFirstSkips(rs, name, text, |rs|);
    return rs;
  }

  lemma {:induction false} SetFirstSkips(rs: seq<ServerRepo>, name: string, text: string, i: nat)
    requires i <= |rs| && forall j :: 0 <= j < i ==> rs[j].name != name
    ensures i == |rs| ==> SetFirst(rs, name, text) == rs
    ensures i < |rs| && rs[i].name == name ==> SetFirst(rs, name, text) == rs[i := rs[i].(description := Some(text))]
  {
    if i > 0 {
      SetFirstSkips(rs[1..], name, text, i - 1);
      assert rs == [rs[0]] + rs[1..];
    }
  }

  method PushLocalEdits(rs: seq<ServerRepo>, decisions: seq<Decision>) returns (merged: seq<ServerRepo>, pushed: nat)
    ensures merged == ApplyPushes(rs, decisions)
    ensures pushed > 0 <==> AnyPush(decisions)
  {
    merged, pushed := rs, 0;
    for k := 0 to |decisions|
      invariant merged == ApplyPushes(rs, decisions[..k])
      invariant pushed > 0 <==> AnyPush(decisions[..k])
    {
      assert decisions[..k + 1][..k] == decisions[..k];
      AnyPushExtend(decisions, k);
      var d := decisions[k];
      if d.direction != Push { continue; }
      pushed := pushed + 1;
      merged := SetDescription(merged, d.repo, d.local);
    }
    assert decisions[..|decisions|] == decisions;
  }

  lemma AnyPushExtend(ds: seq<Decision>, k: nat)
    requires k < |ds|
    ensures AnyPush(ds[..k + 1]) <==> AnyPush(ds[..k]) || ds[k].direction == Push
  {
    if AnyPush(ds[..k]) {
      var i :| 0 <= i < k && ds[..k][i].direction == Push;
      assert ds[..k + 1][i].direction == Push;
    } else if ds[k].direction == Push {
      assert ds[..k + 1][k].direction == Push;
    }
  }

  /** The owner-side init of one project. `acknowledged` is what the PATCH, if one is sent, reports back. */
  method RunOwnerInit(localRepos: seq<LocalRepo>, serverRepos: seq<ServerRepo>, acknowledged: bool)
    returns (merged: seq<ServerRepo>, localDescs: map<string, LocalRepoDesc>, needPatch: bool)
    ensures var p := Project(serverRepos, localRepos);
            && merged == Merged(p)
            && needPatch == NeedPatch(p)
            && localDescs == LocalDescs(Decisions(localRepos, ServerByName(serverRepos)), !needPatch || acknowledged)
  {
    hide Appends, Decisions, ApplyPushes, LocalViewOf, ServerByName, AnyPush;
    var serverByName := IndexServerRepos(serverRepos);
    var toAppend := CollectAppends(localRepos, serverByName);
    var decisions := ReconcileDescriptions(localRepos, serverByName);
    var pushed;
    merged, pushed := PushLocalEdits(serverRepos + toAppend, decisions);
    needPatch := |toAppend| > 0 || pushed > 0;
    var patchOK := !needPatch || acknowledged;
    localDescs := map[];
    for k := 0 to |decisions|
      invariant localDescs == LocalDescs(decisions[..k], patchOK)
    {
      assert decisions[..k + 1][..k] == decisions[..k];
      localDescs := localDescs[decisions[k].repo := LocalViewOf(decisions[k], patchOK)];
    }
    assert decisions[..|decisions|] == decisions;
  }
}
