/** Rewriting `.polyforge.yaml` as a whole: which project blocks are replaced,
    which are kept, and what a replaced block keeps of the file on disk. */
module WorkspaceConfig {
  import opened Common
  import opened DescriptionSync
  import opened OwnerInit

  datatype ConfigProject = ConfigProject(repos: seq<LocalRepo>, description: string, scenario: string)

  datatype Config = Config(aihubUrl: string, apiKeyEnv: string, projects: map<string, ConfigProject>)

  datatype ServerProject = ServerProject(name: string, description: Option<string>, owner: string, visible: bool,
                                         scenario: Option<string>, members: seq<string>, repos: seq<ServerRepo>)

  const EMPTY_PROJECT := ConfigProject([], "", "")

  predicate CallerHasRole(sp: ServerProject, user: string) {
    user != "" && (sp.owner == user || user in sp.members)
  }

  predicate Managed(sp: ServerProject, user: string) { sp.visible && CallerHasRole(sp, user) }

  type Reconciled = map<string, seq<ServerRepo>>
  type Descriptions = map<string, map<string, LocalRepoDesc>>

  function DescsFor(name: string, localDescs: Descriptions): map<string, LocalRepoDesc> {
    if name in localDescs then localDescs[name] else map[]
  }

  // One managed project's new block, started from whatever block stands under its name.
  function Block(sp: ServerProject, prior: ConfigProject, reconciled: Reconciled, localDescs: Descriptions): ConfigProject {
    var serverRepos := if sp.name in reconciled then reconciled[sp.name] else sp.repos;
    ConfigProject(YamlRepos(serverRepos, DescsFor(sp.name, localDescs)),
                  if Text(sp.description) != "" then Text(sp.description) else prior.description,
                  if sp.scenario.Some? then sp.scenario.value else prior.scenario)
  }

  function BlocksAfter(start: map<string, ConfigProject>, projects: seq<ServerProject>, user: string,
                       reconciled: Reconciled, localDescs: Descriptions): map<string, ConfigProject> {
    if projects == [] then start
    else
      var sp := projects[|projects| - 1];
      var blocks := BlocksAfter(start, projects[..|projects| - 1], user, reconciled, localDescs);
      if !Managed(sp, user) then blocks
      else blocks[sp.name := Block(sp, if sp.name in blocks then blocks[sp.name] else EMPTY_PROJECT, reconciled, localDescs)]
  }

  method YamlReposOf(serverRepos: seq<ServerRepo>, descs: map<string, LocalRepoDesc>) returns (repos: seq<LocalRepo>)
    ensures repos == YamlRepos(serverRepos, descs)
  {
    repos := [];
    for i := 0 to |serverRepos|
      invariant |repos| == i
      invariant forall j :: 0 <= j < i ==> repos[j] == YamlRepo(serverRepos[j], descs)
    {
      var r := serverRepos[i];
      var desc := Text(r.description);
      var baseline := desc;
      if r.name in descs {
        desc, baseline := descs[r.name].description, descs[r.name].baseline;
      }
      repos := repos + [LocalRepo(r.name, r.url, Text(r.github), desc, baseline)];
    }
  }

  method RewriteBlock(sp: ServerProject, prior: ConfigProject, reconciled: Reconciled, localDescs: Descriptions)
    returns (proj: ConfigProject)
    ensures proj == Block(sp, prior, reconciled, localDescs)
  {
    hide YamlRepos, Text, DescsFor;
    var repos := YamlReposOf(if sp.name in reconciled then reconciled[sp.name] else sp.repos, DescsFor(sp.name, localDescs));
    proj := prior.(repos := repos);
    if sp.scenario.Some? { proj := proj.(scenario := sp.scenario.value); }
    if Text(sp.description) != "" { proj := proj.(description := Text(sp.description)); }
  }

  /** The file init writes. `prev` is the parsed file on disk, None when it is
      missing or does not parse; `machineUrl` is the machine config's server URL,
      None when that config cannot be loaded. */
  method WritePolyforgeYaml(prev: Option<Config>, machineUrl: Option<string>, projects: seq<ServerProject>, user: string,
                            reconciled: Reconciled, localDescs: Descriptions)
    returns (r: Result<Config, string>)
    ensures r.Err? <==> (prev.None? || prev.value.aihubUrl == "") && machineUrl.None?
    ensures r.Ok? ==>
      && (prev.Some? && prev.value.aihubUrl != "" ==> r.value.aihubUrl == prev.value.aihubUrl)
      && (prev.None? || prev.value.aihubUrl == "" ==> Some(r.value.aihubUrl) == machineUrl)
      && r.value.apiKeyEnv == (if prev.Some? then prev.value.apiKeyEnv else "")
      && r.value.projects == BlocksAfter(if prev.Some? then prev.value.projects else map[], projects, user, reconciled, localDescs)
  {
    hide Block, CallerHasRole;
    var aihubUrl, apiKeyEnv := "", "";
    var blocks: map<string, ConfigProject> := map[];
    if prev.Some? {
      aihubUrl, apiKeyEnv, blocks := prev.value.aihubUrl, prev.value.apiKeyEnv, prev.value.projects;
    }
    if aihubUrl == "" {
      if machineUrl.None? { return Err("machine config"); }
      aihubUrl := machineUrl.value;
    }
    ghost var start := blocks;
    for k := 0 to |projects|
      invariant blocks == BlocksAfter(start, projects[..k], user, reconciled, localDescs)
    {
      assert projects[..k + 1][..k] == projects[..k];
      var sp := projects[k];
      if !sp.visible || !CallerHasRole(sp, user) { continue; }
      var proj := RewriteBlock(sp, if sp.name in blocks then blocks[sp.name] else EMPTY_PROJECT, reconciled, localDescs);
      blocks := blocks[sp.name := proj];
    }
    assert projects[..|projects|] == projects;
    return Ok(Config(aihubUrl, apiKeyEnv, blocks));
  }

  /** A block survives untouched, or stays absent, when no project of that name is
      one the caller can see and has a role in: not returned, hidden, or no role. */
  lemma {:induction false} OtherBlocksArePreserved(start: map<string, ConfigProject>, projects: seq<ServerProject>, user: string,
                                                   reconciled: Reconciled, localDescs: Descriptions, name: string)
    requires forall i :: 0 <= i < |projects| && projects[i].name == name ==>
      !projects[i].visible || user == "" || (projects[i].owner != user && user !in projects[i].members)
    ensures var after := BlocksAfter(start, projects, user, reconciled, localDescs);
            && (name in after <==> name in start)
            && (name in start ==> after[name] == start[name])
  {
    if projects != [] {
      var before := projects[..|projects| - 1];
      assert forall i :: 0 <= i < |before| ==> before[i] == projects[i];
      OtherBlocksArePreserved(start, before, user, reconciled, localDescs, name);
    }
  }

  /** Each recorded repo carries the name, URL and GitHub name of the server's at its place, and the
      description and baseline the reconciliation left, or the server's description for both. */
  predicate RecordedFor(written: seq<LocalRepo>, repos: seq<ServerRepo>, descs: map<string, LocalRepoDesc>) {
    && |written| == |repos|
    && forall j :: 0 <= j < |repos| ==>
         && written[j].name == repos[j].name && written[j].url == repos[j].url
         && written[j].github == (if repos[j].github.Some? then repos[j].github.value else "")
         && (repos[j].name in descs ==>
               written[j].description == descs[repos[j].name].description && written[j].baseline == descs[repos[j].name].baseline)
         && (repos[j].name !in descs ==>
               written[j].description == written[j].baseline == if repos[j].description.Some? then repos[j].description.value else "")
  }

  lemma {:induction false} LastBlockIs(start: map<string, ConfigProject>, projects: seq<ServerProject>, user: string,
                                       reconciled: Reconciled, localDescs: Descriptions, i: nat)
    requires i < |projects| && Managed(projects[i], user)
    requires forall j :: 0 <= j < |projects| && j != i ==> projects[j].name != projects[i].name
    ensures var after, sp := BlocksAfter(start, projects, user, reconciled, localDescs), projects[i];
            && sp.name in after
            && after[sp.name] == Block(sp, if sp.name in start then start[sp.name] else EMPTY_PROJECT, reconciled, localDescs)
  {
    var before := projects[..|projects| - 1];
    assert forall j :: 0 <= j < |before| ==> before[j] == projects[j];
    if i == |projects| - 1 {
      OtherBlocksArePreserved(start, before, user, reconciled, localDescs, projects[i].name);
    } else {
      LastBlockIs(start, before, user, reconciled, localDescs, i);
    }
  }

  /** The block of a managed project, field by field: its repos are those reconciled for it, or the
      server's, replaced wholesale; its description is the server's if that is not empty, its
      scenario the server's if there is one, and otherwise they are those on disk, or empty. */
  lemma ManagedBlockIsRewritten(start: map<string, ConfigProject>, projects: seq<ServerProject>, user: string,
                                reconciled: Reconciled, localDescs: Descriptions, i: nat)
    requires i < |projects| && projects[i].visible && user != "" && (projects[i].owner == user || user in projects[i].members)
    requires forall j :: 0 <= j < |projects| && j != i ==> projects[j].name != projects[i].name
    ensures var after, sp := BlocksAfter(start, projects, user, reconciled, localDescs), projects[i];
            && sp.name in after
            && RecordedFor(after[sp.name].repos, if sp.name in reconciled then reconciled[sp.name] else sp.repos,
                           if sp.name in localDescs then localDescs[sp.name] else map[])
            && (sp.description.Some? && sp.description.value != "" ==> after[sp.name].description == sp.description.value)
            && (sp.description.None? || sp.description.value == "" ==>
                  after[sp.name].description == if sp.name in start then start[sp.name].description else "")
            && (sp.scenario.Some? ==> after[sp.name].scenario == sp.scenario.value)
            && (sp.scenario.None? ==> after[sp.name].scenario == if sp.name in start then start[sp.name].scenario else "")
  {
    hide RecordedFor, BlocksAfter, Block;
    var sp := projects[i];
    LastBlockIs(start, projects, user, reconciled, localDescs, i);
    BlockFields(sp, if sp.name in start then start[sp.name] else EMPTY_PROJECT, reconciled, localDescs);
  }

  lemma BlockFields(sp: ServerProject, prior: ConfigProject, reconciled: Reconciled, localDescs: Descriptions)
    ensures var b := Block(sp, prior, reconciled, localDescs);
            && RecordedFor(b.repos, if sp.name in reconciled then reconciled[sp.name] else sp.repos,
                           if sp.name in localDescs then localDescs[sp.name] else map[])
            && (sp.description.Some? && sp.description.value != "" ==> b.description == sp.description.value)
            && (sp.description.None? || sp.description.value == "" ==> b.description == prior.description)
            && (sp.scenario.Some? ==> b.scenario == sp.scenario.value)
            && (sp.scenario.None? ==> b.scenario == prior.scenario)
  {
  }

  /** Handing the owner init's results to the writer records, for that project,
      the local side of the project-level step, whatever became of the PATCH. */
  lemma OwnerBlockIsInit(start: map<string, ConfigProject>, projects: seq<ServerProject>, user: string,
                         reconciled: Reconciled, localDescs: Descriptions, i: nat, local: seq<LocalRepo>, o: Outcome)
    requires i < |projects| && Managed(projects[i], user) && o.FileWritten()
    requires forall j :: 0 <= j < |projects| && j != i ==> projects[j].name != projects[i].name
    requires var p, name := Project(projects[i].repos, local), projects[i].name;
             && name in reconciled && reconciled[name] == Merged(p)
             && name in localDescs
             && localDescs[name] == LocalDescs(Decisions(p.local, ServerByName(p.server)), !NeedPatch(p) || o.Acknowledged())
    ensures projects[i].name in BlocksAfter(start, projects, user, reconciled, localDescs)
    ensures BlocksAfter(start, projects, user, reconciled, localDescs)[projects[i].name].repos
         == Init(Project(projects[i].repos, local), o).local
  {
    LastBlockIs(start, projects, user, reconciled, localDescs, i);
  }
}
