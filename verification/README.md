# polyforge-coding, verified core

A Dafny model of the parts of polyforge where a mistake loses somebody's work: the
two-way description sync and the files `polyforge init` rewrites, the plugin
version-bump gate, the resumable v0 database migration and its full-text index,
`polyforge doctor --fix`, the drain queue observation, and the corpus and search
aggregates. Each operation is written in the source's own form (loops over lists,
classes with fields that are updated in place, pure expressions) and tied by its
`ensures` to a specification function; lemmas then say what that function means over
all inputs, all runs or all reachable states.

`dafny verify dfyconfig.toml` checks everything.

## How it is laid out

| files | component |
|---|---|
| `Common`, `Text` | result types, permutations; the string operations of Go and Python that the code calls |
| `DescriptionSync`, `OwnerInit`, `OwnerInitProperties`, `ProjectRuns`, `WorkspaceConfig` | description sync: one repo, one project, whole runs, the `.polyforge.yaml` file |
| `ManagedBlock`, `ClaudeMdFile`, `BlockRendering`, `BlockReading`, `BlockText`, `BlockSplice`, `InitTwice` | the generated block in `CLAUDE.md`: splice, import line, rendering, reading back, the text written out, all of it together |
| `GitRemote`, `TokenClone`, `RemoteForms` | git URLs, credentials, scenario directories; the clone fallback with a token; the URL forms people write |
| `Versions`, `VersionGate`, `VersionHistory` | the bump gate, and what it guarantees over a history of main |
| `FtsIndex`, `Migration`, `MigrationProperties` | triggers and index; the six steps; every crash schedule |
| `WorktreeNames`, `ActiveListing`, `WorkItemStatus`, `OrphanRemoval`, `WorktreeCheck`, `WorktreeList`, `UsageScan`, `FenceRules` | `doctor`: name codec, cursor walk, statuses, deletion, the whole check, two line parsers, CommonMark's fences beside the scanned ones |
| `QueueObservation`, `Dependencies` | blocked work items, the blocker memo, the run's terminal state; the dependency responses it reads |
| `RankFusion`, `FixtureSlots`, `CorpusCensus` | rank fusion, online top-two, streaming counters |

The modelling choices that matter most:

- A **run** is a sequence of events. For the sync the events are human edits on either side
  and inits; an init's PATCH can succeed, fail, or be applied without its acknowledgement,
  and the process can die before or after it. `ProjectRuns.RunProjects` shows that a
  project's run, looked at through one repo, is a run of the single-repo protocol.
- A **history of main** is a sequence of trees. Each pull request branches at any earlier
  commit, is judged against any earlier commit (the tip it is merged onto where a result says
  so), and merges cleanly: a path changed on one side comes from that side, and a manifest
  changed on both merges its version line three-way.
- A **crash** leaves any prefix of the current step's statements durable. Any number of runs
  may be cut short before one completes.
- The **active listing** and the server's answers to re-checks are arbitrary functions, so the
  deletion results hold whatever the listing said.
- **Work-item reads are stable** during one queue observation; the memo is a class whose
  invariant ties it to the uncached predicate.
- `hide` in a lemma body only narrows what the solver unfolds; it assumes nothing.

## What does not hold, and exactly when

Where code and documentation disagree the model follows the code.

- `parse_version` accepts one trailing newline, because Python's `$` stands before it
  (`Versions.TrailingNewlineIsInvisible`).
- A plugin whose source is `.` or `./` is never gated: no repository path starts with `./`
  (`VersionHistory.RootPluginIsNeverGated`). An edit that leaves versions alone passes exactly
  when no listed plugin that already has a version covers the file
  (`VersionHistory.UnbumpedEditPasses`).
- The gate's theorem needs the version to be compared with the very tip merged onto, and the
  workflow passes the recorded base commit instead. Judged at its branch point or later, two
  trees ship under one version exactly when some merge that changes the plugin's files finds the
  tip at its head's version already (`VersionHistory.TwoTreesIff`, a family of such histories in
  `StaleBaseShipsTwoTrees`). Judged against a commit older still, the version may even fall
  (`OldBaseLowersVersion`); whatever it is judged against, versions rise and identify trees
  exactly when every such merge finds the tip below its head (`VersionsIdentifyTreesIff`).
- It also needs a pull request that touches a plugin's directory to list a plugin there. One
  that takes the plugin out of the catalogs is not judged, and exactly then an unraised change
  gets through (`VersionHistory.TouchPassesIff`); taking it out, adding a file and putting it
  back ships two trees under one version (`VersionHistory.DelistingShipsTwoTrees`).
- The comment at init.go:293-295 calls the baseline the value both sides last held. It is what
  they held when an init last *saw* them agree, which is the same exactly when they were settled
  at the last instant they were equal (`DescriptionSync.BaselineIsLastEqualIff`, with a run in
  `UnseenAgreement`). After a lost acknowledgement it is stale: a later server edit is
  overwritten exactly when it restores the old baseline (`DescriptionSync.EditAfterLostAck`).
- A local-only repo whose append failed still records its own text as baseline, which the
  server never held (`ProjectRuns.AppendedBaseline`); a repo of that name created on the server
  later then takes the owner's text away (`ProjectRuns.FailedAppendLosesText`).
- Removing a repo on the server does not last: the owner's next init puts it back, or drops it
  from both sides when the local entry has no URL (`ProjectRuns.ServerRemovalIsUndone`).
- The splice is idempotent exactly on well-marked files. A stray end marker makes every init
  append another block; an unterminated start marker makes the second init swallow the text
  behind it (`ManagedBlock.UpsertIsIdempotentIff`, `StrayEnd`, `UnterminatedStart`).
- Putting a description on one line does not stop it from forging a project heading: it does so
  exactly when the one line starts with `### ` (`BlockReading.ProjectsReadBackIff`).
- Nor does it take markers out. A name, one-lined description or one-lined headline that holds
  the end marker makes every further init leave one more tail of the block in the file
  (`BlockSplice.EverySpliceGrows`); a start marker in a field is harmless. A field that holds the
  old reference `@.claude/polyforge.md` is rewritten by the import-line edit when the file has no
  new one, and when the file holds the old one outside the block as well the second init writes
  something else again. On a well-marked file nothing else breaks idempotence
  (`InitTwice.InitIsIdempotentIff`).
- internal/cli/doctor.go:1664-1669 appeals to CommonMark for fences. The scan follows CommonMark 0.31 (fences in
  section 4.5, tab stops in 2.2, line endings in 2.1) on every line exactly when it takes no line
  for an opening fence behind a tab or with a backtick in a backtick fence's info string, and no
  line for a closing fence behind a tab or with text behind it (`FenceRules.FencesAsSpecifiedIff`,
  with `InfoStringClosesFence`, `TabbedFenceCloses` and `SpanOpensFence`). Carriage returns at the
  end of lines do not matter (`LineEndingsDoNotMatter`).
- internal/cli/doctor.go:1691-1694 says that indented code does not count. A heading behind four columns does
  count exactly when a tab is among them (`FenceRules.IndentedHeadingIff`, `TabbedHeadingCounts`).
- With no worktree on disk at all the report is "ok", and there, as without a client or a
  `.polyforge.yaml`, directories named by `--force-remove` are not reported as unmatched
  (`WorktreeCheck.CheckWorktrees`).
- A scenario repo shares its directory with another owner and repo exactly when its owner's or
  its own name holds an underscore, a backslash or a NUL (`GitRemote.SharedDirIff`, instances in
  `BlurredNamesCollide`), and always with a one-segment URL spelled like the directory
  (`OneSegmentShares`).
- The token fallback does not always clone "the same" repository: exactly when the token holds a
  slash, the first `https://` is not the URL's scheme or nothing follows it, or an ssh URL still
  shows a scheme, the clone is later called somebody else's (`TokenClone.TokenCloneIsAcceptedIff`).
- The placeholder id `hidden` is taken for an address when it is sent as a bare string
  (`QueueObservation.EdgesCarryAddresses`).
- "Completed" is reported while queued work remains, when that work is explicitly free of a
  human session but not in the ready list (`QueueObservation.QueuedWorkReportedCompleted`).
- The uses of a transcript equal its pairs plus its leftovers exactly when no call id is reused
  while its call is still open (`CorpusCensus.UsesArePairedOrLeftIff`).
- A migration resumed before step 5 is over completes exactly when no vector has lost its row and,
  once step 2 is over, every row has one (`MigrationProperties.HalfwayCompletesIff`); otherwise
  every later start that is not killed raises (`FailurePersists`). It completes in the right state
  exactly when also no content changed: an update goes unnoticed, in the middle of step 2 or after
  it, and leaves a stale vector (`HalfwayMigratesIff`). Past step 5 nothing is checked again
  (`CheckedIsFinished`).
- Step 5's comment says the engine's integrity check raises when the index has diverged. Engines
  differ in whether a plain check compares an external-content index with its table, so that is a
  parameter: where it does, step 5 leaves a rebuilt index, where it does not, the index it found
  (`Migration.CheckRuns`). The crash results hold for both.

## Model

| member | source | states |
|---|---|---|
| DescriptionSync.OverwritesOnlyTheBaseline | internal/cli/init.go:308-387 | whatever happens to the PATCH or the process, one init overwrites a side only with the other side's text and only if the overwritten text is the recorded baseline |
| DescriptionSync.BaselineIsLastAgreed | internal/config/config.go:34-50 | over every run with clean or cleanly failing inits, the recorded baseline is the text both sides held when an init last found or made them equal |
| DescriptionSync.NoEditIsLost | internal/cli/init.go:283-319 | in every such run an init changes a side only while it still holds the last agreed text, so no edit made since is discarded |
| DescriptionSync.ConflictStays | internal/cli/init.go:381-386 | a repo changed on both sides to different texts keeps both texts and its baseline through any number of inits with any outcomes |
| DescriptionSync.StuckMeansConflict | internal/cli/init.go:308-319 | a clean init leaves a repo unchanged exactly when it is settled or in conflict |
| DescriptionSync.RemediesSettleConflicts | internal/cli/init.go:436-452 | each of the three printed remedies leaves any conflict settled after one clean init |
| DescriptionSync.BaselineIsLastEqualIff | internal/cli/init.go:293-295 | the baseline is the value both sides last held exactly when they were settled at that instant |
| DescriptionSync.UnseenAgreement | internal/cli/init.go:293-295 | a run in which it is not, and the next init reports a conflict |
| DescriptionSync.LocalEditsArePublished | internal/cli/init.go:366-387 | from a settled repo, after any run with local edits only, one clean init leaves the local text on both sides and as the baseline |
| DescriptionSync.ServerEditsAreAdopted | internal/cli/init.go:366-387 | the same for server edits, even when inits crash or lose acknowledgements |
| DescriptionSync.InitsConverge | internal/cli/init.go:551-590 | from any state, inits that fail in any way with one clean one among them end settled, or leave a conflict exactly as it was |
| DescriptionSync.EditAfterLostAck | internal/cli/init.go:551-590 | after a push that was applied but not acknowledged, a server edit survives the next clean init exactly when it is not the old baseline |
| DescriptionSync.EditAfterAcknowledgedPush | internal/cli/init.go:366-387 | after an acknowledged push any server edit is adopted |
| DescriptionSync.OwnEditAfterLostAck | internal/cli/init.go:551-590 | after a lost acknowledgement the author's next local edit conflicts with their own push, or is undone if it restores the old baseline |
| OwnerInit.IndexServerRepos | internal/cli/init.go:476-479 | the lookup built from the server's list: a later repo of the same name wins |
| OwnerInit.ReconcileDescriptions | internal/cli/init.go:321-349 | one decision per named local repo that the server has, in local order |
| OwnerInit.CollectAppends | internal/cli/init.go:486-508 | exactly the named local repos with a URL that the server lacks, in order |
| OwnerInit.SetDescription | internal/cli/init.go:526-532 | replaces the description of the first repo of that name and touches no other |
| OwnerInit.PushLocalEdits | internal/cli/init.go:520-533 | applies the pushed descriptions in order; the counter is positive exactly when there was a push |
| OwnerInit.RunOwnerInit | internal/cli/init.go:465-609 | the merged list sent to the server, whether a PATCH is needed, and what the local file will record given its answer |
| OwnerInitProperties.MergeFrames | internal/cli/init.go:485-533 | with distinct non-empty names the PATCHed list is the server's list in order, only pushed descriptions replaced, followed by exactly the local-only repos with a URL |
| OwnerInitProperties.SentFields | internal/cli/init.go:485-533 | whatever the names: the server's repos in order with at most their descriptions changed, and behind them only named local repos with a URL that the server lacks, as they are |
| OwnerInitProperties.WrittenFields | internal/cli/init.go:710-728 | each written repo has the name, URL and GitHub name of the server's at its place; an appended one its own name and URL |
| OwnerInitProperties.InitSimulatesStep | internal/cli/init.go:465-609 | for each repo on both sides, the project's init is the single-repo step |
| OwnerInitProperties.PushNeedsPatch | internal/cli/init.go:551-571 | a repo to push makes init send a PATCH |
| ProjectRuns.RunProjects | internal/cli/init.go:465-609 | refinement: along any run that never removes a repo, its history is a run of the single-repo protocol |
| ProjectRuns.ProjectLosesNoEdit | internal/cli/init.go:465-609 | no lost edit for whole projects: whatever happens to the other repos, an init changes a side only while it holds the last agreed text |
| ProjectRuns.NothingLeftToSend | internal/cli/init.go:551-571 | after a clean init, conflicts or not, there is nothing to PATCH |
| ProjectRuns.SecondInitChangesNothing | internal/cli/init.go:465-609 | idempotence: a second init after a clean one sends nothing and leaves both sides as they are |
| ProjectRuns.AppendedBaseline | internal/cli/init.go:710-728 | an appended repo records its own text as baseline whatever became of the PATCH, so the record is true exactly when the PATCH was applied |
| ProjectRuns.FailedAppendLosesText | internal/cli/init.go:710-728 | after a failed append, a server repo of that name created later replaces the owner's text at the next clean init |
| ProjectRuns.ServerRemovalIsUndone | internal/cli/init.go:485-503 | a repo removed on the server is put back by the owner's init when its local entry has a URL, and vanishes from both sides otherwise |
| WorkspaceConfig.WritePolyforgeYaml | internal/cli/init.go:653-742 | keeps server URL and key variable of the file on disk, falls back to the machine config, and fails only when neither gives a URL; blocks as specified |
| WorkspaceConfig.OtherBlocksArePreserved | internal/cli/init.go:653-742 | a block of a project not returned, not visible, or where the caller has no role is kept untouched |
| WorkspaceConfig.ManagedBlockIsRewritten | internal/cli/init.go:693-742 | a visible project in which the caller has a role: its block's repos are the reconciled or the server's, field by field; description and scenario are the server's, or those on disk where it leaves them empty |
| WorkspaceConfig.OwnerBlockIsInit | internal/cli/init.go:653-742 | handing the owner init's results to the writer records the local side of the project step, whatever became of the PATCH |
| ManagedBlock.ReplacesInPlace | internal/cli/init.go:1970-1980 | splicing into text-block-text replaces exactly the block |
| ManagedBlock.ReadsBack | internal/cli/init.go:1839-1849 | the reader finds the block between the two texts |
| ManagedBlock.SplicePreserves | internal/cli/init.go:1970-1988 | outside the block the file keeps every character, and the reader returns the rendered block |
| ManagedBlock.ReplacedIsABlock | internal/cli/init.go:1974-1980 | what is taken out starts with the start marker and ends with the end marker or one newline after it |
| ManagedBlock.UpsertIsIdempotentIff | internal/cli/init.go:1920-1990 | splicing twice equals splicing once exactly when the file has neither marker or its first start marker precedes its first end marker |
| ManagedBlock.StrayEnd | internal/cli/init.go:1970-1987 | with an end marker and no start marker in front of it every splice appends one more block, and the condition persists |
| ManagedBlock.UnterminatedStart | internal/cli/init.go:1970-1987 | with a start marker and no end marker the second splice swallows everything from that marker to the block |
| ManagedBlock.EarlyEndGrows | internal/cli/init.go:1970-1988 | a block with an end marker inside is never replaced as a whole: what follows it grows with every splice |
| ClaudeMdFile.InitFileIsIdempotent | internal/cli/init.go:1424-1470 | splice followed by the import-line edit is idempotent on every well-marked file, and the block is read back unchanged, even when the import line is added or rewritten |
| ClaudeMdFile.EarlyEndInitGrows | internal/cli/init.go:1424-1470 | the same for splice and import line together: the second init's file is longer |
| BlockRendering.RenderBlock | internal/cli/init.go:1920-1958 | the builder writes the marker lines, a section per project and a line per repo, each ended by a newline |
| BlockText.BlockIs | internal/cli/init.go:1920-1958 | the rendered text, written out: markers, heading, and per project its name, description, detail line and repos |
| BlockText.OneLineOfTwo | internal/cli/init.go:1658-1664 | two lines become one with a space between, whatever the line break |
| BlockText.OneLineOfLine | internal/cli/init.go:1658-1664 | a text on one line is only trimmed |
| BlockText.TrimSpaceCuts | internal/cli/init.go:1658-1664 | trimming takes white space from both ends and nothing else |
| BlockText.FileNameIs | internal/cli/init.go:1752-1773 | every character outside the safe ones becomes a dash, dots and dashes at either end go, .md is put behind |
| BlockText.ImportLineIs | internal/cli/init.go:1424-1470 | the import line is kept, put in place of the old one, or put first |
| BlockText.ReplacedOne | internal/cli/init.go:1444-1452 | every old reference is replaced, with the text around it kept |
| BlockText.AppendedIs | internal/cli/init.go:1982-1988 | a file without a block gets one at its end, behind one empty line |
| BlockText.LegacyIff | internal/cli/init.go:1878-1894 | a block is of the old format exactly when it holds one of four detail bullets |
| BlockText.HeadingNameIs | internal/cli/init.go:1858-1868 | a project is named by a line that starts with ### |
| BlockReading.ManagedBlockProjects | internal/cli/init.go:1858-1868 | collects the non-empty trimmed heading names, in order |
| BlockReading.OneLineIs | internal/cli/init.go:1658-1664 | a one-lined field has no newline and neither starts nor ends with a space |
| BlockReading.FileNameIsSafe | internal/cli/init.go:1752-1773 | a repo-map file name holds letters, digits, dots, dashes and underscores only, ends in ".md", and is never hidden, an option or a traversal |
| BlockReading.RenderedIsNeverLegacy | internal/cli/init.go:1878-1894 | a block rendered from names without line breaks is never classified legacy, whatever the other fields contain |
| BlockReading.LinesReadBack | internal/cli/init.go:1920-1958 | splitting a rendered block gives back the lines it was built from |
| BlockReading.ProjectsReadBackIff | internal/cli/init.go:1858-1868 | with trimmed, unbroken names the projects read back are those rendered exactly when no one-lined description starts with "### " |
| BlockSplice.RenderedIsABlockIff | internal/cli/init.go:1920-1958 | a rendered text works as a block exactly when no name, one-lined description or one-lined headline holds the end marker |
| BlockSplice.RenderedOldRefIff | internal/cli/init.go:1424-1470 | it holds an old import reference exactly when a field does |
| BlockSplice.EverySpliceGrows | internal/cli/init.go:1970-1988 | with an end marker in a field every further splice leaves one more tail behind |
| InitTwice.InitIsIdempotentIff | internal/cli/init.go:1424-1470 | for any fields on a well-marked file: the block is read back as rendered exactly when no field holds the end marker and the import-line edit does not reach into the block; init is idempotent exactly when no field holds the end marker and it is not so that the edit reaches into the block while the file holds the old reference outside it too; an end marker in a field makes the second file longer |
| InitTwice.InitThenDoctor | internal/cli/init.go:1839-1868 | end to end, for fields without the end marker and a file whose import-line edit stays out of the block: a second init changes nothing, the reader returns the rendered block, which is not legacy, and its projects are the rendered ones exactly when no description forges one |
| GitRemote.RedactionKeepsTheRemote | internal/cli/init.go:1227-1292 | a redacted URL normalises to the same host and path, for every URL |
| GitRemote.RedactionHidesTheCredential | internal/cli/init.go:1269-1292 | what redaction prints is the same for every credential |
| GitRemote.SameRemoteIsAnEquivalence | internal/cli/init.go:1199-1220 | sameness is symmetric and transitive, reflexive exactly on understood URLs, and gives equal directories |
| GitRemote.OwnCloneIsAccepted | internal/cli/init.go:1139-1220 | every URL that gets a directory matches itself, redacted or not |
| TokenClone.TokenCloneIsAcceptedIff | internal/cli/init.go:230-247 | a clone made by the token fallback counts as a clone of the declared URL exactly when normalising drops the token, for every understood URL and every token |
| GitRemote.CredentialIsDropped | internal/cli/init.go:1222-1255 | anything without a slash in front of the host's '@' is dropped; ports, trailing slash and .git are handled alike |
| GitRemote.DirNameIsInert | internal/cli/init.go:1139-1197 | a directory name holds no separator or NUL, is never "." or "..", and exists exactly when the last segment and a present owner are not empty or traversing |
| GitRemote.ScenarioDirIsOneComponent | internal/cli/init.go:1139-1197 | the same for every URL, and a URL with a directory was understood |
| GitRemote.InertOwnersAreKeptApart | internal/cli/init.go:1123-1152 | a corollary: for names without backslash or NUL and owners without underscores, two owner/repo pairs share a directory exactly when they are equal |
| GitRemote.SharedDirIff | internal/cli/init.go:1105-1197 | a repository shares its directory with another owner and repository exactly when one of its two names holds an underscore, a backslash or a NUL |
| GitRemote.BlurredNamesCollide | internal/cli/init.go:1105-1197 | two different owners with underscores that share a directory, and two repos, one with a backslash |
| GitRemote.OneSegmentShares | internal/cli/init.go:1133-1152 | a URL with one path segment spelled like the directory name shares it |
| GitRemote.SegmentsHaveNoSlash | internal/cli/init.go:1162-1172 | the two segments a URL is split into hold no slash |
| RemoteForms.UrlIs | internal/cli/init.go:1222-1255 | scheme://[user@]host[:port]/path in every spelling of its end stands for host and path |
| RemoteForms.ShortFormIs | internal/cli/init.go:1222-1255 | so does [user@]host:path |
| RemoteForms.NoPathIs | internal/cli/init.go:1222-1255 | a URL without a path and a text without a colon stand for no repository |
| RemoteForms.NoHostIs | internal/cli/init.go:1244-1255 | a text that starts with the colon has no host |
| RemoteForms.SameIff | internal/cli/init.go:1199-1220 | two URLs are of one repository exactly when their hosts are alike but for ASCII case and their paths equal |
| RemoteForms.FoldIff | internal/cli/init.go:1199-1220 | two characters are alike exactly when they are equal or one letter in both cases |
| RemoteForms.DirectoryIs | internal/cli/init.go:1133-1197 | the directory is the last two path segments with two underscores between, or the only one |
| RemoteForms.TokenUrlIs | internal/cli/init.go:230-247 | the token stands between https:// and github.com, for both URL forms |
| Versions.LessIsTransitive | scripts/pf_version_check.py:359-372 | the order on parsed versions is transitive |
| Versions.LessIsStrict | scripts/pf_version_check.py:359-372 | ... and strict |
| Versions.LessIsTotal | scripts/pf_version_check.py:359-372 | ... and total |
| Versions.TrailingNewlineIsInvisible | scripts/pf_version_check.py:359-372 | a version with one trailing newline parses like the version without it |
| Versions.DottedReadsBack | scripts/pf_version_check.py:359-372 | round trip: for every non-empty list of numbers, the version printed in decimal with dots is parsed to those numbers |
| Versions.LeadingZero | scripts/pf_version_check.py:372 | a leading zero does not change the number a component stands for |
| Versions.ParsesIff | scripts/pf_version_check.py:356-371 | accepted is exactly digits, dots between groups of them, and possibly one newline |
| Versions.LessIff | scripts/pf_version_check.py:436-446 | one version is below another exactly when it is a proper prefix of it or has the lower number where they first differ |
| VersionGate.PluginSourcesOf | scripts/pf_version_check.py:331-356 | plugin name to normalised source, the canonical catalog overriding the root one |
| VersionGate.CheckBump | scripts/pf_version_check.py:375-447 | exactly the plugins that do not pass are reported, each with what its version did, in order; none exactly when every plugin passes |
| VersionGate.CheckBumpSince | scripts/pf_version_check.py:498-531 | passes exactly when the head lists plugins and each passes, changes counted from the merge base and versions compared with the base tip |
| VersionGate.JudgedAsPrinted | scripts/pf_version_check.py:402-446 | for printed versions a touched plugin passes exactly when its version goes up, and otherwise the verdict says whether it stayed or went down |
| VersionGate.JudgedOtherwise | scripts/pf_version_check.py:402-435 | a plugin without a version at the base passes; a version that is not digits and dots is not orderable |
| VersionGate.GateIff | scripts/pf_version_check.py:375-447 | from the manifests and the changed paths: the plugin passes exactly when no path under its directory changed or its version went up |
| VersionGate.TenIsAboveNine | scripts/pf_version_check.py:359-447 | 1.1.9 to 1.1.10 passes and the reverse went down |
| VersionGate.SourcesAre | scripts/pf_version_check.py:336-356 | a plugin's directory is that of the last entry naming it in the canonical catalog, or else in the root catalog |
| VersionGate.NormSourceIs | scripts/pf_version_check.py:331-356 | a relative source is its own directory, with or without ./ in front or a slash behind, and a step up takes back the component before it |
| VersionGate.NormSourceUp | scripts/pf_version_check.py:331-333 | going up from the start is kept in a relative source and dropped in an absolute one |
| VersionHistory.PassingTouchChangesManifest | scripts/pf_version_check.py:375-447 | a passing pull request that touches a listed plugin directory has raised its manifest above the tip's, hence changed it since it branched |
| VersionHistory.MergeRaisesVersion | scripts/pf_version_check.py:375-447 | one merge judged against its tip never lowers main's version and raises it whenever the plugin's files change, if a touching head lists the directory |
| VersionHistory.VersionsNeverFall | scripts/pf_version_check.py:498-531 | over any history whose pull requests were judged at their branch point or later, and whose touching heads list the directory, the version never falls |
| VersionHistory.OneVersionOneTree | scripts/pf_version_check.py:498-531 | over any history judged against the tips merged onto, versions never fall and two commits of main with the same version have the same plugin files |
| VersionHistory.MergeRaisesIff | scripts/pf_version_check.py:498-531 | one clean merge, whatever it was judged against: main's version goes up exactly when the head's version is above the tip's |
| VersionHistory.VersionsIdentifyTreesIff | scripts/pf_version_check.py:498-531 | over any history judged against any earlier commits: versions never fall and each stands for one set of plugin files exactly when every merge that changes the files finds the tip below the head's version |
| VersionHistory.TwoTreesIff | .github/workflows/contract-lint.yml:198-209 | judged at the branch point or later, as with a recorded base commit: two trees ship under one version exactly when some merge that changes the plugin's files finds the tip at the head's version already |
| VersionHistory.OldBaseLowersVersion | scripts/pf_version_check.py:498-531 | judged against a commit older than its branch point, a pull request passes, merges cleanly and takes the version down |
| VersionHistory.TouchPassesIff | scripts/pf_version_check.py:375-447 | a touching pull request, the other plugins passing, gets through exactly when it raises the version or lists no plugin in that directory |
| VersionHistory.DelistingShipsTwoTrees | scripts/pf_version_check.py:336-356 | delisting, changing and relisting a plugin ships two trees under one version |
| VersionHistory.UnbumpedEditPasses | scripts/pf_version_check.py:375-447 | an edit of any one file, a manifest or a catalog as well, that leaves every listed version alone passes exactly when no listed plugin that has a version covers the file |
| VersionHistory.RootPluginIsNeverGated | scripts/pf_version_check.py:331-333 | a plugin at the repository root is listed as "." and never judged |
| VersionHistory.StaleBaseShipsTwoTrees | scripts/pf_version_check.py:498-531 | judged against a base that is no longer the tip, two different trees ship under one version |
| FtsIndex.AgreesIsBuild | v0/db.py:173-185 | an index counts every token of every current row, and nothing else, exactly when it equals a rebuild |
| FtsIndex.Memories.InsertRow | v0/db.py:159-162 | an insert and its trigger |
| FtsIndex.Memories.UpdateRow | v0/db.py:163-166 | a content update and its trigger: old postings out, new ones in |
| FtsIndex.Memories.DeleteRow | v0/db.py:167-169 | a delete and its trigger |
| FtsIndex.Memories.Rebuild | v0/db.py:184-185 | a rebuild from the rows, in any scan order, from any index |
| FtsIndex.Reindex | v0/db.py:184-185 | indexing row by row reaches the reference count |
| FtsIndex.WritesKeepAgreement | v0/db.py:158-170 | from an index equal to a rebuild, every sequence of writes leaves it equal to a rebuild |
| FtsIndex.LastWriteStands | v0/db.py:158-170 | a row holds what the last write that concerned it left |
| FtsIndex.MatchIsScan | v0/db.py:173-181 | a token search on a rebuilt index is a scan of the current texts |
| FtsIndex.UpdateHealsRow | v0/db.py:163-166 | on a diverged index the update trigger heals its row exactly when no posting beyond the old text was held, and touches no other row |
| Migration.Connection.Step2 | v0/db.py:136-150 | inserts an embedding for each row that had no vector when the step began |
| Migration.Connection.Step5 | v0/db.py:192-211 | rebuilds an index the check finds diverged, and fails exactly as the two set differences say |
| Migration.Connection.RunStep | v0/db.py:108-117 | one step and its counter are the step's statements in order |
| Migration.Connection.RunMigration | v0/db.py:108-117 | the loop over the steps is the specified uninterrupted run |
| Migration.CheckRuns | v0/db.py:192-211 | step 5 succeeds exactly when vectors and memories have the same row ids, and leaves a rebuilt index where the engine compares it |
| MigrationProperties.RunGood | v0/db.py:87-117 | one run, cut anywhere, raises nothing, keeps the resumable invariant and the rows, and never lowers the counter |
| MigrationProperties.ScheduleGood | v0/db.py:87-117 | the same for any schedule of runs |
| MigrationProperties.EveryScheduleMigrates | v0/db.py:87-217 | whatever runs were cut short and wherever, the first that completes ends in the state one uninterrupted run produces |
| MigrationProperties.MigratedStaysMigrated | v0/db.py:108-117 | a finished migration is left alone by every later start |
| MigrationProperties.HalfwayCompletesIff | v0/db.py:192-211 | from any state past step 1, step 2 possibly cut short, a run completes exactly when no vector is an orphan and, past step 2, every row has one; otherwise it raises the integrity failure |
| MigrationProperties.HalfwayMigratesIff | v0/db.py:136-217 | it completes in the final state exactly when it completes and every vector is the embedding of what its row says now |
| MigrationProperties.StaleVectorSurvives | v0/db.py:136-217 | a content update of a row that has its vector completes with the old vector |
| MigrationProperties.FailurePersists | v0/db.py:108-117 | after any number of starts, each killed anywhere or raising, the next start that is not killed raises the integrity failure again |
| MigrationProperties.CheckedIsFinished | v0/db.py:108-117 | past step 5 a run completes whatever was written since, with the vectors as they are |
| WorktreeNames.SlugRoundTrip | internal/cli/doctor.go:971-1005 | reading the directory of a slug gives the slug back exactly when the project is non-empty and free of '#' |
| WorktreeNames.DirRoundTrip | internal/cli/doctor.go:987-1005 | the slug read from a directory leads back to it exactly when its name has no '#' |
| WorktreeNames.UlidRoundTrip | internal/cli/doctor.go:1007-1052 | both legacy formats give their id back and are looked up by it |
| WorktreeNames.UlidHasNoSlug | internal/cli/doctor.go:987-1022 | no name parses both as a slug and as a legacy id |
| WorktreeNames.NameOfSlug | internal/cli/doctor.go:971-1005 | a work item's directory is pf.<project>-<seq> and is looked up as <project>#<seq> |
| WorktreeNames.UlidIff | internal/cli/doctor.go:1007-1052 | a legacy name is eight letters or digits, possibly behind a number and a dot |
| WorktreeNames.ProjectIff | internal/cli/doctor.go:971-985 | a name has a project exactly when it ends in a dash and digits behind something |
| WorktreeNames.NoKeyIff | internal/cli/doctor.go:1024-1052 | there is nothing to ask about a name exactly when it is neither a project's nor a legacy one |
| ActiveListing.FetchActiveWorkItems | internal/cli/doctor.go:915-964 | at most 100 requests; success exactly when the cursor chain ends properly within them, and then all objects of all pages in order; each error names its page |
| ActiveListing.EndIsUnique | internal/cli/doctor.go:915-964 | a cursor chain has at most one end |
| ActiveListing.CyclesNeverEnd | internal/cli/doctor.go:895-964 | a cursor that comes back while the walk goes on, after any number of pages, leaves the chain without any end, so the walk errs |
| ActiveListing.CursorsAre | internal/cli/doctor.go:915-964 | the first request carries no cursor, each further one the text the page before handed over |
| ActiveListing.EndsAtIff | internal/cli/doctor.go:915-964 | the chain ends exactly at a page with items and no cursor, behind pages that each hand over a new one |
| ActiveListing.ObjectsAre | internal/cli/doctor.go:938-944 | exactly the elements that are objects are kept, as often as they stand there |
| ActiveListing.AllObjects | internal/cli/doctor.go:938-944 | a list of objects is kept as it is |
| OrphanRemoval.DecidedIsJustified | internal/cli/doctor.go:1470-1496 | re-check plus force flag allow a deletion exactly on the three stated grounds |
| OrphanRemoval.VerdictIs | internal/cli/doctor.go:1470-1496 | a verdict is about the directory and key asked for and carries the status read; unknown exactly when nothing was established |
| WorkItemStatus.TerminalIff | internal/cli/doctor.go:869-889 | only wrapped, failed and cancelled release what a work item holds; queued, running, blocked and paused do not |
| OrphanRemoval.GroundsIff | internal/cli/doctor.go:1470-1496 | the grounds written out: read as wrapped, failed or cancelled; or named, with nothing established or with the very status read |
| OrphanRemoval.SelectActing | internal/cli/doctor.go:1359-1372 | candidates plus the named unverifiable directories, sorted; the others are kept |
| OrphanRemoval.StringLessIff | internal/cli/doctor.go:1359-1372 | the order directories are acted on in: a proper prefix first, else by the first character that differs |
| OrphanRemoval.Workspace.RemoveWorktreeDir | internal/cli/doctor.go:1580-1591 | a removal counts only when the directory was seen to be gone |
| OrphanRemoval.Workspace.ActOnOne | internal/cli/doctor.go:1395-1423 | one directory: touched on disk only if its own re-check justified it |
| OrphanRemoval.Workspace.ActOn | internal/cli/doctor.go:1353-1459 | whatever disappears was re-checked in this loop and justified; refused, removed, failed and forced lists are exact and in order |
| OrphanRemoval.Workspace.RemoveOrphans | internal/cli/doctor.go:1353-1459 | the acted-on directories split exactly three ways, and "ok" holds exactly when nothing was refused, forced, unverifiable, unmatched or failed |
| OrphanRemoval.FatesPartition | internal/cli/doctor.go:1395-1423 | every directory acted on is removed, refused or failed, and only one of them |
| OrphanRemoval.AllClear | internal/cli/doctor.go:1394-1458 | with nothing refused, failed or forced, every directory is gone and its work item was found finished |
| WorktreeCheck.CollectActive | internal/cli/doctor.go:1188-1216 | the directory names and id tails of all listings, and the projects that could not be listed |
| WorktreeCheck.SelectCandidates | internal/cli/doctor.go:1233-1252 | worktrees not shown active, split by whether the listing could speak about them |
| WorktreeCheck.CheckWorktrees | internal/cli/doctor.go:1167-1256 | deletion safety end to end, whatever the listing returned; directories shown active are never acted on, listing gaps only when named, all other orphans always; with no worktree on disk the report is ok and names nothing, with nothing to ask it is not ok, touches nothing and lists every worktree as not looked at |
| WorktreeCheck.ListedIsShownActive | internal/cli/doctor.go:1206-1214 | every listed slug and id protects its directory |
| WorktreeCheck.ShownIff | internal/cli/doctor.go:1188-1216 | exactly the directories of listed slugs and the tails of listed ids are shown active, and exactly the projects whose listing failed are gaps |
| WorktreeCheck.GapIff | internal/cli/doctor.go:1233-1252 | a project's directory is in a gap exactly when that project could not be listed, one of no project exactly when any could not |
| WorktreeCheck.CandidateIff | internal/cli/doctor.go:1233-1252 | pf.<project>-<seq> becomes a candidate exactly when no readable listing shows its slug and its project could be listed |
| WorktreeCheck.LegacyCandidateIff | internal/cli/doctor.go:1233-1252 | a legacy directory becomes a candidate exactly when no readable listing shows its id and every project could be listed |
| WorktreeList.LinkedWorktreeBranches | internal/cli/doctor.go:695-741 | the loop over the porcelain lines is the specified parser |
| WorktreeList.ParserInvertsPrinter | internal/cli/doctor.go:695-741 | parsing printed records gives exactly the linked worktrees and branches, flags in any order, with or without the last blank line |
| WorktreeList.ExpectedIs | internal/cli/doctor.go:673-694 | with distinct paths, a record is in the result exactly when it is on a branch, not prunable and not the main worktree |
| WorktreeList.PathReadBackIff | internal/cli/doctor.go:721-733 | in any listing a linked worktree appears under its own path exactly when the path does not end in a carriage return |
| UsageScan.FenceDelim | internal/cli/doctor.go:1670-1686 | the run of fence characters at the front of a line, if it is at least three long |
| UsageScan.ScanUsageSections | internal/cli/doctor.go:1698-1749 | reports exactly those of the three owned headings that stand where the lines before leave no fence or comment open, by name and in template order, and whether the walk ended in the open |
| UsageScan.ScansCompose | internal/cli/doctor.go:1698-1749 | behind a well-formed body a second one is scanned as if alone: the findings are both, in template order |
| UsageScan.CommentsAre | internal/cli/doctor.go:1714-1734 | a comment ends on the first line with -->, and starts on a line in the open whose first <!-- has none behind it |
| UsageScan.FencesAre | internal/cli/doctor.go:1719-1728 | a fence is opened by three or more backticks or tildes behind at most three spaces, and closed by at least as many of the same |
| UsageScan.OwnedHeadingIff | internal/cli/doctor.go:1735-1741 | a line in the open is an owned heading exactly when it holds nothing else but white space, with fewer than four blanks in front |
| FenceRules.FencesAsSpecifiedIff | internal/cli/doctor.go:1664-1728 | the scan follows CommonMark's fence rules, tab stops and line endings on every line exactly when it takes no line for an opening fence behind a tab or with a backtick in a backtick fence's info string, and none for a closing fence behind a tab or with text behind it |
| FenceRules.InfoStringClosesFence | internal/cli/doctor.go:1719-1724 | a fenced example in which the heading counts although CommonMark keeps the fence open |
| FenceRules.TabbedFenceCloses | internal/cli/doctor.go:1719-1724 | the same with a closing fence behind a tab |
| FenceRules.SpanOpensFence | internal/cli/doctor.go:1725-1728 | a code span on its own line opens a fence, and a heading that CommonMark has in the open is passed over |
| FenceRules.IndentedHeadingIff | internal/cli/doctor.go:1691-1694 | a line read as a heading stands behind four columns or more exactly when a tab is in front of it |
| FenceRules.TabbedHeadingCounts | internal/cli/doctor.go:1735-1741 | a heading behind a tab counts |
| FenceRules.ScanAsSpecified | internal/cli/doctor.go:1698-1749 | a body with no deviating line and no tabbed owned heading is reported on as CommonMark's fences and columns have it |
| FenceRules.LineEndingsDoNotMatter | internal/cli/doctor.go:1709-1741 | carriage returns at the end of any lines change neither the headings found nor whether the walk ends in the open |
| QueueObservation.BlockingEdges | internal/cli/drain.go:2184-2224 | the blockers a response names, in order |
| QueueObservation.EdgesAre | internal/cli/drain.go:2184-2224 | a blocker is reported exactly when some entry names it |
| QueueObservation.EdgesCarryAddresses | internal/cli/drain.go:2155-2224 | an edge always names something, a withheld far end has no address, and the placeholder id survives only as a bare string |
| Dependencies.AddressIs | internal/cli/drain.go:2204-2211 | an entry's address is the first non-empty of four fields, in order |
| Dependencies.IncomingIsRead | internal/cli/drain.go:2164-2224 | from the server's response exactly the incoming dependencies that block are read, in order, whatever the work item holds up itself |
| Dependencies.ExternalDependenciesIff | internal/cli/drain.go:2072-2224 | a blocked work item is reported with exactly the incoming blocking dependencies that lead out of the scope to work not read as wrapped, failed or cancelled, and is external exactly when there is one |
| Dependencies.HoldingOthersUpIsNoBlock | internal/cli/drain.go:2164-2185 | a work item that only holds up others is never externally blocked |
| Dependencies.LookupFailedIs | internal/cli/drain.go:2078-2092 | a work item whose dependencies could not be listed is reported with a note that says so |
| Dependencies.ScopeIs | internal/cli/drain.go:2064-2072 | the scope is the ids of the work that is queued, running, blocked or paused |
| Dependencies.ExternalIs | internal/cli/drain.go:2072-2120 | the report holds exactly the blocked work items with something holding them up from outside, and what it is |
| QueueObservation.UnionCandidates | internal/cli/drain.go:2441-2454 | the two result sets merged, first occurrence of each id |
| QueueObservation.UnionKeepsFirsts | internal/cli/drain.go:2441-2454 | each non-empty id once, by its first occurrence, and no duplicates |
| QueueObservation.OwnWorkIsListedOnce | internal/cli/drain.go:1944-1967 | for a caller's own work the list fails exactly when one of its two halves does, and otherwise holds what they reported and what they claimed, each work item once and none without an id |
| QueueObservation.LiveCache.BlockerIsLive | internal/cli/drain.go:2135-2153 | the cached answer is the uncached one, and no work item is read twice |
| QueueObservation.LiveIff | internal/cli/drain.go:2135-2153 | a blocker is done with exactly when it has an address and was read as wrapped, failed or cancelled |
| QueueObservation.ObserveQueue | internal/cli/drain.go:2010-2121 | the observation equals the one without a memo, or fails exactly when a list it needs does; each bucket is counted from its own list |
| QueueObservation.ExternalIff | internal/cli/drain.go:2072-2120 | a blocked work item counts as external exactly when its lookup failed or some blocking edge leads to a live far end outside the scope |
| QueueObservation.EachIsCountedOnce | internal/cli/drain.go:2072-2120 | every blocked work item is counted once |
| QueueObservation.OrderDoesNotMatter | internal/cli/drain.go:2072-2120 | the classification is the same for every visit order |
| QueueObservation.PersonNeededIff | internal/drain/converge.go:201-244 | a run without failures ends in "a person is needed" exactly when a blocked item is held from outside or unknowable, or a queued one is not explicitly free of a human session |
| QueueObservation.CompletedIff | internal/drain/converge.go:195-244 | it ends "completed" exactly when nothing is ready, running, paused or blocked and all queued work is explicitly free of a human session |
| QueueObservation.QueuedWorkReportedCompleted | internal/cli/drain.go:2036-2066 | queued work that is free of a human session but not ready falls in no bucket |
| RankFusion.RrfFuse | v0/search.py:8-25 | the map holds exactly the rows of active channels, each with the sum of its shares |
| RankFusion.ScoreAtMostTheoretical | v0/search.py:28-30 | for non-negative weights and lists without repeats no score exceeds the maximum, with equality exactly for a row first in every active channel |
| RankFusion.ScoresAddUp | v0/search.py:8-25 | the scores add up to what the places of the active channels are worth |
| RankFusion.ScoreIsSumOfShares | v0/search.py:8-25 | a row's score is the sum, over the channels that have it, of weight divided by k plus its place |
| RankFusion.ChannelOrderDoesNotMatter | v0/search.py:8-25 | permuting the channels gives the same map |
| FixtureSlots.Candidates.Offer | scripts/pf_corpus_extract.py:325-342 | the four slots after one more record |
| FixtureSlots.SlotsAre | scripts/pf_corpus_extract.py:325-342 | the slots are the first error, the earliest success with most parameters, and the stable two largest records |
| FixtureSlots.SlotsOf | scripts/pf_corpus_extract.py:325-342 | what the four fields of one tool hold, from the records offered |
| FixtureSlots.PickFixtures | scripts/pf_corpus_extract.py:1085-1103 | by role: the success, the error, and the first edge not already used, in this order |
| FixtureSlots.FixturesAre | scripts/pf_corpus_extract.py:325-342 | a success fixture is the earliest success with the most parameters, an error fixture the first error, and each is there if a call qualifies |
| FixtureSlots.NoEdgeIff | scripts/pf_corpus_extract.py:1094-1099 | there is an edge fixture exactly unless every one of the two largest calls is already chosen |
| FixtureSlots.EdgeIsLargestUnused | scripts/pf_corpus_extract.py:1085-1103 | with distinct ids the edge fixture is the largest call not already chosen, and any recorded call gives some fixture |
| CorpusCensus.SeeKeepsEnds | scripts/pf_corpus_extract.py:294-300 | first and last stay the least and greatest timestamp seen |
| CorpusCensus.Collector.OnPair | scripts/pf_corpus_extract.py:431-454 | every per-tool counter and the taxonomy equal a second pass over the paired calls |
| CorpusCensus.Collector.ScanFile | scripts/pf_corpus_extract.py:345-428 | one transcript: calls paired in order, uses and leftovers counted, per tool and in total |
| CorpusCensus.Collector.CountLeftovers | scripts/pf_corpus_extract.py:420-424 | the final loop counts the open calls, per tool and in total, in any order |
| CorpusCensus.UsesAreAccountedFor | scripts/pf_corpus_extract.py:393-424 | each use is paired, still open at the end, or forgotten because its id was opened again |
| CorpusCensus.UsesArePairedOrLeftIff | scripts/pf_corpus_extract.py:393-424 | uses equal pairs plus leftovers exactly when no id is reused while its call is open |
| CorpusCensus.UniqueIdsForgetNothing | scripts/pf_corpus_extract.py:393-424 | ids unique in the file are enough for that |
| CorpusCensus.ErrorsAreClassified | scripts/pf_corpus_extract.py:439-454 | per tool, as many taxonomy entries as errors and no more than calls |
| CorpusCensus.CallsAddUp | scripts/pf_corpus_extract.py:431-440 | over all tools the calls add up to the paired results |
| CorpusCensus.CensusAddsUp | scripts/pf_corpus_extract.py:431-449 | per tool the counts of the result kinds add up to the calls, and those of the error codes to the errors, which are no more than the calls |
| CorpusCensus.TaxonomyAddsUp | scripts/pf_corpus_extract.py:450-454 | per tool the counts in the taxonomy add up to the errors |
| CorpusCensus.CensusIs | scripts/pf_corpus_extract.py:431-449 | a tool's numbers count its calls, its errors, and those of each kind and code; first and last are times of its calls |
| CorpusCensus.TaxonomyIs | scripts/pf_corpus_extract.py:450-454 | a taxonomy entry counts the calls of the tool that failed with that status, code and message |
| CorpusCensus.PairedCallsAre | scripts/pf_corpus_extract.py:393-424 | a result joins the last use of its id exactly when nothing of that id stands between, with that use's tool and time |
| CorpusCensus.Param.Observe | scripts/pf_corpus_extract.py:455-469 | a parameter counts all its values, at most 64 different ones, or is marked and counts none |
| CorpusCensus.ParamIs | scripts/pf_corpus_extract.py:455-469 | a parameter's record: how often it was given, with each type, and with each value unless there were more than 64 |

## Left out

- SameRemoteIsAnEquivalence: hosts are compared with ASCII case folding; full Unicode folding is not modelled.
- TrailingNewlineIsInvisible: `parse_version` has no digit limit here, whereas Python's `int` refuses more than 4300 digits.
- RrfFuse: exact reals instead of floating point, and k > 0, so rounding and division by zero are not modelled.
- ObserveQueue: on a failing list the partly filled state returned beside the error is not modelled.
- FetchActiveWorkItems: rows the server itself skips because they share a timestamp cannot be seen by the walk and are not modelled.
- OnPair: response keys, call sequences and the choice of fixture candidate are separate; parameters are modelled one at a time in `Param`.
- ScanFile: the byte-level prefilters, JSON parsing and version signals of the transcript reader are not modelled; blocks arrive decoded.
- RenderBlock: the per-repo detail files and their clean-up are not modelled, only the block and the name of the detail file.
- RunOwnerInit: server edits between init's read and its PATCH are not modelled; the PATCH sends the whole list and would overwrite them.
- WritePolyforgeYaml: YAML encoding, and a crash in the middle of writing a file.
- Step5: corruption inside the index structure itself, which every engine's check finds, is not modelled; an index is right or diverged from its table.
- EveryScheduleMigrates: vector upkeep after the migration lives in route code that is not part of this model, and no one writes `memories` during the migration except where stated.
- WritesKeepAgreement: the tokenizer is a parameter, and a full-text query is a single token.
- CheckBump: JSON decoding, the other consistency checks of `check_root`, and message texts.
- OneVersionOneTree: a line-level merge is abstracted to paths plus the version line of a manifest.
- FencesAsSpecifiedIff: comments are read as the scan reads them, and of CommonMark only fences, columns and line endings are compared: lists, block quotes and HTML blocks are not modelled, and a carriage return inside a line counts as text.
- CheckWorktrees: the read-only report without --fix, message texts, and how git is asked to remove a worktree.
- LinkedWorktreeBranches: symbolic-link resolution and git's own output are parameters.
- Process handling, signals, timeouts, HTTP and git calls, secret scanning, hashing and embeddings.
- The scheduler loop and the execution engine behind `polyforge drain`.
- Role-file generation, schema dump, health verdicts, flag parsing: they would add only easy members.
