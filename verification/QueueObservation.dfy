/** What is left in a drain scope, and whether waiting will clear it. */
module QueueObservation {
  import opened Common
  import opened WorkItemStatus

  // ---------------------------------------------------------------- dependency responses

  // A decoded JSON value, as far as the reader looks into it.
  datatype Value = Text(s: string) | Flag(b: bool) | List(items: seq<Value>) | Object(fields: map<string, Value>) | Null

  datatype BlockerRef = BlockerRef(id: string, slug: string)

  const HIDDEN := "hidden"
  const ID_FIELDS := ["blocking_wi_id", "work_item_id", "id", "blocking_id"]

  function Str(o: map<string, Value>, key: string): string { if key in o && o[key].Text? then o[key].s else "" }

  // The first non-empty id field at or after position k.
  function AddressFrom(o: map<string, Value>, k: nat): string
    requires k <= |ID_FIELDS|
    decreases |ID_FIELDS| - k
  {
    if k == |ID_FIELDS| then ""
    else if Str(o, ID_FIELDS[k]) != "" then Str(o, ID_FIELDS[k])
    else AddressFrom(o, k + 1)
  }

  predicate Withheld(o: map<string, Value>) {
    ("accessible" in o && o["accessible"] == Flag(false)) || AddressFrom(o, 0) == HIDDEN
  }

  // The blocker a response entry names, if it is a blocking edge that names one.
  function EdgeOf(v: Value): Option<BlockerRef> {
    match v
    case Text(s) => if s != "" then Some(BlockerRef(s, "")) else None
    case Object(o) =>
      if Str(o, "kind") != "" && Str(o, "kind") != "blocks" then None
      else
        var id := if Withheld(o) then "" else AddressFrom(o, 0);
        if id == "" && Str(o, "slug") == "" then None else Some(BlockerRef(id, Str(o, "slug")))
    case _ => None
  }

  function Edges(items: seq<Value>, n: nat): seq<BlockerRef>
    requires n <= |items|
  {
    if n == 0 then []
    else if EdgeOf(items[n - 1]).Some? then Edges(items, n - 1) + [EdgeOf(items[n - 1]).value]
    else Edges(items, n - 1)
  }

  // Only the edges that block this work item; the opposite direction is not read.
  function EdgesOf(res: map<string, Value>): seq<BlockerRef> {
    if "blocked_by" in res && res["blocked_by"].List? then Edges(res["blocked_by"].items, |res["blocked_by"].items|) else []
  }

  method Address(o: map<string, Value>) returns (id: string)
    ensures id == AddressFrom(o, 0)
  {
    id := "";
    for k := 0 to |ID_FIELDS|
      invariant id == "" && AddressFrom(o, 0) == AddressFrom(o, k)
    {
      if Str(o, ID_FIELDS[k]) != "" { return Str(o, ID_FIELDS[k]); }
    }
  }

  method BlockingEdges(res: map<string, Value>) returns (out: seq<BlockerRef>)
    ensures out == EdgesOf(res)
  {
    out := [];
    if "blocked_by" !in res || !res["blocked_by"].List? { return; }
    var arr := res["blocked_by"].items;
    for i := 0 to |arr|
      invariant out == Edges(arr, i)
    {
      match arr[i]
      case Text(s) =>
        if s != "" { out := out + [BlockerRef(s, "")]; }
      case Object(o) =>
        if Str(o, "kind") != "" && Str(o, "kind") != "blocks" { continue; }
        var ref := BlockerRef("", Str(o, "slug"));
        var id := Address(o);
        ref := ref.(id := id);
        if ("accessible" in o && o["accessible"] == Flag(false)) || ref.id == HIDDEN { ref := ref.(id := ""); }
        if ref.id == "" && ref.slug == "" { continue; }
        out := out + [ref];
      case _ =>
    }
  }

  /** An edge names something, the placeholder id is never taken for an address unless
      it was sent as a bare id, and a withheld far end has no address. */
  lemma EdgesCarryAddresses(v: Value)
    requires EdgeOf(v).Some?
    ensures var ref := EdgeOf(v).value;
            && (ref.id != "" || ref.slug != "")
            && (ref.id == HIDDEN <==> v == Text(HIDDEN))
            && (v.Object? && "accessible" in v.fields && v.fields["accessible"] == Flag(false) ==> ref.id == "")
  {
  }

  lemma {:induction false} EdgesAre(items: seq<Value>, n: nat, ref: BlockerRef)
    requires n <= |items|
    ensures ref in Edges(items, n) <==> exists i :: 0 <= i < n && EdgeOf(items[i]) == Some(ref)
  {
    if n > 0 {
      EdgesAre(items, n - 1, ref);
      if EdgeOf(items[n - 1]) == Some(ref) { assert Edges(items, n)[|Edges(items, n)| - 1] == ref; }
    }
  }

  // ---------------------------------------------------------------- the hub

  datatype Candidate = Candidate(id: string, slug: string, requiresHuman: Option<bool>, rest: string)

  datatype Query = Ready(mine: bool) | InStatus(status: string) | ByReporter(status: string) | ByClaimant(status: string)

  // What the hub answers during one observation: candidate lists, dependency responses, statuses.
  datatype Hub = Hub(list: Query -> Result<seq<Candidate>, string>,
                     deps: string -> Result<map<string, Value>, string>,
                     status: string -> Result<string, string>)

  // Whether no entry before k carries the id of entry k.
  predicate FirstOfItsId(cs: seq<Candidate>, k: int)
    requires 0 <= k < |cs|
  {
    cs[k].id != "" && forall j :: 0 <= j < k ==> cs[j].id != cs[k].id
  }

  function FirstOfEach(cs: seq<Candidate>, n: nat): seq<Candidate>
    requires n <= |cs|
  {
    if n == 0 then []
    else if FirstOfItsId(cs, n - 1) then FirstOfEach(cs, n - 1) + [cs[n - 1]]
    else FirstOfEach(cs, n - 1)
  }

  predicate IdBefore(cs: seq<Candidate>, n: nat, id: string)
    requires n <= |cs|
  {
    exists j :: 0 <= j < n && cs[j].id == id
  }

  method UnionCandidates(a: seq<Candidate>, b: seq<Candidate>) returns (out: seq<Candidate>)
    ensures out == FirstOfEach(a + b, |a + b|)
  {
    var seen: set<string> := {};
    out := [];
    ghost var all := a + b;
    var sets := [a, b];
    for s := 0 to 2
      invariant out == FirstOfEach(all, if s == 0 then 0 else if s == 1 then |a| else |all|)
      invariant forall id :: id in seen <==> id != "" && IdBefore(all, if s == 0 then 0 else if s == 1 then |a| else |all|, id)
    {
      ghost var start := if s == 0 then 0 else |a|;
      for i := 0 to |sets[s]|
        invariant out == FirstOfEach(all, start + i)
        invariant forall id :: id in seen <==> id != "" && IdBefore(all, start + i, id)
      {
        var c := sets[s][i];
        assert c == all[start + i];
        FirstIffUnseen(all, start + i);
        if c.id == "" || c.id in seen { continue; }
        seen := seen + {c.id};
        out := out + [c];
      }
    }
  }

  lemma FirstIffUnseen(cs: seq<Candidate>, k: nat)
    requires k < |cs|
    ensures FirstOfItsId(cs, k) <==> cs[k].id != "" && !IdBefore(cs, k, cs[k].id)
    ensures forall id :: IdBefore(cs, k + 1, id) <==> IdBefore(cs, k, id) || id == cs[k].id
  {
    forall id ensures IdBefore(cs, k + 1, id) <==> IdBefore(cs, k, id) || id == cs[k].id {
      if IdBefore(cs, k, id) {
        var j :| 0 <= j < k && cs[j].id == id;
        assert 0 <= j < k + 1;
      }
    }
  }

  // A candidate that is the first of its id among the first n.
  predicate AmongFirsts(cs: seq<Candidate>, n: nat, c: Candidate)
    requires n <= |cs|
  {
    exists k :: 0 <= k < n && FirstOfItsId(cs, k) && cs[k] == c
  }

  lemma {:induction false} UnionMembers(cs: seq<Candidate>, n: nat, c: Candidate)
    requires n <= |cs|
    ensures c in FirstOfEach(cs, n) <==> AmongFirsts(cs, n, c)
  {
    if n > 0 {
      UnionMembers(cs, n - 1, c);
      var out := FirstOfEach(cs, n);
      if FirstOfItsId(cs, n - 1) { assert out[|out| - 1] == cs[n - 1]; }
    }
  }

  predicate DistinctIds(cs: seq<Candidate>) { forall i, j :: 0 <= i < j < |cs| ==> cs[i].id != cs[j].id }

  lemma AppendDistinct(cs: seq<Candidate>, c: Candidate)
    requires DistinctIds(cs) && forall i :: 0 <= i < |cs| ==> cs[i].id != c.id
    ensures DistinctIds(cs + [c])
  {
  }

  /** The union holds each non-empty id once, by its first occurrence. */
  lemma {:induction false} UnionKeepsFirsts(cs: seq<Candidate>, n: nat)
    requires n <= |cs|
    ensures var out := FirstOfEach(cs, n);
            && (forall c :: c in out <==> AmongFirsts(cs, n, c))
            && DistinctIds(out)
  {
    forall c ensures c in FirstOfEach(cs, n) <==> AmongFirsts(cs, n, c) { UnionMembers(cs, n, c); }
    if n > 0 {
      UnionKeepsFirsts(cs, n - 1);
      var before := FirstOfEach(cs, n - 1);
      if FirstOfItsId(cs, n - 1) {
        forall i | 0 <= i < |before| ensures before[i].id != cs[n - 1].id {
          UnionMembers(cs, n - 1, before[i]);
          var k :| 0 <= k < n - 1 && FirstOfItsId(cs, k) && cs[k] == before[i];
        }
        AppendDistinct(before, cs[n - 1]);
      }
    }
  }

  function StatusList(hub: Hub, mine: bool, status: string): Result<seq<Candidate>, string> {
    if !mine then hub.list(InStatus(status))
    else
      var a, b := hub.list(ByReporter(status)), hub.list(ByClaimant(status));
      if a.Err? then a else if b.Err? then b else Ok(FirstOfEach(a.value + b.value, |a.value + b.value|))
  }

  method ListByStatus(hub: Hub, mine: bool, status: string) returns (r: Result<seq<Candidate>, string>)
    ensures r == StatusList(hub, mine, status)
  {
    if !mine { return hub.list(InStatus(status)); }
    var a := hub.list(ByReporter(status));
    if a.Err? { return a; }
    var b := hub.list(ByClaimant(status));
    if b.Err? { return b; }
    var out := UnionCandidates(a.value, b.value);
    r := Ok(out);
  }

  // Some candidate of the list carries the id.
  predicate Lists(cs: seq<Candidate>, id: string) { exists i :: 0 <= i < |cs| && cs[i].id == id }

  lemma {:induction false} FirstExists(cs: seq<Candidate>, i: nat) returns (k: nat)
    requires i < |cs| && cs[i].id != ""
    ensures k <= i && FirstOfItsId(cs, k) && cs[k].id == cs[i].id
  {
    if FirstOfItsId(cs, i) {
      k := i;
    } else {
      var j :| 0 <= j < i && cs[j].id == cs[i].id;
      k := FirstExists(cs, j);
    }
  }

  lemma UnionLists(cs: seq<Candidate>, id: string)
    requires id != ""
    ensures Lists(FirstOfEach(cs, |cs|), id) <==> Lists(cs, id)
  {
    var out := FirstOfEach(cs, |cs|);
    UnionKeepsFirsts(cs, |cs|);
    if i :| 0 <= i < |cs| && cs[i].id == id {
      var k := FirstExists(cs, i);
      assert AmongFirsts(cs, |cs|, cs[k]);
      assert cs[k] in out;
    }
    if j :| 0 <= j < |out| && out[j].id == id {
      assert out[j] in out;
      var k :| 0 <= k < |cs| && FirstOfItsId(cs, k) && cs[k] == out[j];
    }
  }

  lemma UnionIds(a: seq<Candidate>, b: seq<Candidate>, id: string)
    requires id != ""
    ensures Lists(FirstOfEach(a + b, |a + b|), id) <==> Lists(a, id) || Lists(b, id)
  {
    hide FirstOfEach;
    UnionLists(a + b, id);
    if i :| 0 <= i < |a| && a[i].id == id { assert (a + b)[i].id == id; }
    if i :| 0 <= i < |b| && b[i].id == id { assert (a + b)[|a| + i].id == id; }
  }

  lemma NoEmptyIds(cs: seq<Candidate>)
    ensures !Lists(FirstOfEach(cs, |cs|), "")
  {
    UnionKeepsFirsts(cs, |cs|);
    forall c | c in FirstOfEach(cs, |cs|) ensures c.id != "" { assert AmongFirsts(cs, |cs|, c); }
  }

  /** For a caller limited to their own work, the list fails exactly when one of its two
      halves does, and otherwise holds what they reported and what they claimed, every
      work item once and none without an id. */
  lemma OwnWorkIsListedOnce(hub: Hub, status: string)
    ensures var r, a, b := StatusList(hub, true, status), hub.list(ByReporter(status)), hub.list(ByClaimant(status));
            && (r.Err? <==> a.Err? || b.Err?)
            && (r.Ok? ==> DistinctIds(r.value) && !Lists(r.value, ""))
            && (r.Ok? ==> forall id :: id != "" ==> (Lists(r.value, id) <==> Lists(a.value, id) || Lists(b.value, id)))
  {
    var a, b := hub.list(ByReporter(status)), hub.list(ByClaimant(status));
    if a.Ok? && b.Ok? {
      UnionKeepsFirsts(a.value + b.value, |a.value + b.value|);
      NoEmptyIds(a.value + b.value);
      forall id | id != ""
        ensures Lists(FirstOfEach(a.value + b.value, |a.value + b.value|), id) <==> Lists(a.value, id) || Lists(b.value, id)
      {
        UnionIds(a.value, b.value, id);
      }
    }
  }

  // ---------------------------------------------------------------- is a blocker live

  // The uncached predicate: not addressable, not readable, or not finished.
  predicate Live(hub: Hub, id: string) {
    id == "" || hub.status(id).Err? || !IsTerminal(hub.status(id).value)
  }

  /** A blocker is done with exactly when it has an address and was read as wrapped, failed or
      cancelled; a queued, running, blocked or paused one is live. */
  lemma LiveIff(hub: Hub, id: string)
    ensures !Live(hub, id) <==>
            id != "" && (hub.status(id) == Ok("wrapped") || hub.status(id) == Ok("failed") || hub.status(id) == Ok("cancelled"))
    ensures hub.status(id) in {Ok("queued"), Ok("running"), Ok("blocked"), Ok("paused")} ==> Live(hub, id)
  {
    if hub.status(id).Ok? { TerminalIff(hub.status(id).value); }
  }

  predicate Distinct(ids: seq<string>) { forall i, j :: 0 <= i < j < |ids| ==> ids[i] != ids[j] }

  class LiveCache {
    var live: map<string, bool>
    ghost var asked: seq<string>  // the work items read so far

    ghost predicate Valid(hub: Hub)
      reads this
    {
      && (forall id :: id in live ==> id != "" && live[id] == Live(hub, id))
      && Distinct(asked) && (forall id :: id in asked <==> id in live)
    }

    constructor (hub: Hub)
      ensures Valid(hub) && asked == [] && live == map[]
    {
      live, asked := map[], [];
    }

    /** The cached answer is the uncached one, and no work item is read twice. */
    method BlockerIsLive(hub: Hub, ref: BlockerRef) returns (r: bool)
      requires Valid(hub)
      modifies this
      ensures Valid(hub) && r == Live(hub, ref.id)
      ensures asked == if ref.id == "" || ref.id in old(live) then old(asked) else old(asked) + [ref.id]
    {
      if ref.id == "" { return true; }
      if ref.id in live { return live[ref.id]; }
      r := true;
      var wi := hub.status(ref.id);
      if wi.Ok? { r := !IsTerminal(wi.value); }
      live := live[ref.id := r];
      asked := asked + [ref.id];
    }
  }

  // ---------------------------------------------------------------- the observation

  datatype BlockedWorkItem = BlockedWorkItem(id: string, slug: string, blockers: seq<BlockerRef>)

  datatype QueueState = QueueState(executable: nat, running: nat, paused: nat, needsHuman: seq<Candidate>,
                                   externallyBlocked: seq<BlockedWorkItem>, blockedByMine: nat)

  // Whether an edge holds a work item up from outside the scope.
  predicate HoldsUp(hub: Hub, scope: set<string>, ref: BlockerRef) {
    !(ref.id != "" && ref.id in scope) && Live(hub, ref.id)
  }

  function OutsideEdges(hub: Hub, scope: set<string>, edges: seq<BlockerRef>, n: nat): seq<BlockerRef>
    requires n <= |edges|
  {
    if n == 0 then []
    else if HoldsUp(hub, scope, edges[n - 1]) then OutsideEdges(hub, scope, edges, n - 1) + [edges[n - 1]]
    else OutsideEdges(hub, scope, edges, n - 1)
  }

  function Outsiders(hub: Hub, scope: set<string>, id: string): seq<BlockerRef> {
    match hub.deps(id)
    case Err(e) => [BlockerRef("", "(dependency lookup failed: " + e + ")")]
    case Ok(res) => OutsideEdges(hub, scope, EdgesOf(res), |EdgesOf(res)|)
  }

  function External(hub: Hub, scope: set<string>, blocked: seq<Candidate>, n: nat): seq<BlockedWorkItem>
    requires n <= |blocked|
  {
    if n == 0 then []
    else if Outsiders(hub, scope, blocked[n - 1].id) != [] then
      External(hub, scope, blocked, n - 1)
      + [BlockedWorkItem(blocked[n - 1].id, blocked[n - 1].slug, Outsiders(hub, scope, blocked[n - 1].id))]
    else External(hub, scope, blocked, n - 1)
  }

  function MineCount(hub: Hub, scope: set<string>, blocked: seq<Candidate>, n: nat): nat
    requires n <= |blocked|
  {
    if n == 0 then 0
    else if Outsiders(hub, scope, blocked[n - 1].id) == [] then MineCount(hub, scope, blocked, n - 1) + 1
    else MineCount(hub, scope, blocked, n - 1)
  }

  // Queued work whose human-session field is anything but an explicit false.
  function ForHumans(queued: seq<Candidate>, n: nat): seq<Candidate>
    requires n <= |queued|
  {
    if n == 0 then []
    else if queued[n - 1].requiresHuman != Some(false) then ForHumans(queued, n - 1) + [queued[n - 1]]
    else ForHumans(queued, n - 1)
  }

  function IdSet(cs: seq<Candidate>): set<string> { set i | 0 <= i < |cs| :: cs[i].id }

  const UNFINISHED := "queued,running,blocked,paused"

  // The error of the first list that fails, in the order they are asked for.
  function FirstError(hub: Hub, mine: bool): Option<string> {
    if hub.list(Ready(mine)).Err? then Some(hub.list(Ready(mine)).error)
    else if StatusList(hub, mine, "running").Err? then Some(StatusList(hub, mine, "running").error)
    else if StatusList(hub, mine, "paused").Err? then Some(StatusList(hub, mine, "paused").error)
    else if StatusList(hub, mine, "blocked").Err? then Some(StatusList(hub, mine, "blocked").error)
    else if StatusList(hub, mine, "queued").Err? then Some(StatusList(hub, mine, "queued").error)
    else if StatusList(hub, mine, "blocked").value != [] && StatusList(hub, mine, UNFINISHED).Err? then
      Some(StatusList(hub, mine, UNFINISHED).error)
    else None
  }

  function Scope(hub: Hub, mine: bool): set<string> {
    if StatusList(hub, mine, UNFINISHED).Ok? then IdSet(StatusList(hub, mine, UNFINISHED).value) else {}
  }

  /** The observation, with every blocker judged by the uncached predicate. */
  function Observation(hub: Hub, mine: bool): QueueState
    requires FirstError(hub, mine).None?
  {
    var blocked, queued := StatusList(hub, mine, "blocked").value, StatusList(hub, mine, "queued").value;
    QueueState(|hub.list(Ready(mine)).value|, |StatusList(hub, mine, "running").value|, |StatusList(hub, mine, "paused").value|,
               ForHumans(queued, |queued|),
               External(hub, Scope(hub, mine), blocked, |blocked|),
               MineCount(hub, Scope(hub, mine), blocked, |blocked|))
  }

  // The edges of one work item that hold it up, through the shared cache.
  method FindOutsiders(hub: Hub, scope: set<string>, id: string, cache: LiveCache) returns (outsiders: seq<BlockerRef>)
    requires cache.Valid(hub)
    modifies cache
    ensures cache.Valid(hub) && outsiders == Outsiders(hub, scope, id)
  {
    outsiders := [];
    var deps := hub.deps(id);
    if deps.Err? { return [BlockerRef("", "(dependency lookup failed: " + deps.error + ")")]; }
    var edges := BlockingEdges(deps.value);
    for i := 0 to |edges|
      invariant cache.Valid(hub) && outsiders == OutsideEdges(hub, scope, edges, i)
    {
      var ref := edges[i];
      if ref.id != "" && ref.id in scope { continue; }
      var live := cache.BlockerIsLive(hub, ref);
      if !live { continue; }
      outsiders := outsiders + [ref];
    }
  }

  method HumanQueue(queued: seq<Candidate>) returns (out: seq<Candidate>)
    ensures out == ForHumans(queued, |queued|)
  {
    out := [];
    for i := 0 to |queued|
      invariant out == ForHumans(queued, i)
    {
      if queued[i].requiresHuman == Some(false) { continue; }
      out := out + [queued[i]];
    }
  }

  lemma {:induction false} ForHumansAre(queued: seq<Candidate>, n: nat, c: Candidate)
    requires n <= |queued|
    ensures c in ForHumans(queued, n) <==> c in queued[..n] && c.requiresHuman != Some(false)
    ensures multiset(ForHumans(queued, n))[c] <= multiset(queued[..n])[c]
  {
    if n > 0 {
      ForHumansAre(queued, n - 1, c);
      assert queued[..n] == queued[..n - 1] + [queued[n - 1]];
    }
  }

  lemma ErrorIff(hub: Hub, mine: bool)
    ensures FirstError(hub, mine).Some? <==>
            || hub.list(Ready(mine)).Err?
            || StatusList(hub, mine, "running").Err? || StatusList(hub, mine, "paused").Err?
            || StatusList(hub, mine, "blocked").Err? || StatusList(hub, mine, "queued").Err?
            || (StatusList(hub, mine, "blocked").value != [] && StatusList(hub, mine, "queued,running,blocked,paused").Err?)
  {
    hide StatusList;
  }

  lemma ObservationIs(hub: Hub, mine: bool)
    ensures FirstError(hub, mine).Some? <==>
            || hub.list(Ready(mine)).Err?
            || StatusList(hub, mine, "running").Err? || StatusList(hub, mine, "paused").Err?
            || StatusList(hub, mine, "blocked").Err? || StatusList(hub, mine, "queued").Err?
            || (StatusList(hub, mine, "blocked").value != [] && StatusList(hub, mine, "queued,running,blocked,paused").Err?)
    ensures FirstError(hub, mine).None? ==>
      var q, queued := Observation(hub, mine), StatusList(hub, mine, "queued").value;
      && multiset(q.needsHuman) <= multiset(queued)
      && (forall c :: c in q.needsHuman <==> c in queued && c.requiresHuman != Some(false))
      && |q.externallyBlocked| + q.blockedByMine == |StatusList(hub, mine, "blocked").value|
  {
    hide StatusList, ForHumans, External, MineCount;
    ErrorIff(hub, mine);
    if FirstError(hub, mine).None? {
      var queued, blocked := StatusList(hub, mine, "queued").value, StatusList(hub, mine, "blocked").value;
      assert queued[..|queued|] == queued;
      forall c
        ensures c in ForHumans(queued, |queued|) <==> c in queued && c.requiresHuman != Some(false)
        ensures multiset(ForHumans(queued, |queued|))[c] <= multiset(queued)[c]
      {
        ForHumansAre(queued, |queued|, c);
      }
      EachIsCountedOnce(hub, Scope(hub, mine), blocked, |blocked|);
    }
  }

  /** One observation; the memo shared across the walk never shows in the result. */
  method ObserveQueue(hub: Hub, mine: bool) returns (r: Result<QueueState, string>)
    ensures r == match FirstError(hub, mine) case Some(e) => Err(e) case None => Ok(Observation(hub, mine))
    // The buckets, written out.
    ensures r.Ok? ==> hub.list(Ready(mine)).Ok? && r.value.executable == |hub.list(Ready(mine)).value|
    ensures r.Ok? ==> StatusList(hub, mine, "running").Ok? && r.value.running == |StatusList(hub, mine, "running").value|
    ensures r.Ok? ==> StatusList(hub, mine, "paused").Ok? && r.value.paused == |StatusList(hub, mine, "paused").value|
    ensures r.Ok? ==> StatusList(hub, mine, "queued").Ok? && multiset(r.value.needsHuman) <= multiset(StatusList(hub, mine, "queued").value)
    ensures r.Ok? ==> forall c :: c in r.value.needsHuman <==> c in StatusList(hub, mine, "queued").value && c.requiresHuman != Some(false)
    ensures r.Ok? ==> StatusList(hub, mine, "blocked").Ok?
                      && |r.value.externallyBlocked| + r.value.blockedByMine == |StatusList(hub, mine, "blocked").value|
    ensures r.Err? <==>
            || hub.list(Ready(mine)).Err?
            || StatusList(hub, mine, "running").Err? || StatusList(hub, mine, "paused").Err?
            || StatusList(hub, mine, "blocked").Err? || StatusList(hub, mine, "queued").Err?
            || (StatusList(hub, mine, "blocked").value != [] && StatusList(hub, mine, "queued,running,blocked,paused").Err?)
  {
    ObservationIs(hub, mine);
    hide Outsiders, IdSet, StatusList;
    var ready := hub.list(Ready(mine));
    if ready.Err? { return Err(ready.error); }
    var running := ListByStatus(hub, mine, "running");
    if running.Err? { return Err(running.error); }
    var paused := ListByStatus(hub, mine, "paused");
    if paused.Err? { return Err(paused.error); }
    var blocked := ListByStatus(hub, mine, "blocked");
    if blocked.Err? { return Err(blocked.error); }
    var queued := ListByStatus(hub, mine, "queued");
    if queued.Err? { return Err(queued.error); }
    var humans := HumanQueue(queued.value);
    var st := QueueState(|ready.value|, |running.value|, |paused.value|, humans, [], 0);
    var bs := blocked.value;
    if |bs| == 0 { return Ok(st); }
    var unfinished := ListByStatus(hub, mine, UNFINISHED);
    if unfinished.Err? { return Err(unfinished.error); }
    var inScope := IdSet(unfinished.value);
    var cache := new LiveCache(hub);
    for i := 0 to |bs|
      invariant cache.Valid(hub) && fresh(cache)
      invariant st == QueueState(|ready.value|, |running.value|, |paused.value|, humans,
                                 External(hub, inScope, bs, i), MineCount(hub, inScope, bs, i))
    {
      var outsiders := FindOutsiders(hub, inScope, bs[i].id, cache);
      if |outsiders| > 0 {
        st := st.(externallyBlocked := st.externallyBlocked + [BlockedWorkItem(bs[i].id, bs[i].slug, outsiders)]);
      } else {
        st := st.(blockedByMine := st.blockedByMine + 1);
      }
    }
    return Ok(st);
  }

  // ---------------------------------------------------------------- what the classification means

  // Some edge of the work item is held by an unfinished or unknowable blocker outside the scope.
  predicate HeldFromOutside(hub: Hub, scope: set<string>, id: string) {
    hub.deps(id).Ok? && exists ref :: ref in EdgesOf(hub.deps(id).value) && HoldsUp(hub, scope, ref)
  }

  lemma {:induction false} OutsideEdgesAre(hub: Hub, scope: set<string>, edges: seq<BlockerRef>, n: nat, ref: BlockerRef)
    requires n <= |edges|
    ensures ref in OutsideEdges(hub, scope, edges, n) <==> HoldsUp(hub, scope, ref) && ref in edges[..n]
  {
    if n > 0 {
      OutsideEdgesAre(hub, scope, edges, n - 1, ref);
      assert edges[..n] == edges[..n - 1] + [edges[n - 1]];
    }
  }

  /** A blocked work item counts as external exactly when its dependency lookup failed
      or some blocking edge leads out of the scope to a live far end. */
  lemma ExternalIff(hub: Hub, scope: set<string>, id: string)
    ensures Outsiders(hub, scope, id) != [] <==> hub.deps(id).Err? || HeldFromOutside(hub, scope, id)
  {
    if hub.deps(id).Ok? {
      var edges := EdgesOf(hub.deps(id).value);
      var out := OutsideEdges(hub, scope, edges, |edges|);
      assert edges[..|edges|] == edges;
      if out != [] { OutsideEdgesAre(hub, scope, edges, |edges|, out[0]); }
      forall ref | ref in edges && HoldsUp(hub, scope, ref) ensures ref in out {
        OutsideEdgesAre(hub, scope, edges, |edges|, ref);
      }
    }
  }

  /** Every blocked work item is counted once: external or mine. */
  lemma {:induction false} EachIsCountedOnce(hub: Hub, scope: set<string>, blocked: seq<Candidate>, n: nat)
    requires n <= |blocked|
    ensures |External(hub, scope, blocked, n)| + MineCount(hub, scope, blocked, n) == n
  {
    if n > 0 { EachIsCountedOnce(hub, scope, blocked, n - 1); }
  }

  lemma {:induction false} ExternalPrefix(hub: Hub, scope: set<string>, a: seq<Candidate>, b: seq<Candidate>, n: nat)
    requires n <= |a|
    ensures External(hub, scope, a + b, n) == External(hub, scope, a, n)
  {
    if n > 0 { ExternalPrefix(hub, scope, a, b, n - 1); }
  }

  lemma {:induction false} ExternalConcat(hub: Hub, scope: set<string>, a: seq<Candidate>, b: seq<Candidate>, n: nat)
    requires n <= |b|
    ensures External(hub, scope, a + b, |a| + n) == External(hub, scope, a, |a|) + External(hub, scope, b, n)
  {
    if n == 0 {
      ExternalPrefix(hub, scope, a, b, |a|);
    } else {
      ExternalConcat(hub, scope, a, b, n - 1);
      assert (a + b)[|a| + n - 1] == b[n - 1];
    }
  }

  function All(hub: Hub, scope: set<string>, blocked: seq<Candidate>): seq<BlockedWorkItem> {
    External(hub, scope, blocked, |blocked|)
  }

  lemma AllConcat(hub: Hub, scope: set<string>, a: seq<Candidate>, b: seq<Candidate>)
    ensures All(hub, scope, a + b) == All(hub, scope, a) + All(hub, scope, b)
  {
    ExternalConcat(hub, scope, a, b, |b|);
  }

  // Taking one work item out of the list takes out its entry.
  lemma ExternalSplits(hub: Hub, scope: set<string>, a: seq<Candidate>, c: Candidate, b: seq<Candidate>)
    ensures multiset(All(hub, scope, a + [c] + b)) == multiset(All(hub, scope, a + b)) + multiset(All(hub, scope, [c]))
  {
    hide All;
    AllConcat(hub, scope, a + [c], b);
    AllConcat(hub, scope, a, [c]);
    AllConcat(hub, scope, a, b);
  }

  /** The classification does not depend on the order in which the blocked work items are visited. */
  lemma {:induction false} OrderDoesNotMatter(hub: Hub, scope: set<string>, a: seq<Candidate>, b: seq<Candidate>)
    requires multiset(a) == multiset(b)
    ensures multiset(All(hub, scope, a)) == multiset(All(hub, scope, b))
    ensures MineCount(hub, scope, a, |a|) == MineCount(hub, scope, b, |b|)
    decreases |a|
  {
    EachIsCountedOnce(hub, scope, a, |a|);
    EachIsCountedOnce(hub, scope, b, |b|);
    hide External, MineCount;
    SameSize(a, b);
    if a != [] {
      var i := PlaceOf(a, b);
      CutOne(a, b, i);
      OrderDoesNotMatter(hub, scope, a[1..], b[..i] + b[i + 1..]);
      ExternalSplits(hub, scope, [], a[0], a[1..]);
      ExternalSplits(hub, scope, b[..i], a[0], b[i + 1..]);
    }
    SameSize(All(hub, scope, a), All(hub, scope, b));
  }

  // ---------------------------------------------------------------- the run's terminal state

  datatype Terminal = Failed | BlockedExternal | Idle | Completed

  predicate Empty(q: QueueState) {
    q.executable == 0 && q.blockedByMine == 0 && q.externallyBlocked == [] && q.running == 0 && q.paused == 0 && q.needsHuman == []
  }

  function Classify(anyFailed: bool, q: QueueState): Terminal {
    if anyFailed then Failed
    else if |q.externallyBlocked| > 0 || |q.needsHuman| > 0 then BlockedExternal
    else if !Empty(q) then Idle
    else Completed
  }

  lemma {:induction false} NoneForHumansIff(queued: seq<Candidate>, n: nat)
    requires n <= |queued|
    ensures ForHumans(queued, n) == [] <==> forall i :: 0 <= i < n ==> queued[i].requiresHuman == Some(false)
  {
    if n > 0 { NoneForHumansIff(queued, n - 1); }
  }

  lemma {:induction false} NoneExternalIff(hub: Hub, scope: set<string>, blocked: seq<Candidate>, n: nat)
    requires n <= |blocked|
    ensures External(hub, scope, blocked, n) == [] <==>
            forall i :: 0 <= i < n ==> hub.deps(blocked[i].id).Ok? && !HeldFromOutside(hub, scope, blocked[i].id)
  {
    if n > 0 {
      NoneExternalIff(hub, scope, blocked, n - 1);
      ExternalIff(hub, scope, blocked[n - 1].id);
    }
  }

  /** A run that ends without failures says "a person is needed" exactly when some blocked
      work item could not be looked up or is held from outside, or a queued one is not
      explicitly free of a human session. */
  lemma PersonNeededIff(hub: Hub, mine: bool)
    requires FirstError(hub, mine).None?
    ensures var blocked, queued := StatusList(hub, mine, "blocked").value, StatusList(hub, mine, "queued").value;
            Classify(false, Observation(hub, mine)) == BlockedExternal <==>
            || (exists i :: 0 <= i < |blocked|
                  && (hub.deps(blocked[i].id).Err? || HeldFromOutside(hub, Scope(hub, mine), blocked[i].id)))
            || (exists i :: 0 <= i < |queued| && queued[i].requiresHuman != Some(false))
  {
    var blocked, queued := StatusList(hub, mine, "blocked").value, StatusList(hub, mine, "queued").value;
    NoneForHumansIff(queued, |queued|);
    NoneExternalIff(hub, Scope(hub, mine), blocked, |blocked|);
  }

  /** It says "completed" exactly when nothing is ready, running, paused or blocked and
      every queued work item is explicitly free of a human session. */
  lemma CompletedIff(hub: Hub, mine: bool)
    requires FirstError(hub, mine).None?
    ensures var queued := StatusList(hub, mine, "queued").value;
            Classify(false, Observation(hub, mine)) == Completed <==>
            && hub.list(Ready(mine)).value == [] && StatusList(hub, mine, "running").value == []
            && StatusList(hub, mine, "paused").value == [] && StatusList(hub, mine, "blocked").value == []
            && forall i :: 0 <= i < |queued| ==> queued[i].requiresHuman == Some(false)
  {
    var blocked, queued := StatusList(hub, mine, "blocked").value, StatusList(hub, mine, "queued").value;
    NoneForHumansIff(queued, |queued|);
    EachIsCountedOnce(hub, Scope(hub, mine), blocked, |blocked|);
  }

  /** So queued work that is free of a human session but not ready is in no bucket:
      the scope is reported completed although a work item in it is not finished. */
  lemma QueuedWorkReportedCompleted(c: Candidate, hub: Hub)
    requires c.requiresHuman == Some(false)
    requires hub.list(InStatus("queued")) == Ok([c]) && hub.list(Ready(false)) == Ok([])
    requires forall status :: status != "queued" && status != UNFINISHED ==> hub.list(InStatus(status)) == Ok([])
    ensures FirstError(hub, false).None? && Classify(false, Observation(hub, false)) == Completed
  {
    assert hub.list(InStatus("running")) == Ok([]) && hub.list(InStatus("paused")) == Ok([]) && hub.list(InStatus("blocked")) == Ok([]);
    CompletedIff(hub, false);
  }
}
