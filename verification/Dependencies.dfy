/** The server's dependency responses, printed, and what the queue observation reads from them. */
module Dependencies {
  import opened Common
  import opened QueueObservation

  // One end of an edge as the server lists it. Its id is withheld when the caller may not open it.
  datatype Dependency = Dependency(id: string, slug: Option<string>, project: string, kind: string,
                                   note: Option<string>, accessible: bool)

  function Entry(d: Dependency): Value {
    var always := map["id" := Text(if d.accessible then d.id else "hidden"),
                      "slug" := if d.slug.Some? then Text(d.slug.value) else Null,
                      "project" := Text(d.project), "kind" := Text(d.kind), "accessible" := Flag(d.accessible)];
    Object(if d.note.Some? then always["note" := Text(d.note.value)] else always)
  }

  function Entries(ds: seq<Dependency>): (es: seq<Value>)
    ensures |es| == |ds|
  {
    seq(|ds|, i requires 0 <= i < |ds| => Entry(ds[i]))
  }

  // What this work item holds up, and what holds it up.
  function Response(outgoing: seq<Dependency>, incoming: seq<Dependency>): map<string, Value> {
    map["blocking" := List(Entries(outgoing)), "blocked_by" := List(Entries(incoming))]
  }

  // ---------------------------------------------------------------- what should be read

  // An edge that blocks; the server defaults an empty kind to this one.
  predicate Blocks(d: Dependency) { d.kind == "blocks" || d.kind == "" }

  function Far(d: Dependency): BlockerRef {
    BlockerRef(if d.accessible && d.id != "hidden" then d.id else "", if d.slug.Some? then d.slug.value else "")
  }

  // The first n dependencies that block and name something, in order.
  function Blockers(ds: seq<Dependency>, n: nat): seq<BlockerRef>
    requires n <= |ds|
  {
    if n == 0 then []
    else if Blocks(ds[n - 1]) && Far(ds[n - 1]) != BlockerRef("", "") then Blockers(ds, n - 1) + [Far(ds[n - 1])]
    else Blockers(ds, n - 1)
  }

  // ---------------------------------------------------------------- what is read

  /** An entry's address is the first non-empty of these four fields, in this order. */
  lemma AddressIs(o: map<string, Value>)
    ensures AddressFrom(o, 0) ==
            if Str(o, "blocking_wi_id") != "" then Str(o, "blocking_wi_id")
            else if Str(o, "work_item_id") != "" then Str(o, "work_item_id")
            else if Str(o, "id") != "" then Str(o, "id")
            else Str(o, "blocking_id")
  {
    assert AddressFrom(o, 3) == Str(o, "blocking_id") by { assert AddressFrom(o, 4) == ""; }
    assert AddressFrom(o, 2) == if Str(o, "id") != "" then Str(o, "id") else AddressFrom(o, 3);
    assert AddressFrom(o, 1) == if Str(o, "work_item_id") != "" then Str(o, "work_item_id") else AddressFrom(o, 2);
  }

  lemma EntryIsRead(d: Dependency)
    ensures EdgeOf(Entry(d)) == if Blocks(d) && Far(d) != BlockerRef("", "") then Some(Far(d)) else None
  {
    hide AddressFrom;
    var o := Entry(d).fields;
    AddressIs(o);
    assert "blocking_wi_id" !in o && "work_item_id" !in o && "blocking_id" !in o;
    assert Str(o, "kind") == d.kind && Str(o, "slug") == Far(d).slug;
    assert Str(o, "id") == if d.accessible then d.id else "hidden";
  }

  lemma {:induction false} EntriesAreRead(ds: seq<Dependency>, n: nat)
    requires n <= |ds|
    ensures Edges(Entries(ds), n) == Blockers(ds, n)
  {
    hide EdgeOf, Entry, Far, Blocks;
    if n > 0 {
      EntriesAreRead(ds, n - 1);
      EntryIsRead(ds[n - 1]);
    }
  }

  /** From a printed response exactly the incoming blocking dependencies are read, in order;
      what this work item holds up in turn plays no part. */
  lemma IncomingIsRead(outgoing: seq<Dependency>, incoming: seq<Dependency>)
    ensures EdgesOf(Response(outgoing, incoming)) == Blockers(incoming, |incoming|)
  {
    hide Edges;
    EntriesAreRead(incoming, |incoming|);
    assert "blocking" != "blocked_by" by { assert |"blocking"| != |"blocked_by"|; }
  }

  // ---------------------------------------------------------------- and what it amounts to

  // Nobody knows the far end to be over: it has no address, or was not read as finished.
  predicate MayBeLive(hub: Hub, far: BlockerRef) {
    far.id == "" || hub.status(far.id) !in {Ok("wrapped"), Ok("failed"), Ok("cancelled")}
  }

  // The dependency holds its work item up from outside the scope.
  predicate HoldsFromOutside(hub: Hub, scope: set<string>, d: Dependency) {
    && Blocks(d) && Far(d) != BlockerRef("", "")
    && !(Far(d).id != "" && Far(d).id in scope) && MayBeLive(hub, Far(d))
  }

  // The far ends of the first n dependencies that do, in order.
  function Holding(hub: Hub, scope: set<string>, ds: seq<Dependency>, n: nat): seq<BlockerRef>
    requires n <= |ds|
  {
    if n == 0 then []
    else if HoldsFromOutside(hub, scope, ds[n - 1]) then Holding(hub, scope, ds, n - 1) + [Far(ds[n - 1])]
    else Holding(hub, scope, ds, n - 1)
  }

  lemma {:induction false} OutsideEdgesConcat(hub: Hub, scope: set<string>, edges: seq<BlockerRef>, more: seq<BlockerRef>, n: nat)
    requires n <= |edges|
    ensures OutsideEdges(hub, scope, edges + more, n) == OutsideEdges(hub, scope, edges, n)
  {
    if n > 0 { OutsideEdgesConcat(hub, scope, edges, more, n - 1); }
  }

  lemma {:induction false} HoldingIs(hub: Hub, scope: set<string>, ds: seq<Dependency>, n: nat)
    requires n <= |ds|
    ensures OutsideEdges(hub, scope, Blockers(ds, n), |Blockers(ds, n)|) == Holding(hub, scope, ds, n)
  {
    hide Blocks, Far, Live;
    if n > 0 {
      HoldingIs(hub, scope, ds, n - 1);
      var earlier, far := Blockers(ds, n - 1), Far(ds[n - 1]);
      LiveIff(hub, far.id);
      OutsideEdgesConcat(hub, scope, earlier, [far], |earlier|);
    }
  }

  /** A blocked work item whose dependencies could be listed is reported with exactly the
      incoming blocking ones that lead out of the scope to work not known to be over, and
      counts as external exactly when there is one. */
  lemma ExternalDependenciesIff(hub: Hub, scope: set<string>, id: string, outgoing: seq<Dependency>, incoming: seq<Dependency>)
    requires hub.deps(id) == Ok(Response(outgoing, incoming))
    ensures Outsiders(hub, scope, id) == Holding(hub, scope, incoming, |incoming|)
    ensures Outsiders(hub, scope, id) != [] <==> exists i :: 0 <= i < |incoming| && HoldsFromOutside(hub, scope, incoming[i])
  {
    hide Edges, EdgesOf, OutsideEdges, HoldsFromOutside;
    IncomingIsRead(outgoing, incoming);
    HoldingIs(hub, scope, incoming, |incoming|);
    SomeHoldIff(hub, scope, incoming, |incoming|);
  }

  lemma {:induction false} SomeHoldIff(hub: Hub, scope: set<string>, ds: seq<Dependency>, n: nat)
    requires n <= |ds|
    ensures Holding(hub, scope, ds, n) != [] <==> exists i :: 0 <= i < n && HoldsFromOutside(hub, scope, ds[i])
  {
    if n > 0 { SomeHoldIff(hub, scope, ds, n - 1); }
  }

  /** A work item that only holds up others is never reported as externally blocked. */
  lemma HoldingOthersUpIsNoBlock(hub: Hub, scope: set<string>, id: string, outgoing: seq<Dependency>)
    requires hub.deps(id) == Ok(Response(outgoing, []))
    ensures Outsiders(hub, scope, id) == []
  {
    ExternalDependenciesIff(hub, scope, id, outgoing, []);
  }

  /** A work item whose dependencies could not be listed is reported with a note that says so. */
  lemma LookupFailedIs(hub: Hub, scope: set<string>, id: string, e: string)
    requires hub.deps(id) == Err(e)
    ensures Outsiders(hub, scope, id) == [BlockerRef("", "(dependency lookup failed: " + e + ")")]
  {
  }

  /** The scope is the ids of the unfinished work: queued, running, blocked or paused. */
  lemma ScopeIs(hub: Hub, mine: bool, id: string)
    requires StatusList(hub, mine, "queued,running,blocked,paused").Ok?
    ensures id in Scope(hub, mine) <==> exists c :: c in StatusList(hub, mine, "queued,running,blocked,paused").value && c.id == id
  {
    hide StatusList;
    var cs := StatusList(hub, mine, UNFINISHED).value;
    if c :| c in cs && c.id == id {
      var i :| 0 <= i < |cs| && cs[i] == c;
    }
  }

  // What the observation reports of each blocked work item, one after the other.
  lemma {:induction false} ExternalIs(hub: Hub, scope: set<string>, blocked: seq<Candidate>, n: nat, b: BlockedWorkItem)
    requires n <= |blocked|
    ensures b in External(hub, scope, blocked, n) <==>
            exists i :: 0 <= i < n && Outsiders(hub, scope, blocked[i].id) != []
              && b == BlockedWorkItem(blocked[i].id, blocked[i].slug, Outsiders(hub, scope, blocked[i].id))
  {
    hide Outsiders;
    if n > 0 { ExternalIs(hub, scope, blocked, n - 1, b); }
  }
}
