/** Choosing, in one pass, which recorded calls become fixtures. */
module FixtureSlots {
  import opened Common

  datatype Rec = Rec(id: string, isError: bool, params: nat, size: nat)

  datatype Slots = Slots(error: Option<Rec>, happy: Option<Rec>, edge1: Option<Rec>, edge2: Option<Rec>)

  const NO_SLOTS := Slots(None, None, None, None)

  function Next(s: Slots, rec: Rec): Slots {
    var error := if rec.isError && s.error.None? then Some(rec) else s.error;
    var happy := if !rec.isError && (s.happy.None? || rec.params > s.happy.value.params) then Some(rec) else s.happy;
    if s.edge1.None? || rec.size > s.edge1.value.size then Slots(error, happy, Some(rec), s.edge1)
    else if s.edge2.None? || rec.size > s.edge2.value.size then Slots(error, happy, s.edge1, Some(rec))
    else Slots(error, happy, s.edge1, s.edge2)
  }

  function SlotsAfter(recs: seq<Rec>, n: nat): Slots
    requires n <= |recs|
  {
    if n == 0 then NO_SLOTS else Next(SlotsAfter(recs, n - 1), recs[n - 1])
  }

  /** The slots kept for one tool. */
  class Candidates {
    var error: Option<Rec>
    var happy: Option<Rec>
    var edge1: Option<Rec>
    var edge2: Option<Rec>
    ghost var offered: seq<Rec>

    ghost predicate Valid()
      reads this
    {
      Slots(error, happy, edge1, edge2) == SlotsAfter(offered, |offered|)
    }

    constructor ()
      ensures Valid() && offered == []
    {
      error, happy, edge1, edge2, offered := None, None, None, None, [];
    }

    method Offer(rec: Rec)
      requires Valid()
      modifies this
      ensures Valid() && offered == old(offered) + [rec]
    {
      if rec.isError {
        if error.None? { error := Some(rec); }
      } else {
        if happy.None? || rec.params > happy.value.params { happy := Some(rec); }
      }
      if edge1.None? || rec.size > edge1.value.size {
        edge1, edge2 := Some(rec), edge1;
      } else if edge2.None? || rec.size > edge2.value.size {
        edge2 := Some(rec);
      }
      SlotsPrefix(offered, [rec], |offered|);
      offered := offered + [rec];
    }
  }

  lemma {:induction false} SlotsPrefix(a: seq<Rec>, b: seq<Rec>, n: nat)
    requires n <= |a|
    ensures SlotsAfter(a + b, n) == SlotsAfter(a, n)
  {
    if n > 0 { SlotsPrefix(a, b, n - 1); }
  }

  // ---------------------------------------------------------------- what the slots hold

  // Record i is the first error.
  predicate FirstError(recs: seq<Rec>, n: nat, i: nat)
    requires n <= |recs|
  {
    i < n && recs[i].isError && forall j :: 0 <= j < i ==> !recs[j].isError
  }

  // Record i is the earliest successful one with the most parameters.
  predicate Happiest(recs: seq<Rec>, n: nat, i: nat)
    requires n <= |recs|
  {
    && i < n && !recs[i].isError
    && forall j :: 0 <= j < n && !recs[j].isError ==> recs[j].params <= recs[i].params && (j < i ==> recs[j].params < recs[i].params)
  }

  // Record i is the earliest of the largest, leaving record `but` out.
  predicate Largest(recs: seq<Rec>, n: nat, but: int, i: nat)
    requires n <= |recs|
  {
    && i < n && i != but
    && forall j :: 0 <= j < n && j != but ==> recs[j].size <= recs[i].size && (j < i ==> recs[j].size < recs[i].size)
  }

  lemma {:induction false} ErrorSlotIs(recs: seq<Rec>, n: nat) returns (e: nat)
    requires n <= |recs|
    ensures var slot := SlotsAfter(recs, n).error;
            && (slot.None? <==> forall j :: 0 <= j < n ==> !recs[j].isError)
            && (slot.Some? ==> FirstError(recs, n, e) && slot.value == recs[e])
  {
    e := 0;
    if n > 0 {
      e := ErrorSlotIs(recs, n - 1);
      if SlotsAfter(recs, n - 1).error.None? { e := n - 1; }
    }
  }

  lemma {:induction false} HappySlotIs(recs: seq<Rec>, n: nat) returns (h: nat)
    requires n <= |recs|
    ensures var slot := SlotsAfter(recs, n).happy;
            && (slot.None? <==> forall j :: 0 <= j < n ==> recs[j].isError)
            && (slot.Some? ==> Happiest(recs, n, h) && slot.value == recs[h])
  {
    h := 0;
    if n > 0 {
      var slot, last := SlotsAfter(recs, n - 1).happy, recs[n - 1];
      h := HappySlotIs(recs, n - 1);
      if !last.isError && (slot.None? || last.params > slot.value.params) { h := n - 1; }
    }
  }

  lemma {:induction false} EdgeSlotsAre(recs: seq<Rec>, n: nat) returns (i: nat, k: nat)
    requires n <= |recs|
    ensures var s := SlotsAfter(recs, n);
            && (s.edge1.None? <==> n == 0) && (s.edge2.None? <==> n <= 1)
            && (s.edge1.Some? ==> Largest(recs, n, -1, i) && s.edge1.value == recs[i])
            && (s.edge2.Some? ==> Largest(recs, n, i, k) && s.edge2.value == recs[k])
  {
    i, k := 0, 0;
    if n > 0 {
      var before, size := SlotsAfter(recs, n - 1), recs[n - 1].size;
      i, k := EdgeSlotsAre(recs, n - 1);
      if before.edge1.None? || size > before.edge1.value.size {
        i, k := n - 1, i;
      } else if before.edge2.None? || size > before.edge2.value.size {
        k := n - 1;
      }
    }
  }

  /** Online equals offline: `error` is the first error, `happy` the earliest success with
      the most parameters, `edge1` and `edge2` the stable two largest records. */
  lemma SlotsAre(recs: seq<Rec>, n: nat) returns (e: nat, h: nat, i: nat, k: nat)
    requires n <= |recs|
    ensures var s := SlotsAfter(recs, n);
            && (s.error.None? <==> forall j :: 0 <= j < n ==> !recs[j].isError)
            && (s.error.Some? ==> FirstError(recs, n, e) && s.error.value == recs[e])
            && (s.happy.None? <==> forall j :: 0 <= j < n ==> recs[j].isError)
            && (s.happy.Some? ==> Happiest(recs, n, h) && s.happy.value == recs[h])
            && (s.edge1.None? <==> n == 0) && (s.edge2.None? <==> n <= 1)
            && (s.edge1.Some? ==> Largest(recs, n, -1, i) && s.edge1.value == recs[i])
            && (s.edge2.Some? ==> Largest(recs, n, i, k) && s.edge2.value == recs[k])
  {
    hide SlotsAfter, FirstError, Happiest, Largest;
    e := ErrorSlotIs(recs, n);
    h := HappySlotIs(recs, n);
    i, k := EdgeSlotsAre(recs, n);
  }

  // ---------------------------------------------------------------- the fixtures picked

  datatype Role = Happy | Error | Edge

  datatype Pick = Pick(role: Role, rec: Rec)

  // The chosen success and error, and after them the larger edge not chosen already.
  function Chosen(s: Slots): seq<Pick> {
    (if s.happy.Some? then [Pick(Happy, s.happy.value)] else []) + (if s.error.Some? then [Pick(Error, s.error.value)] else [])
  }

  predicate Used(s: Slots, id: string) {
    (s.happy.Some? && s.happy.value.id == id) || (s.error.Some? && s.error.value.id == id)
  }

  function Picks(s: Slots): seq<Pick> {
    Chosen(s) + if s.edge1.Some? && !Used(s, s.edge1.value.id) then [Pick(Edge, s.edge1.value)]
                else if s.edge2.Some? && !Used(s, s.edge2.value.id) then [Pick(Edge, s.edge2.value)]
                else []
  }

  method PickFixtures(s: Slots) returns (picks: seq<Pick>)
    ensures picks == Picks(s)
    ensures ByRole(s, picks) && EdgeFresh(s, picks)
  {
    hide ByRole, EdgeFresh;
    EdgeIsFirstFresh(s);
    PicksByRole(s);
    picks := [];
    if s.happy.Some? { picks := picks + [Pick(Happy, s.happy.value)]; }
    if s.error.Some? { picks := picks + [Pick(Error, s.error.value)]; }
    var used := set p | p in picks :: p.rec.id;
    assert forall id :: id in used <==> Used(s, id) by {
      assert s.happy.Some? ==> picks[0] == Pick(Happy, s.happy.value);
      assert s.error.Some? ==> picks[|picks| - 1] == Pick(Error, s.error.value);
      assert forall p :: p in picks ==> Used(s, p.rec.id);
    }
    var edges := [s.edge1, s.edge2];
    ghost var chosen := picks;
    assert Chosen(s) + [] == Chosen(s);
    for k := 0 to 2
      invariant picks == chosen == Chosen(s)
      invariant forall m :: 0 <= m < k ==> edges[m].None? || Used(s, edges[m].value.id)
    {
      if edges[k].Some? && edges[k].value.id !in used {
        picks := picks + [Pick(Edge, edges[k].value)];
        assert !Used(s, edges[k].value.id);
        assert edges[k] == if k == 0 then s.edge1 else s.edge2;
        assert k == 1 ==> s.edge1.None? || Used(s, s.edge1.value.id) by { assert edges[0] == s.edge1; }
        assert picks == Picks(s);
        break;
      }
    }
    assert edges[0] == s.edge1 && edges[1] == s.edge2;
  }

  // Neither the success nor the error has this record's id.
  predicate Fresh(s: Slots, rec: Rec) {
    (s.happy.Some? ==> rec.id != s.happy.value.id) && (s.error.Some? ==> rec.id != s.error.value.id)
  }

  /** The edge is the first of the two whose id neither of the others has, if there is one. */
  predicate EdgeFresh(s: Slots, picks: seq<Pick>) {
    && (forall p :: p in picks && p.role == Edge ==>
          Fresh(s, p.rec) && (s.edge1.Some? && Fresh(s, s.edge1.value) ==> p.rec == s.edge1.value))
    && ((exists p :: p in picks && p.role == Edge) <==>
          (s.edge1.Some? && Fresh(s, s.edge1.value)) || (s.edge2.Some? && Fresh(s, s.edge2.value)))
  }

  /** By role: the success, the error and the edge of these slots, each at most once, in this order. */
  predicate ByRole(s: Slots, picks: seq<Pick>) {
    && (forall p :: p in picks && p.role == Happy ==> s.happy == Some(p.rec))
    && (forall p :: p in picks && p.role == Error ==> s.error == Some(p.rec))
    && (forall p :: p in picks && p.role == Edge ==> s.edge1 == Some(p.rec) || s.edge2 == Some(p.rec))
    && (s.happy.Some? ==> Pick(Happy, s.happy.value) in picks) && (s.error.Some? ==> Pick(Error, s.error.value) in picks)
    && (forall i, j :: 0 <= i < j < |picks| ==> picks[i].role != picks[j].role && picks[i].role != Edge && picks[j].role != Happy)
  }

  lemma EdgeIsFirstFresh(s: Slots)
    ensures EdgeFresh(s, Picks(s))
  {
    var picks := Picks(s);
    forall p | p in Chosen(s) ensures p.role != Edge {}
    if |picks| > |Chosen(s)| { assert picks[|picks| - 1] in picks && picks[|picks| - 1].role == Edge; }
  }

  /** What the slots of one tool hold, from the records offered. */
  lemma SlotsOf(c: Candidates)
    requires c.Valid()
    ensures c.error.Some? ==> c.error.value.isError && c.error.value in c.offered
    ensures c.happy.Some? ==> !c.happy.value.isError && c.happy.value in c.offered
    ensures c.happy.Some? ==> forall r :: r in c.offered && !r.isError ==> r.params <= c.happy.value.params
    ensures c.edge1.Some? ==> forall r :: r in c.offered ==> r.size <= c.edge1.value.size
  {
    var e, h, i, k := SlotsAre(c.offered, |c.offered|);
  }

  lemma PicksByRole(s: Slots)
    ensures ByRole(s, Picks(s))
  {
    var picks := Picks(s);
    if s.happy.Some? { assert picks[0] == Pick(Happy, s.happy.value); }
    if s.error.Some? { assert picks[if s.happy.Some? then 1 else 0] == Pick(Error, s.error.value); }
  }

  /** From the records to the fixtures: a success fixture is the earliest success with the most
      parameters, an error fixture the first error, and each is there if any call qualifies. */
  lemma FixturesAre(recs: seq<Rec>)
    ensures var picks, n := Picks(SlotsAfter(recs, |recs|)), |recs|;
            && (forall p :: p in picks && p.role == Happy ==> exists h: nat :: Happiest(recs, n, h) && p.rec == recs[h])
            && (forall p :: p in picks && p.role == Error ==> exists e: nat :: FirstError(recs, n, e) && p.rec == recs[e])
            && (forall p :: p in picks && p.role == Edge ==> p.rec in recs)
            && ((exists p :: p in picks && p.role == Happy) <==> exists j :: 0 <= j < n && !recs[j].isError)
            && ((exists p :: p in picks && p.role == Error) <==> exists j :: 0 <= j < n && recs[j].isError)
  {
    hide Picks, FirstError, Happiest, Largest, SlotsAfter;
    var s := SlotsAfter(recs, |recs|);
    var e, h, i, k := SlotsAre(recs, |recs|);
    PicksByRole(s);
    LargestIsThere(recs, i, k);
  }

  lemma LargestIsThere(recs: seq<Rec>, i: nat, k: nat)
    ensures Largest(recs, |recs|, -1, i) ==> i < |recs|
    ensures Largest(recs, |recs|, i, k) ==> k < |recs|
  {
  }

  predicate DistinctIds(recs: seq<Rec>) { forall i, j :: 0 <= i < j < |recs| ==> recs[i].id != recs[j].id }

  lemma LargestIsUnique(recs: seq<Rec>, n: nat, but: int, i: nat, j: nat)
    requires n <= |recs| && Largest(recs, n, but, i) && Largest(recs, n, but, j)
    ensures i == j
  {
    assert recs[i].size <= recs[j].size && recs[j].size <= recs[i].size;
  }

  /** There is an edge fixture exactly unless every one of the two largest calls is chosen already. */
  lemma NoEdgeIff(recs: seq<Rec>)
    ensures var s, n := SlotsAfter(recs, |recs|), |recs|;
            |Picks(s)| == |Chosen(s)| <==>
              && (forall i: nat :: Largest(recs, n, -1, i) ==> Used(s, recs[i].id))
              && (forall i: nat, k: nat :: Largest(recs, n, -1, i) && Largest(recs, n, i, k) ==> Used(s, recs[k].id))
  {
    hide SlotsAfter, FirstError, Happiest, Chosen, Used;
    var s, n := SlotsAfter(recs, |recs|), |recs|;
    var i, k := EdgeSlotsAre(recs, n);
    forall i': nat | Largest(recs, n, -1, i') && n > 0 ensures i' == i { LargestIsUnique(recs, n, -1, i', i); }
    forall k': nat | Largest(recs, n, i, k') && n > 1 ensures k' == k { LargestIsUnique(recs, n, i, k', k); }
  }

  /** With distinct call ids, the edge fixture is the largest call not chosen already, and
      any recorded call gives some fixture. */
  lemma EdgeIsLargestUnused(recs: seq<Rec>)
    requires DistinctIds(recs)
    ensures var s := SlotsAfter(recs, |recs|);
            var picks := Picks(s);
            && (|picks| > |Chosen(s)| ==>
                  && picks[|picks| - 1].rec in recs && !Used(s, picks[|picks| - 1].rec.id)
                  && forall j :: 0 <= j < |recs| && !Used(s, recs[j].id) ==> recs[j].size <= picks[|picks| - 1].rec.size)
            && (recs != [] ==> picks != [])
  {
    hide SlotsAfter, FirstError, Happiest;
    var e, h, i, k := SlotsAre(recs, |recs|);
  }
}
