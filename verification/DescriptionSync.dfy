/** Three-way synchronisation of ONE repository description between the local
    `.polyforge.yaml` and the server, and the properties of every run of it.

    `init` reads the recorded baseline, the local text and the server text,
    decides a direction, may PATCH the server, and then rewrites the local file.
    The PATCH can fail, can be applied without its acknowledgement arriving, and
    the process can die before or after it. */
module DescriptionSync {

  datatype Direction = InSync | Push | Pull | Conflict

  function ReconcileDescription(baseline: string, local: string, server: string): Direction {
    if local == server then InSync
    else if local == baseline then Pull
    else if server == baseline then Push
    else Conflict
  }

  datatype Decision = Decision(repo: string, direction: Direction, baseline: string, local: string, server: string)

  datatype LocalRepoDesc = LocalRepoDesc(description: string, baseline: string)

  // What the local file records for a decided repo, given whether the PATCH was acknowledged.
  function LocalViewOf(d: Decision, patchOK: bool): LocalRepoDesc {
    match d.direction
    case Pull => LocalRepoDesc(d.server, d.server)
    case Push => if patchOK then LocalRepoDesc(d.local, d.local) else LocalRepoDesc(d.local, d.baseline)
    case Conflict => LocalRepoDesc(d.local, d.baseline)
    case InSync => LocalRepoDesc(d.local, d.local)
  }

  /** How one run of init fares. `AckLost`: the server applied the PATCH but init
      was told it failed. The two `Died` outcomes never write the local file. */
  datatype Outcome = Clean | PatchFailed | AckLost | DiedBeforePatch | DiedAfterPatch {
    predicate Applied() { Clean? || AckLost? || DiedAfterPatch? }
    predicate Acknowledged() { Clean? || DiedAfterPatch? }
    predicate FileWritten() { Clean? || PatchFailed? || AckLost? }
  }

  datatype Repo = Repo(baseline: string, local: string, server: string) {
    function Decide(name: string): Decision {
      Decision(name, ReconcileDescription(baseline, local, server), baseline, local, server)
    }
    predicate Settled() { baseline == local == server }
    predicate InConflict() { ReconcileDescription(baseline, local, server) == Conflict }
  }

  datatype Event = EditLocal(text: string) | EditServer(text: string) | RunInit(outcome: Outcome)

  function InitStep(r: Repo, o: Outcome): Repo {
    var d := r.Decide("");
    var server' := if d.direction == Push && o.Applied() then r.local else r.server;
    var view := LocalViewOf(d, d.direction != Push || o.Acknowledged());
    if o.FileWritten() then Repo(view.baseline, view.description, server')
    else Repo(r.baseline, r.local, server')
  }

  function Step(r: Repo, e: Event): Repo {
    match e
    case EditLocal(text) => r.(local := text)
    case EditServer(text) => r.(server := text)
    case RunInit(o) => InitStep(r, o)
  }

  function Run(r: Repo, es: seq<Event>): Repo {
    if es == [] then r else Step(Run(r, es[..|es| - 1]), es[|es| - 1])
  }

  predicate IsInit(e: Event) { e.RunInit? }

  // The regime in which a PATCH either works or visibly does not, and init finishes.
  predicate VisibleInits(es: seq<Event>) {
    forall i :: 0 <= i < |es| ==> IsInit(es[i]) ==> es[i].outcome == Clean || es[i].outcome == PatchFailed
  }

  predicate OnlyInits(es: seq<Event>) { forall i :: 0 <= i < |es| ==> IsInit(es[i]) }

  /** The value that the most recent init to leave both sides equal left on them;
      the initial baseline when there has been none. Defined from the history
      alone: it never looks at a recorded baseline other than the initial one. */
  function LastAgreed(r: Repo, es: seq<Event>): string {
    if es == [] then r.baseline
    else
      var now := Run(r, es);
      if IsInit(es[|es| - 1]) && now.local == now.server then now.local
      else LastAgreed(r, es[..|es| - 1])
  }

  // ---------------------------------------------------------------- one step

  /** Whatever the outcome, init overwrites a side only with the other side's
      text, and only when the overwritten text is the recorded baseline. */
  lemma OverwritesOnlyTheBaseline(r: Repo, o: Outcome)
    ensures var r' := InitStep(r, o);
            && (r'.local != r.local ==> r.local == r.baseline && r'.local == r.server && r'.server == r.server)
            && (r'.server != r.server ==> r.server == r.baseline && r'.server == r.local && r'.local == r.local)
  {
  }

  // ---------------------------------------------------------------- all runs, visible outcomes

  /** The recorded baseline is, at every point of every run, exactly the text both
      sides held when an init last finished with the two in agreement. */
  lemma {:induction false} BaselineIsLastAgreed(r: Repo, es: seq<Event>)
    requires VisibleInits(es)
    ensures Run(r, es).baseline == LastAgreed(r, es)
  {
    hide InitStep;
    if es != [] {
      var before := es[..|es| - 1];
      assert forall i :: 0 <= i < |before| ==> before[i] == es[i];
      BaselineIsLastAgreed(r, before);
      if IsInit(es[|es| - 1]) { AgreedAfterInit(Run(r, before), es[|es| - 1].outcome); }
    }
  }

  // After an init of that regime the baseline is the agreed text, or what it was.
  lemma AgreedAfterInit(r: Repo, o: Outcome)
    requires o == Clean || o == PatchFailed
    ensures var now := InitStep(r, o);
            now.baseline == if now.local == now.server then now.local else r.baseline
  {
  }

  /** No lost edit: in every run, when an init changes a side, that side still
      held the text last agreed on, so no edit made to it since is discarded. */
  lemma {:induction false} NoEditIsLost(r: Repo, es: seq<Event>, o: Outcome)
    requires VisibleInits(es) && (o == Clean || o == PatchFailed)
    ensures var before, after := Run(r, es), Run(r, es + [RunInit(o)]);
            && (after.local != before.local ==> before.local == LastAgreed(r, es) && after.local == before.server)
            && (after.server != before.server ==> before.server == LastAgreed(r, es) && after.server == before.local)
  {
    BaselineIsLastAgreed(r, es);
    assert (es + [RunInit(o)])[..|es|] == es;
    OverwritesOnlyTheBaseline(Run(r, es), o);
  }

  /** Both sides were changed, to different texts: any number of inits, with any
      outcomes at all, keeps both texts and the baseline. */
  lemma {:induction false} ConflictStays(r: Repo, es: seq<Event>)
    requires r.local != r.server && r.local != r.baseline && r.server != r.baseline
    requires OnlyInits(es)
    ensures Run(r, es) == r
  {
    if es != [] {
      assert IsInit(es[|es| - 1]);
      ConflictStays(r, es[..|es| - 1]);
    }
  }

  /** ... and if it is stable under one clean init without being settled, it was such a conflict. */
  lemma StuckMeansConflict(r: Repo)
    ensures InitStep(r, Clean) == r <==> r.Settled() || r.InConflict()
  {
  }

  predicate EditsLocalOnly(es: seq<Event>) {
    forall i :: 0 <= i < |es| ==> !es[i].EditServer?
  }

  predicate EditsServerOnly(es: seq<Event>) {
    forall i :: 0 <= i < |es| ==> !es[i].EditLocal?
  }

  /** Publishing: from a settled repo, any run in which only the local side is
      edited ends, after one clean init, with the local text everywhere. */
  lemma {:induction false} LocalEditsArePublished(r: Repo, es: seq<Event>)
    requires r.Settled() && VisibleInits(es) && EditsLocalOnly(es)
    ensures var s := Run(r, es);
            && s.server == s.baseline
            && InitStep(s, Clean) == Repo(s.local, s.local, s.local)
  {
    if es != [] {
      var before := es[..|es| - 1];
      assert forall i :: 0 <= i < |before| ==> before[i] == es[i];
      LocalEditsArePublished(r, before);
      assert !es[|es| - 1].EditServer?;
    }
  }

  /** Adopting: the same the other way round. This direction holds whatever the
      outcomes are, because a pull sends no PATCH. */
  lemma {:induction false} ServerEditsAreAdopted(r: Repo, es: seq<Event>)
    requires r.Settled() && EditsServerOnly(es)
    ensures var s := Run(r, es);
            && s.local == s.baseline
            && InitStep(s, Clean) == Repo(s.server, s.server, s.server)
  {
    if es != [] {
      var before := es[..|es| - 1];
      assert forall i :: 0 <= i < |before| ==> before[i] == es[i];
      ServerEditsAreAdopted(r, before);
      assert !es[|es| - 1].EditLocal?;
    }
  }

  /** The three remedies the conflict report prints: take the server's text, delete both
      local fields, or record the server's text as the baseline. Each leaves any conflict
      settled after one clean init, on the server's text or on the local one. */
  lemma RemediesSettleConflicts(r: Repo)
    requires r.InConflict()
    ensures InitStep(r.(local := r.server), Clean) == Repo(r.server, r.server, r.server)
    ensures InitStep(r.(local := "", baseline := ""), Clean) == Repo(r.server, r.server, r.server)
    ensures InitStep(r.(baseline := r.server), Clean) == Repo(r.local, r.local, r.local)
  {
  }

  // ---------------------------------------------------------------- the last instant of equality

  // The text the two sides last held together, at whatever point of the run; the initial baseline if never.
  function LastEqual(r: Repo, es: seq<Event>): string {
    var now := Run(r, es);
    if now.local == now.server then now.local
    else if es == [] then r.baseline
    else LastEqual(r, es[..|es| - 1])
  }

  // The last point at which the two sides were equal, or -1.
  function LastEqualAt(r: Repo, es: seq<Event>): (k: int)
    ensures -1 <= k <= |es|
    ensures k >= 0 ==> Run(r, es[..k]).local == Run(r, es[..k]).server
  {
    var now := Run(r, es);
    if now.local == now.server then
      assert es[..|es|] == es;
      |es|
    else if es == [] then -1
    else
      assert forall k :: 0 <= k <= |es| - 1 ==> es[..|es| - 1][..k] == es[..k];
      LastEqualAt(r, es[..|es| - 1])
  }

  /** The recorded baseline is the text both sides last held together exactly when they
      were settled at that last instant: an init had seen them agree, or they agreed on
      the baseline itself. */
  lemma {:induction false} BaselineIsLastEqualIff(r: Repo, es: seq<Event>)
    requires VisibleInits(es)
    ensures Run(r, es).baseline == LastEqual(r, es)
            <==> LastEqualAt(r, es) < 0 || Run(r, es[..LastEqualAt(r, es)]).Settled()
  {
    var now := Run(r, es);
    if now.local == now.server {
      assert es[..|es|] == es;
    } else if es != [] {
      var before := es[..|es| - 1];
      assert forall i :: 0 <= i < |before| ==> before[i] == es[i];
      assert forall k :: 0 <= k <= |before| ==> before[..k] == es[..k];
      BaselineIsLastEqualIff(r, before);
    }
  }

  /** An instant no init saw: both sides are edited to the same text and the server goes on.
      The baseline stays, and the next init reports a conflict instead of adopting the edit. */
  lemma UnseenAgreement(r: Repo, same: string, later: string)
    requires r.Settled() && same != r.baseline && later != r.baseline && later != same
    ensures var es := [EditLocal(same), EditServer(same), EditServer(later)];
            && Run(r, es[..2]).local == Run(r, es[..2]).server == same && LastEqual(r, es) == same
            && Run(r, es).baseline == r.baseline && Run(r, es).InConflict()
  {
    var es := [EditLocal(same), EditServer(same), EditServer(later)];
    assert es[..2] == [EditLocal(same), EditServer(same)];
    UnfoldTwo(r, EditLocal(same), EditServer(same));
    assert Run(r, es) == Step(Run(r, es[..2]), EditServer(later));
  }

  // ---------------------------------------------------------------- crashes and lost acknowledgements

  predicate SomeClean(es: seq<Event>) { RunInit(Clean) in es }

  /** Convergence: from any state whatever, inits that fail in any way, one of
      them completing cleanly, reach agreement, or leave a conflict as it was. */
  lemma {:induction false} InitsConverge(r: Repo, es: seq<Event>)
    requires OnlyInits(es) && SomeClean(es)
    ensures if r.InConflict() then Run(r, es) == r else Run(r, es).Settled()
  {
    if r.InConflict() {
      ConflictStays(r, es);
    } else {
      var before, last := es[..|es| - 1], es[|es| - 1];
      assert IsInit(last);
      assert forall i :: 0 <= i < |before| ==> before[i] == es[i];
      InitsKeepConflictFree(r, before);
      if last != RunInit(Clean) {
        assert es == before + [last];
        InitsConverge(r, before);
      }
    }
  }

  // Agreement between the two sides cannot be turned into a conflict by inits alone.
  lemma {:induction false} InitsKeepConflictFree(r: Repo, es: seq<Event>)
    requires OnlyInits(es) && !r.InConflict()
    ensures !Run(r, es).InConflict()
  {
    if es != [] {
      assert IsInit(es[|es| - 1]);
      InitsKeepConflictFree(r, es[..|es| - 1]);
    }
  }

  /** The stale baseline. A push was applied but init does not know it; then the
      server is edited to `text`. That edit is overwritten by the next clean init
      exactly when it puts the old baseline back; any other edit is kept, as a
      conflict unless it repeats the local text. */
  lemma EditAfterLostAck(r: Repo, lost: Outcome, text: string)
    requires r.Decide("").direction == Push
    requires lost.Applied() && !lost.Clean?
    ensures var edited := Run(r, [RunInit(lost), EditServer(text)]);
            var after := InitStep(edited, Clean);
            && (after.server == text <==> text != r.baseline)
            && (text != r.baseline && text != r.local ==> edited.InConflict() && after == edited)
            && (text == r.local ==> after.Settled())
  {
    UnfoldTwo(r, RunInit(lost), EditServer(text));
  }

  /** After an acknowledged push the same edit is adopted, whatever it says. */
  lemma EditAfterAcknowledgedPush(r: Repo, text: string)
    requires r.Decide("").direction == Push
    ensures InitStep(Run(r, [RunInit(Clean), EditServer(text)]), Clean) == Repo(text, text, text)
  {
    UnfoldTwo(r, RunInit(Clean), EditServer(text));
  }

  /** A second cost of the lost acknowledgement, though nobody touches the server:
      the author's next local edit conflicts with their own push, and an edit that
      goes back to the old baseline is undone by the next clean init. */
  lemma OwnEditAfterLostAck(r: Repo, lost: Outcome, text: string)
    requires r.Decide("").direction == Push
    requires lost.Applied() && !lost.Clean?
    ensures var edited := Run(r, [RunInit(lost), EditLocal(text)]);
            && (edited.InConflict() <==> text != r.local && text != r.baseline)
            && (InitStep(edited, Clean).local != text <==> text == r.baseline)
  {
    UnfoldTwo(r, RunInit(lost), EditLocal(text));
  }

  lemma UnfoldTwo(r: Repo, e0: Event, e1: Event)
    ensures Run(r, [e0, e1]) == Step(Step(r, e0), e1)
  {
    assert [e0, e1][..1] == [e0];
    assert [e0][..0] == [];
    assert Run(r, [e0]) == Step(Run(r, []), e0);
  }
}
