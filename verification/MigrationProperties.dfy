/** The migration under every crash schedule. */
module MigrationProperties {
  import opened Common
  import opened FtsIndex
  import opened Migration

  ghost predicate RightVectors(env: Env, vec: map<RowId, Vector>, rows: map<RowId, string>) {
    forall r :: r in vec ==> r in rows && vec[r] == env.embed(rows[r])
  }

  /** What holds of the database between runs. A step that was cut short may have
      left anything it does behind, so each table is described from the counter up. */
  ghost predicate Good(env: Env, db: Db) {
    var s := StepOf(db);
    && s <= 6
    && (db.vec.Some? ==> RightVectors(env, db.vec.value, db.rows))
    && (s >= 1 ==> db.vec.Some?)
    && (s >= 2 ==> db.vec.value.Keys == db.rows.Keys)
    && (s >= 3 ==> db.fts.Some? && db.triggers == ALL_TRIGGERS)
    && (s >= 4 ==> db.fts == Some(Build(env.tok, db.rows)))
    && (s >= 6 ==> !db.hasEmbedding)
  }

  // A database the migration has never run on.
  predicate Fresh(db: Db) {
    db.vec.None? && db.fts.None? && db.triggers == Triggers(false, false, false) && db.step.None?
  }

  // The one final state.
  ghost function Migrated(env: Env, rows: map<RowId, string>): Db {
    Db(rows, false, Some(map r | r in rows :: env.embed(rows[r])), Some(Build(env.tok, rows)), ALL_TRIGGERS, Some(6))
  }

  lemma GoodAtSixIsMigrated(env: Env, db: Db)
    requires Good(env, db) && db.step == Some(6)
    ensures db == Migrated(env, db.rows)
  {
    assert db.vec.value == map r | r in db.rows :: env.embed(db.rows[r]);
  }

  // ---------------------------------------------------------------- one step, cut anywhere

  // The vectors v with some of the missing ones added, each the embedding of its row.
  ghost predicate Fills(env: Env, rows: map<RowId, string>, v: map<RowId, Vector>, v': map<RowId, Vector>) {
    && (forall r :: r in v ==> r in v' && v'[r] == v[r])
    && (forall r :: r in v' ==> r in v || (r in rows && v'[r] == env.embed(rows[r])))
  }

  lemma OneInsert(env: Env, db: Db, v: map<RowId, Vector>, r: RowId)
    requires db.vec.Some? && Fills(env, db.rows, v, db.vec.value) && r in db.rows
    ensures var out := Exec(env, db, InsertVec(r, env.embed(db.rows[r])));
            && out.Ok? && out.value.vec.Some? && out.value == db.(vec := out.value.vec)
            && Fills(env, db.rows, v, out.value.vec.value)
            && r in out.value.vec.value && (forall x :: x in db.vec.value ==> x in out.value.vec.value)
  {
  }

  // The vectors after the first n of the inserts for the first m rows of a scan.
  lemma {:induction false} SomeInserts(env: Env, db: Db, scan: seq<RowId>, m: nat, n: nat)
    requires m <= |scan| && forall r :: r in scan ==> r in db.rows
    requires db.vec.Some? && n <= |MissingVectors(env, db, scan, m)|
    ensures var ss := MissingVectors(env, db, scan, m);
            var out := ExecFirst(env, db, ss, n);
            && out.Ok? && out.value.vec.Some? && out.value == db.(vec := out.value.vec)
            && Fills(env, db.rows, db.vec.value, out.value.vec.value)
            && (n == |ss| ==> forall i :: 0 <= i < m ==> scan[i] in out.value.vec.value)
  {
    hide Exec;
    if m > 0 {
      var ss, earlier := MissingVectors(env, db, scan, m), MissingVectors(env, db, scan, m - 1);
      if n <= |earlier| {
        SomeInserts(env, db, scan, m - 1, n);
        ExecPrefix(env, db, earlier, ss[|earlier|..], n);
        assert earlier + ss[|earlier|..] == ss;
      } else {
        SomeInserts(env, db, scan, m - 1, |earlier|);
        Snoc(env, db, earlier, InsertVec(scan[m - 1], env.embed(db.rows[scan[m - 1]])));
        OneInsert(env, ExecAll(env, db, earlier).value, db.vec.value, scan[m - 1]);
      }
    }
  }

  // Step k may be entered: its predecessor is recorded and everything up to it is in place.
  ghost predicate Ready(env: Env, db: Db, k: nat, scan: seq<RowId>) {
    1 <= k <= 6 && Good(env, db) && db.step == Some(k - 1) && Scans(scan, db.rows)
  }

  // What the first n statements of step k lead to.
  ghost predicate Resumable(env: Env, db: Db, k: nat, ss: seq<Statement>, n: nat)
    requires n <= |ss|
  {
    var out := ExecFirst(env, db, ss, n);
    && out.Ok? && Good(env, out.value) && out.value.rows == db.rows && out.value.step == db.step
    && (n == |ss| ==> Good(env, out.value.(step := Some(k))))
  }

  lemma PartialStep2(env: Env, db: Db, scan: seq<RowId>, n: nat)
    requires Ready(env, db, 2, scan) && n <= |MissingVectors(env, db, scan, |scan|)|
    ensures Resumable(env, db, 2, MissingVectors(env, db, scan, |scan|), n)
  {
    SomeInserts(env, db, scan, |scan|, n);
  }

  const STEP_THREE := [CreateFts, CreateTrigger(AfterInsert), CreateTrigger(AfterUpdate), CreateTrigger(AfterDelete)]

  // The first n statements of step 3 touch the index and the triggers only.
  lemma ThreeTouches(env: Env, db: Db, n: nat)
    requires n <= 4
    ensures var out := ExecFirst(env, db, STEP_THREE, n);
            && out.Ok? && out.value == db.(fts := out.value.fts, triggers := out.value.triggers)
            && (n == 4 ==> out.value.fts.Some? && out.value.triggers == ALL_TRIGGERS)
  {
    Unfold(env, db, STEP_THREE, n);
  }

  lemma PartialStep3(env: Env, db: Db, scan: seq<RowId>, n: nat)
    requires Ready(env, db, 3, scan) && n <= 4
    ensures Resumable(env, db, 3, STEP_THREE, n)
  {
    hide ExecFirst, Build, RightVectors, Scans;
    ThreeTouches(env, db, n);
  }

  lemma PartialStep5(env: Env, db: Db, scan: seq<RowId>, n: nat)
    requires Ready(env, db, 5, scan) && n <= 2
    ensures CheckStatements(env, db) == [CheckFts, CheckVec]
    ensures Resumable(env, db, 5, [CheckFts, CheckVec], n)
  {
    assert db.fts.value == Build(env.tok, db.rows);
    assert Exec(env, db, CheckFts) == Ok(db) && Exec(env, db, CheckVec) == Ok(db);
    Unfold(env, db, [CheckFts, CheckVec], n);
  }

  lemma PartialSingle(env: Env, db: Db, k: nat, scan: seq<RowId>, n: nat)
    requires Ready(env, db, k, scan) && k in {1, 4, 6} && n <= |StepWork(env, db, k, scan)|
    ensures Resumable(env, db, k, StepWork(env, db, k, scan), n)
  {
    Unfold(env, db, StepWork(env, db, k, scan), n);
  }

  // Any prefix of a step's work, from a good state one step below, is again a good state at the same counter.
  lemma PartialWork(env: Env, db: Db, k: nat, scan: seq<RowId>, n: nat)
    requires Ready(env, db, k, scan) && n <= |StepWork(env, db, k, scan)|
    ensures Resumable(env, db, k, StepWork(env, db, k, scan), n)
  {
    match k
    case 2 => PartialStep2(env, db, scan, n);
    case 3 => PartialStep3(env, db, scan, n);
    case 5 => PartialStep5(env, db, scan, 0); PartialStep5(env, db, scan, n);
    case _ => PartialSingle(env, db, k, scan, n);
  }

  lemma WholeStep(env: Env, db: Db, k: nat, scan: seq<RowId>)
    requires Ready(env, db, k, scan)
    ensures var out := ExecAll(env, db, StepStatements(env, db, k, scan));
            out.Ok? && Good(env, out.value) && out.value.rows == db.rows && out.value.step == Some(k)
  {
    var work := StepWork(env, db, k, scan);
    PartialWork(env, db, k, scan, |work|);
    Snoc(env, db, work, Advance(k));
  }

  // What a run from `db` comes to.
  ghost predicate Ends(env: Env, db: Db, out: Result<Db, Failure>, completes: bool) {
    && out.Ok? && Good(env, out.value) && out.value.rows == db.rows
    && out.value.step.Some? && StepOf(db) <= StepOf(out.value)
    && (completes ==> out.value.step == Some(6))
  }

  lemma EnterGood(env: Env, db: Db, current: nat, k: nat, a: Attempt)
    requires Ready(env, db, k, a.scan) && current < k
    ensures match Enter(env, db, current, k, a)
            case Going(db') => Ends(env, db, Ok(db'), false) && db'.step == Some(k)
            case Stopped(out) => a.Dies? && Ends(env, db, out, false)
  {
    var ss := StepStatements(env, db, k, a.scan);
    if a.Dies? && a.at == k && a.kept < |ss| {
      ExecPrefix(env, db, StepWork(env, db, k, a.scan), [Advance(k)], a.kept);
      PartialWork(env, db, k, a.scan, a.kept);
    } else {
      WholeStep(env, db, k, a.scan);
    }
  }

  lemma {:induction false} RunStepsGood(env: Env, db: Db, current: nat, k: nat, a: Attempt)
    requires 1 <= k <= 7 && current <= 6 && Scans(a.scan, db.rows) && Good(env, db)
    requires db.step == Some(if current >= k then current else k - 1)
    ensures Ends(env, db, RunSteps(env, db, current, k, a), a.Completes?)
    decreases 7 - k
  {
    hide StepStatements, ExecFirst, ExecAll;
    if k == 7 {
    } else if current >= k {
      RunStepsGood(env, db, current, k + 1, a);
    } else {
      EnterGood(env, db, current, k, a);
      var p := Enter(env, db, current, k, a);
      if p.Going? {
        RunStepsGood(env, p.db, current, k + 1, a);
      }
      RestOfRun(env, db, current, k, a, p);
    }
  }

  lemma RestOfRun(env: Env, db: Db, current: nat, k: nat, a: Attempt, p: Progress)
    requires 1 <= k <= 6 && Scans(a.scan, db.rows) && p == Enter(env, db, current, k, a)
    requires match p
             case Going(next) => Ends(env, db, Ok(next), false) && Ends(env, next, RunSteps(env, next, current, k + 1, a), a.Completes?)
             case Stopped(out) => a.Dies? && Ends(env, db, out, false)
    ensures Ends(env, db, RunSteps(env, db, current, k, a), a.Completes?)
  {
  }

  /** One run, however it ends, raises nothing, keeps the invariant and the rows,
      and never lowers the counter; a run that completes reaches the final state. */
  lemma RunGood(env: Env, db: Db, a: Attempt)
    requires Good(env, db) && Scans(a.scan, db.rows)
    ensures var out := Run(env, db, a);
            && out.Ok? && Good(env, out.value) && out.value.rows == db.rows
            && StepOf(db) <= StepOf(out.value)
            && (a.Completes? ==> out.value == Migrated(env, db.rows))
  {
    if !(a.Dies? && a.at == 0) {
      var started := if db.step.None? then db.(step := Some(0)) else db;
      RunStepsGood(env, started, StepOf(started), 1, a);
      if a.Completes? { GoodAtSixIsMigrated(env, Run(env, db, a).value); }
    }
  }

  // ---------------------------------------------------------------- schedules

  ghost function RunAll(env: Env, db: Db, attempts: seq<Attempt>): (out: Result<Db, Failure>)
    requires forall a :: a in attempts ==> Scans(a.scan, db.rows)
    ensures out.Ok? ==> out.value.rows == db.rows
  {
    if attempts == [] then Ok(db)
    else
      var last := attempts[|attempts| - 1];
      assert last in attempts;
      match RunAll(env, db, attempts[..|attempts| - 1])
      case Ok(db') => Run(env, db', last)
      case Err(f) => Err(f)
  }

  lemma {:induction false} ScheduleGood(env: Env, db: Db, attempts: seq<Attempt>)
    requires Good(env, db) && forall a :: a in attempts ==> Scans(a.scan, db.rows)
    ensures RunAll(env, db, attempts).Ok? && Good(env, RunAll(env, db, attempts).value)
    ensures StepOf(db) <= StepOf(RunAll(env, db, attempts).value)
  {
    if attempts != [] {
      var before := attempts[..|attempts| - 1];
      assert forall a :: a in before ==> a in attempts;
      ScheduleGood(env, db, before);
      RunGood(env, RunAll(env, db, before).value, attempts[|attempts| - 1]);
    }
  }

  /** Crash safety. Whatever runs were cut short, and wherever, the first run that
      completes ends in the very state one uninterrupted run would have produced:
      a vector with the right embedding for exactly the rows of memories, an index
      equal to a rebuild, all triggers, no embedding column, counter 6. */
  lemma EveryScheduleMigrates(env: Env, db: Db, attempts: seq<Attempt>, scan: seq<RowId>, scan': seq<RowId>)
    requires Fresh(db)
    requires forall a :: a in attempts ==> Scans(a.scan, db.rows)
    requires Scans(scan, db.rows) && Scans(scan', db.rows)
    ensures var whole := attempts + [Completes(scan)];
            && (forall a :: a in whole ==> Scans(a.scan, db.rows))
            && RunAll(env, db, whole) == Ok(Migrated(env, db.rows))
            && Run(env, db, Completes(scan')) == Ok(Migrated(env, db.rows))
  {
    var whole := attempts + [Completes(scan)];
    assert whole[..|attempts|] == attempts;
    ScheduleGood(env, db, attempts);
    RunGood(env, RunAll(env, db, attempts).value, Completes(scan));
    RunGood(env, db, Completes(scan'));
  }

  /** A finished migration is left alone by every later start. */
  lemma MigratedStaysMigrated(env: Env, db: Db, a: Attempt)
    requires Good(env, db) && db.step == Some(6) && Scans(a.scan, db.rows)
    ensures Run(env, db, a) == Ok(db)
  {
    SkipTo(env, db, 6, 1, a);
  }

  // ---------------------------------------------------------------- the hypothesis that memories are not written

  // A database in the middle of its migration, step 2 possibly cut short, whose rows may have
  // been written since the vectors were.
  predicate Halfway(db: Db) {
    && db.step.Some? && 1 <= db.step.value <= 4
    && db.vec.Some?
    && (db.step.value >= 3 ==> db.fts.Some? && db.triggers == ALL_TRIGGERS)
  }

  // No vector is an orphan and, once step 2 is over, no row lacks one.
  predicate Covered(db: Db)
    requires Halfway(db)
  {
    db.vec.value.Keys <= db.rows.Keys && (db.step.value >= 2 ==> db.rows.Keys <= db.vec.value.Keys)
  }

  // What step 2 has made of the vectors when it is over.
  ghost function Filled(env: Env, db: Db): map<RowId, Vector>
    requires Halfway(db)
  {
    if db.step.value >= 2 then db.vec.value
    else map r | r in db.vec.value.Keys + db.rows.Keys :: if r in db.vec.value then db.vec.value[r] else env.embed(db.rows[r])
  }

  /** A run from there completes exactly when no vector has lost its row and, once step 2 is
      over, every row has one; it raises the integrity failure otherwise. */
  lemma HalfwayCompletesIff(env: Env, db: Db, scan: seq<RowId>)
    requires Halfway(db) && Scans(scan, db.rows)
    ensures Run(env, db, Completes(scan)).Ok? <==> Covered(db)
    ensures Run(env, db, Completes(scan)).Err? ==> Run(env, db, Completes(scan)) == Err(VecIntegrity)
  {
    hide RunSteps, Scans, Filled;
    if Covered(db) {
      RunFinishes(env, db, scan);
    } else {
      SkipTo(env, db, StepOf(db), 1, Completes(scan));
      Breaks(env, db, StepOf(db), StepOf(db) + 1, Completes(scan));
    }
  }

  lemma {:induction false} SkipTo(env: Env, db: Db, current: nat, k: nat, a: Attempt)
    requires 1 <= k <= current + 1 <= 7 && Scans(a.scan, db.rows)
    ensures RunSteps(env, db, current, k, a) == RunSteps(env, db, current, current + 1, a)
    decreases current + 1 - k
  {
    if k <= current { SkipTo(env, db, current, k + 1, a); }
  }

  // What the triggers keep while the migration is halfway: an index equal to a rebuild, once there was one.
  ghost predicate Kept(env: Env, db: Db) { StepOf(db) >= 4 ==> db.fts == Some(Build(env.tok, db.rows)) }

  /** It completes in the final state exactly when it completes and every vector is the
      embedding of what its row says now: a content update goes unnoticed, in the middle of
      step 2 or after it, and leaves a stale vector behind. */
  lemma HalfwayMigratesIff(env: Env, db: Db, scan: seq<RowId>)
    requires Halfway(db) && Kept(env, db) && Scans(scan, db.rows)
    ensures Run(env, db, Completes(scan)) == Ok(Migrated(env, db.rows))
            <==> Covered(db) && RightVectors(env, db.vec.value, db.rows)
  {
    hide Run, Build, Scans, Filled, Covered, RightVectors;
    HalfwayCompletesIff(env, db, scan);
    if Covered(db) {
      RunFinishes(env, db, scan);
      FilledIsRightIff(env, db);
    }
  }

  lemma FilledIsRightIff(env: Env, db: Db)
    requires Halfway(db) && Covered(db)
    ensures Filled(env, db) == (map r | r in db.rows :: env.embed(db.rows[r])) <==> RightVectors(env, db.vec.value, db.rows)
  {
    var all := map r | r in db.rows :: env.embed(db.rows[r]);
    FilledIs(env, db);
    if RightVectors(env, db.vec.value, db.rows) {
      assert Filled(env, db).Keys == all.Keys;
    }
    if Filled(env, db) == all {
      forall r | r in db.vec.value ensures db.vec.value[r] == all[r] { assert Filled(env, db)[r] == db.vec.value[r]; }
    }
  }

  lemma FilledIs(env: Env, db: Db)
    requires Halfway(db) && Covered(db)
    ensures Filled(env, db).Keys == db.rows.Keys && Fills(env, db.rows, db.vec.value, Filled(env, db))
  {
  }

  // A run from halfway that completes: the vectors as they are with the missing ones added, and a rebuilt index.
  lemma RunFinishes(env: Env, db: Db, scan: seq<RowId>)
    requires Halfway(db) && Covered(db) && Scans(scan, db.rows)
    ensures var out := Run(env, db, Completes(scan));
            && out.Ok? && out.value.fts.Some?
            && out.value == Db(db.rows, false, Some(Filled(env, db)), out.value.fts, ALL_TRIGGERS, Some(6))
            && (Kept(env, db) ==> out.value.fts == Some(Build(env.tok, db.rows)))
  {
    hide RunSteps, Build, Scans, StepStatements, ExecAll;
    var s, a := StepOf(db), Completes(scan);
    SkipTo(env, db, s, 1, a);
    FilledIs(env, db);
    if s == 1 {
      StepTwo(env, db, scan);
      var next := ExecAll(env, db, StepStatements(env, db, 2, scan)).value;
      EntersNext(env, db, 1, 2, a, next);
      Finish(env, next, 1, 3, scan);
    } else {
      Finish(env, db, s, s + 1, scan);
    }
  }

  lemma EntersNext(env: Env, db: Db, current: nat, k: nat, a: Attempt, next: Db)
    requires 1 <= k <= 6 && current < k && Scans(a.scan, db.rows) && a.Completes? && next.rows == db.rows
    requires ExecAll(env, db, StepStatements(env, db, k, a.scan)) == Ok(next)
    ensures RunSteps(env, db, current, k, a) == RunSteps(env, next, current, k + 1, a)
  {
    assert Enter(env, db, current, k, a) == Going(next);
  }

  // The stale vector, for any row that has one and any new text.
  lemma StaleVectorSurvives(env: Env, db: Db, scan: seq<RowId>, r: RowId, text: string)
    requires Halfway(db) && Covered(db) && r in db.vec.value && Scans(scan, db.rows[r := text])
    ensures var updated := db.(rows := db.rows[r := text]);
            var out := Run(env, updated, Completes(scan));
            out.Ok? && out.value.vec.Some? && r in out.value.vec.value && out.value.vec.value[r] == db.vec.value[r]
  {
    hide Run, Scans;
    var updated := db.(rows := db.rows[r := text]);
    assert updated.rows.Keys == db.rows.Keys;
    RunFinishes(env, updated, scan);
    FilledIs(env, updated);
  }

  /** Past step 5 nothing is looked at again: a run completes whatever was written since. */
  lemma CheckedIsFinished(env: Env, db: Db, scan: seq<RowId>)
    requires db.step == Some(5) && Scans(scan, db.rows)
    ensures Run(env, db, Completes(scan)) == Ok(db.(hasEmbedding := false, step := Some(6)))
  {
    hide StepStatements, ExecAll, Scans;
    var a, next := Completes(scan), db.(hasEmbedding := false, step := Some(6));
    SkipTo(env, db, 5, 1, a);
    StepSix(env, db, scan);
    EntersNext(env, db, 5, 6, a, next);
    assert RunSteps(env, next, 5, 7, a) == Ok(next);
  }

  // Step 2, uninterrupted.
  lemma StepTwo(env: Env, db: Db, scan: seq<RowId>)
    requires Scans(scan, db.rows) && Halfway(db) && db.step == Some(1)
    ensures ExecAll(env, db, StepStatements(env, db, 2, scan)) == Ok(db.(vec := Some(Filled(env, db)), step := Some(2)))
  {
    hide ExecFirst;
    var work := MissingVectors(env, db, scan, |scan|);
    SomeInserts(env, db, scan, |scan|, |work|);
    Snoc(env, db, work, Advance(2));
    var v := ExecAll(env, db, work).value.vec.value;
    AllFilled(env, db, scan, v);
  }

  lemma AllFilled(env: Env, db: Db, scan: seq<RowId>, v: map<RowId, Vector>)
    requires Scans(scan, db.rows) && Halfway(db) && db.step == Some(1)
    requires Fills(env, db.rows, db.vec.value, v) && forall i :: 0 <= i < |scan| ==> scan[i] in v
    ensures v == Filled(env, db)
  {
    forall r | r in db.rows ensures r in v { assert r in scan; }
    assert v.Keys == Filled(env, db).Keys;
  }

  // Steps 3 and 4, uninterrupted.
  lemma StepThree(env: Env, db: Db, scan: seq<RowId>)
    requires Scans(scan, db.rows)
    ensures ExecAll(env, db, StepStatements(env, db, 3, scan))
         == Ok(db.(fts := if db.fts.None? then Some(multiset{}) else db.fts, triggers := ALL_TRIGGERS, step := Some(3)))
  {
    var work := StepWork(env, db, 3, scan);
    Unfold(env, db, work, 4);
    Snoc(env, db, work, Advance(3));
  }

  lemma StepFour(env: Env, db: Db, scan: seq<RowId>)
    requires Scans(scan, db.rows) && db.fts.Some?
    ensures ExecAll(env, db, StepStatements(env, db, 4, scan)) == Ok(db.(fts := Some(Build(env.tok, db.rows)), step := Some(4)))
  {
    var work := StepWork(env, db, 4, scan);
    Unfold(env, db, work, 1);
    Snoc(env, db, work, Advance(4));
  }

  lemma StepFive(env: Env, db: Db, scan: seq<RowId>)
    requires Scans(scan, db.rows) && db.fts.Some? && db.vec.Some?
    ensures var out := ExecAll(env, db, StepStatements(env, db, 5, scan));
            if db.vec.value.Keys == db.rows.Keys
            then out == Ok(db.(fts := Some(if env.comparesContent then Build(env.tok, db.rows) else db.fts.value), step := Some(5)))
            else out == Err(VecIntegrity)
  {
    Snoc(env, db, CheckStatements(env, db), Advance(5));
    CheckRuns(env, db);
    if db.vec.value.Keys != db.rows.Keys { CheckFailure(env, db); }
  }

  lemma StepSix(env: Env, db: Db, scan: seq<RowId>)
    requires Scans(scan, db.rows)
    ensures ExecAll(env, db, StepStatements(env, db, 6, scan)) == Ok(db.(hasEmbedding := false, step := Some(6)))
  {
    var work := StepWork(env, db, 6, scan);
    Unfold(env, db, work, |work|);
    Snoc(env, db, work, Advance(6));
  }

  lemma CheckFailure(env: Env, db: Db)
    requires db.fts.Some? && db.vec.Some? && db.vec.value.Keys != db.rows.Keys
    ensures ExecAll(env, db, CheckStatements(env, db)) == Err(VecIntegrity)
  {
    Unfold(env, db, CheckStatements(env, db), |CheckStatements(env, db)|);
  }

  // From step k on, with the row ids covered: the tables as they are, and an index that is rebuilt unless it was there before.
  lemma {:induction false} Finish(env: Env, db: Db, current: nat, k: nat, scan: seq<RowId>)
    requires 3 <= k <= 5 && current < k && Scans(scan, db.rows)
    requires db.vec.Some? && db.vec.value.Keys == db.rows.Keys
    requires k >= 4 ==> db.fts.Some? && db.triggers == ALL_TRIGGERS
    ensures var out := RunSteps(env, db, current, k, Completes(scan));
            && out.Ok? && out.value.vec == db.vec && out.value.rows == db.rows && out.value.fts.Some?
            && out.value == Db(db.rows, false, db.vec, out.value.fts, ALL_TRIGGERS, Some(6))
            && (k <= 4 || db.fts.value == Build(env.tok, db.rows) ==> out.value.fts == Some(Build(env.tok, db.rows)))
    decreases 6 - k
  {
    hide StepStatements, ExecAll, Build;
    var a := Completes(scan);
    if k == 3 {
      StepThree(env, db, scan);
      var next := ExecAll(env, db, StepStatements(env, db, 3, scan)).value;
      assert Enter(env, db, current, 3, a) == Going(next);
      Finish(env, next, current, 4, scan);
    } else if k == 4 {
      StepFour(env, db, scan);
      var next := ExecAll(env, db, StepStatements(env, db, 4, scan)).value;
      assert Enter(env, db, current, 4, a) == Going(next);
      Finish(env, next, current, 5, scan);
    } else {
      StepFive(env, db, scan);
      var next := ExecAll(env, db, StepStatements(env, db, 5, scan)).value;
      assert Enter(env, db, current, 5, a) == Going(next);
      StepSix(env, next, scan);
      assert Enter(env, next, current, 6, a) == Going(next.(hasEmbedding := false, step := Some(6)));
      assert RunSteps(env, next, current, 6, a) == Ok(next.(hasEmbedding := false, step := Some(6)));
    }
  }

  // ---------------------------------------------------------------- the failure stays

  /** Between two runs: still halfway and not covered, the rows and the vectors there were
      untouched, and after step 2 no vector added. */
  predicate StillBroken(db: Db, db': Db) {
    && Halfway(db) && Halfway(db') && !Covered(db') && db'.rows == db.rows
    && (forall r :: r in db.vec.value ==> r in db'.vec.value && db'.vec.value[r] == db.vec.value[r])
    && (db.step.value >= 2 ==> db'.vec == db.vec) && db.step.value <= db'.step.value
  }

  lemma StillBrokenLater(db: Db, db': Db, db'': Db)
    requires StillBroken(db, db') && StillBroken(db', db'')
    ensures StillBroken(db, db'')
  {
  }

  // A vector without a row stays one, whatever step 2 adds.
  lemma OrphanStays(env: Env, db: Db, v: map<RowId, Vector>)
    requires Halfway(db) && db.step == Some(1) && !Covered(db) && Fills(env, db.rows, db.vec.value, v)
    ensures StillBroken(db, db.(vec := Some(v))) && StillBroken(db, db.(vec := Some(v), step := Some(2)))
  {
    var r :| r in db.vec.value && r !in db.rows;
    assert r in v;
  }

  // What the first n statements of step k leave, when they are cut short.
  lemma CutTwo(env: Env, db: Db, scan: seq<RowId>, n: nat)
    requires Scans(scan, db.rows) && Halfway(db) && db.step == Some(1) && !Covered(db)
    requires n <= |MissingVectors(env, db, scan, |scan|)|
    ensures var out := ExecFirst(env, db, StepStatements(env, db, 2, scan), n);
            out.Ok? && StillBroken(db, out.value)
  {
    hide ExecFirst, MissingVectors, Covered, StillBroken;
    var work := MissingVectors(env, db, scan, |scan|);
    ExecPrefix(env, db, work, [Advance(2)], n);
    SomeInserts(env, db, scan, |scan|, n);
    var out := ExecFirst(env, db, work, n).value;
    OrphanStays(env, db, out.vec.value);
  }

  lemma CutThree(env: Env, db: Db, scan: seq<RowId>, n: nat)
    requires Scans(scan, db.rows) && Halfway(db) && db.step == Some(2) && !Covered(db) && n <= 4
    ensures var out := ExecFirst(env, db, StepStatements(env, db, 3, scan), n);
            out.Ok? && StillBroken(db, out.value)
  {
    var work := StepWork(env, db, 3, scan);
    ExecPrefix(env, db, work, [Advance(3)], n);
    Unfold(env, db, work, n);
  }

  lemma CutFour(env: Env, db: Db, scan: seq<RowId>, n: nat)
    requires Scans(scan, db.rows) && Halfway(db) && db.step == Some(3) && !Covered(db) && n <= 1
    ensures var out := ExecFirst(env, db, StepStatements(env, db, 4, scan), n);
            out.Ok? && StillBroken(db, out.value)
  {
    var work := StepWork(env, db, 4, scan);
    ExecPrefix(env, db, work, [Advance(4)], n);
    Unfold(env, db, work, n);
  }

  // The first n checks touch the index only, and fail on the vectors alone.
  lemma CheckTouches(env: Env, db: Db, n: nat)
    requires db.fts.Some? && db.vec.Some? && db.vec.value.Keys != db.rows.Keys && n <= |CheckStatements(env, db)|
    ensures var out := ExecFirst(env, db, CheckStatements(env, db), n);
            if out.Ok? then out.value == db.(fts := out.value.fts) && out.value.fts.Some? else out == Err(VecIntegrity)
  {
    hide Build, ExecFirst;
    Unfold(env, db, CheckStatements(env, db), n);
  }

  lemma OtherIndexStillBroken(db: Db, fts: Option<Index>)
    requires Halfway(db) && db.step == Some(4) && !Covered(db) && fts.Some?
    ensures StillBroken(db, db.(fts := fts)) && db.vec.value.Keys != db.rows.Keys
  {
  }

  lemma CutFive(env: Env, db: Db, scan: seq<RowId>, n: nat)
    requires Scans(scan, db.rows) && Halfway(db) && db.step == Some(4) && !Covered(db)
    requires n <= |CheckStatements(env, db)|
    ensures var out := ExecFirst(env, db, StepStatements(env, db, 5, scan), n);
            if out.Ok? then StillBroken(db, out.value) else out == Err(VecIntegrity)
  {
    hide ExecFirst, CheckStatements, Covered, StillBroken, Scans;
    ExecPrefix(env, db, CheckStatements(env, db), [Advance(5)], n);
    OtherIndexStillBroken(db, db.fts);
    CheckTouches(env, db, n);
    var out := ExecFirst(env, db, CheckStatements(env, db), n);
    if out.Ok? { OtherIndexStillBroken(db, out.value.fts); }
  }

  lemma Cut(env: Env, db: Db, k: nat, scan: seq<RowId>, n: nat)
    requires 2 <= k <= 5 && Scans(scan, db.rows) && Halfway(db) && db.step == Some(k - 1) && !Covered(db)
    requires n < |StepStatements(env, db, k, scan)|
    ensures var out := ExecFirst(env, db, StepStatements(env, db, k, scan), n);
            if out.Ok? then StillBroken(db, out.value) else out == Err(VecIntegrity)
  {
    match k
    case 2 => CutTwo(env, db, scan, n);
    case 3 => CutThree(env, db, scan, n);
    case 4 => CutFour(env, db, scan, n);
    case _ => CutFive(env, db, scan, n);
  }

  // One whole step below step 5.
  lemma WholeBrokenStep(env: Env, db: Db, k: nat, scan: seq<RowId>) returns (next: Db)
    requires 2 <= k <= 4 && Scans(scan, db.rows) && Halfway(db) && db.step == Some(k - 1) && !Covered(db)
    ensures ExecAll(env, db, StepStatements(env, db, k, scan)) == Ok(next) && next.step == Some(k)
    ensures StillBroken(db, next)
  {
    hide ExecAll, StepStatements, Build;
    match k {
      case 2 => StepTwo(env, db, scan); FilledFills(env, db); OrphanStays(env, db, Filled(env, db));
      case 3 => StepThree(env, db, scan);
      case _ => StepFour(env, db, scan);
    }
    next := ExecAll(env, db, StepStatements(env, db, k, scan)).value;
  }

  lemma FilledFills(env: Env, db: Db)
    requires Halfway(db)
    ensures Fills(env, db.rows, db.vec.value, Filled(env, db))
  {
  }

  // A run from step k on, not covered: it raises, or it is cut and is still not covered.
  lemma {:induction false} Breaks(env: Env, db: Db, current: nat, k: nat, a: Attempt)
    requires 2 <= k <= 5 && current < k && Scans(a.scan, db.rows)
    requires Halfway(db) && db.step == Some(k - 1) && !Covered(db)
    ensures var out := RunSteps(env, db, current, k, a);
            if out.Ok? then a.Dies? && StillBroken(db, out.value) else out == Err(VecIntegrity)
    decreases 6 - k
  {
    hide StepStatements, ExecAll, ExecFirst, Build, Covered, StillBroken;
    var ss := StepStatements(env, db, k, a.scan);
    if a.Dies? && a.at == k && a.kept < |ss| {
      Cut(env, db, k, a.scan, a.kept);
    } else if k == 5 {
      StepFive(env, db, a.scan);
      NotCoveredThen(db);
    } else {
      var next := WholeBrokenStep(env, db, k, a.scan);
      BrokenIs(db, next);
      assert Enter(env, db, current, k, a) == Going(next);
      Breaks(env, next, current, k + 1, a);
      var out := RunSteps(env, next, current, k + 1, a);
      if out.Ok? { StillBrokenLater(db, next, out.value); }
    }
  }

  lemma NotCoveredThen(db: Db)
    requires Halfway(db) && db.step.value >= 2
    ensures Covered(db) <==> db.vec.value.Keys == db.rows.Keys
  {
  }

  lemma BrokenIs(db: Db, db': Db)
    requires StillBroken(db, db')
    ensures Halfway(db') && !Covered(db') && db'.rows == db.rows
  {
  }

  /** What a start may leave behind. One that is killed leaves what `Run` says; one that raises
      leaves whatever prefix of step 5 was durable by then. */
  ghost predicate Leaves(env: Env, db: Db, a: Attempt, db': Db) {
    && Scans(a.scan, db.rows)
    && (Run(env, db, a) == Ok(db')
        || (Run(env, db, a).Err? && exists kept: nat :: Run(env, db, Dies(a.scan, 5, kept)) == Ok(db')))
  }

  lemma OneMoreStart(env: Env, db: Db, a: Attempt, db': Db)
    requires Halfway(db) && !Covered(db) && Leaves(env, db, a, db')
    ensures StillBroken(db, db')
  {
    hide Covered, RunSteps, Scans;
    if Run(env, db, a) == Ok(db') {
      OneRunBreaks(env, db, a);
    } else {
      var kept: nat :| Run(env, db, Dies(a.scan, 5, kept)) == Ok(db');
      OneRunBreaks(env, db, Dies(a.scan, 5, kept));
    }
  }

  lemma OneRunBreaks(env: Env, db: Db, a: Attempt)
    requires Halfway(db) && !Covered(db) && Scans(a.scan, db.rows)
    ensures var out := Run(env, db, a);
            if out.Ok? then StillBroken(db, out.value) else out == Err(VecIntegrity)
  {
    hide Covered, RunSteps, Scans;
    if !(a.Dies? && a.at == 0) {
      SkipTo(env, db, StepOf(db), 1, a);
      Breaks(env, db, StepOf(db), StepOf(db) + 1, a);
    } else {
      assert StillBroken(db, db);
    }
  }

  /** The failure stays. After any number of starts, each killed anywhere or raising, with
      whatever of it durable, the next start that is not killed raises the integrity failure. */
  lemma {:induction false} FailurePersists(env: Env, states: seq<Db>, attempts: seq<Attempt>, scan: seq<RowId>)
    requires |states| == |attempts| + 1 && Halfway(states[0]) && !Covered(states[0]) && Scans(scan, states[0].rows)
    requires forall i :: 0 <= i < |attempts| ==> Leaves(env, states[i], attempts[i], states[i + 1])
    ensures var last := states[|attempts|];
            StillBroken(states[0], last) && Run(env, last, Completes(scan)) == Err(VecIntegrity)
    decreases |attempts|
  {
    hide Run, Covered, Scans, Leaves;
    var n := |attempts|;
    if n == 0 {
      assert StillBroken(states[0], states[0]);
    } else {
      FailurePersists(env, states[..n], attempts[..n - 1], scan);
      BrokenIs(states[0], states[n - 1]);
      assert Leaves(env, states[n - 1], attempts[n - 1], states[n]);
      OneMoreStart(env, states[n - 1], attempts[n - 1], states[n]);
      StillBrokenLater(states[0], states[n - 1], states[n]);
    }
    BrokenIs(states[0], states[n]);
    HalfwayCompletesIff(env, states[n], scan);
  }
}
