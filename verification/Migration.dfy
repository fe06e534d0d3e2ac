/** The resumable database migration: six numbered steps, a step counter in the
    database, and a crash allowed anywhere. */
module Migration {
  import opened Common
  import opened FtsIndex

  type Vector = seq<real>

  datatype Trigger = AfterInsert | AfterUpdate | AfterDelete

  // Which of the three triggers exist.
  datatype Triggers = Triggers(onInsert: bool, onUpdate: bool, onDelete: bool) {
    function With(t: Trigger): Triggers {
      match t
      case AfterInsert => this.(onInsert := true)
      case AfterUpdate => this.(onUpdate := true)
      case AfterDelete => this.(onDelete := true)
    }
  }

  const ALL_TRIGGERS := Triggers(true, true, true)

  /** The durable state. `step` is None before the state row is first inserted,
      which reads as 0; `vec` and `fts` are None before those tables exist. */
  datatype Db = Db(rows: map<RowId, string>, hasEmbedding: bool, vec: Option<map<RowId, Vector>>,
                   fts: Option<Index>, triggers: Triggers, step: Option<nat>)

  /** What the migration calls but does not define: the tokenizer, the embedder, and whether
      the engine's plain integrity check compares an external-content index with its table
      (versions of the engine differ; the call does not ask for it). */
  datatype Env = Env(tok: Tokenizer, embed: string -> Vector, comparesContent: bool)

  datatype Failure = NoSuchTable | FtsDiverged | VecIntegrity

  // ---------------------------------------------------------------- statements

  datatype Statement =
    | CreateVec
    | InsertVec(row: RowId, vector: Vector)
    | CreateFts
    | CreateTrigger(trigger: Trigger)
    | RebuildFts
    | CheckFts
    | CheckVec
    | DropEmbedding
    | Advance(to: nat)

  function StepOf(db: Db): nat { if db.step.Some? then db.step.value else 0 }

  // The integrity check finds the index diverged from the rows.
  ghost predicate Diverged(env: Env, db: Db) {
    env.comparesContent && db.fts.Some? && db.fts.value != Build(env.tok, db.rows)
  }

  // CREATE ... IF NOT EXISTS, INSERT OR IGNORE and ON CONFLICT DO NOTHING leave what is there.
  ghost function Exec(env: Env, db: Db, s: Statement): Result<Db, Failure> {
    match s
    case CreateVec => Ok(if db.vec.None? then db.(vec := Some(map[])) else db)
    case InsertVec(r, v) =>
      if db.vec.None? then Err(NoSuchTable)
      else Ok(if r in db.vec.value then db else db.(vec := Some(db.vec.value[r := v])))
    case CreateFts => Ok(if db.fts.None? then db.(fts := Some(multiset{})) else db)
    case CreateTrigger(t) => Ok(db.(triggers := db.triggers.With(t)))
    case RebuildFts => if db.fts.None? then Err(NoSuchTable) else Ok(db.(fts := Some(Build(env.tok, db.rows))))
    case CheckFts =>
      if db.fts.None? then Err(NoSuchTable)
      else if Diverged(env, db) then Err(FtsDiverged) else Ok(db)
    case CheckVec =>
      if db.vec.None? then Err(NoSuchTable)
      else if db.vec.value.Keys == db.rows.Keys then Ok(db) else Err(VecIntegrity)
    case DropEmbedding => Ok(db.(hasEmbedding := false))
    case Advance(k) => Ok(db.(step := Some(k)))
  }

  ghost function Then(env: Env, r: Result<Db, Failure>, s: Statement): Result<Db, Failure> {
    match r
    case Ok(db) => Exec(env, db, s)
    case Err(f) => Err(f)
  }

  // The first n statements of a list, in order, up to the first that fails.
  ghost function ExecFirst(env: Env, db: Db, ss: seq<Statement>, n: nat): Result<Db, Failure>
    requires n <= |ss|
  {
    if n == 0 then Ok(db) else Then(env, ExecFirst(env, db, ss, n - 1), ss[n - 1])
  }

  ghost function ExecAll(env: Env, db: Db, ss: seq<Statement>): Result<Db, Failure> { ExecFirst(env, db, ss, |ss|) }

  // ---------------------------------------------------------------- steps

  // The first n rows of the scan that have no vector yet, each with its embedding.
  function MissingVectors(env: Env, db: Db, scan: seq<RowId>, n: nat): seq<Statement>
    requires n <= |scan| && forall r :: r in scan ==> r in db.rows
  {
    if n == 0 then []
    else
      var earlier := MissingVectors(env, db, scan, n - 1);
      var r := scan[n - 1];
      if db.vec.Some? && r in db.vec.value then earlier else earlier + [InsertVec(r, env.embed(db.rows[r]))]
  }

  // A table scan of memories lists its rows, in an order the engine chooses.
  ghost predicate Scans(scan: seq<RowId>, rows: map<RowId, string>) {
    && (forall r :: r in scan <==> r in rows)
    && (forall i, j :: 0 <= i < j < |scan| ==> scan[i] != scan[j])
  }

  // Step 5: an index found diverged is rebuilt and checked again before the vectors are checked.
  ghost function CheckStatements(env: Env, db: Db): seq<Statement> {
    if Diverged(env, db) then [RebuildFts, CheckFts, CheckVec] else [CheckFts, CheckVec]
  }

  // The statements of step k as it is entered.
  ghost function StepWork(env: Env, db: Db, k: nat, scan: seq<RowId>): seq<Statement>
    requires 1 <= k <= 6 && Scans(scan, db.rows)
  {
    match k
    case 1 => [CreateVec]
    case 2 => MissingVectors(env, db, scan, |scan|)
    case 3 => [CreateFts, CreateTrigger(AfterInsert), CreateTrigger(AfterUpdate), CreateTrigger(AfterDelete)]
    case 4 => [RebuildFts]
    case 5 => CheckStatements(env, db)
    case _ => if db.hasEmbedding then [DropEmbedding] else []
  }

  // ... followed by the counter update that is committed with them.
  ghost function StepStatements(env: Env, db: Db, k: nat, scan: seq<RowId>): seq<Statement>
    requires 1 <= k <= 6 && Scans(scan, db.rows)
  {
    StepWork(env, db, k, scan) + [Advance(k)]
  }

  /** How one start of the program fares: it runs to the end, or it is killed in
      step `at` with only the first `kept` of that step's statements durable. */
  datatype Attempt = Completes(scan: seq<RowId>) | Dies(scan: seq<RowId>, at: nat, kept: nat)

  datatype Progress = Going(db: Db) | Stopped(out: Result<Db, Failure>)

  // The loop body for step k: skip it, run and commit it, or stop inside it.
  ghost function Enter(env: Env, db: Db, current: nat, k: nat, a: Attempt): (p: Progress)
    requires 1 <= k <= 6 && Scans(a.scan, db.rows)
    ensures p.Going? ==> p.db.rows == db.rows
    ensures p.Stopped? && p.out.Ok? ==> p.out.value.rows == db.rows
  {
    if current >= k then Going(db)
    else
      var ss := StepStatements(env, db, k, a.scan);
      if a.Dies? && a.at == k && a.kept < |ss| then
        ExecKeepsRows(env, db, ss, a.kept);
        Stopped(ExecFirst(env, db, ss, a.kept))
      else
        ExecKeepsRows(env, db, ss, |ss|);
        match ExecAll(env, db, ss)
        case Ok(db') => Going(db')
        case Err(f) => Stopped(Err(f))
  }

  ghost function RunSteps(env: Env, db: Db, current: nat, k: nat, a: Attempt): (out: Result<Db, Failure>)
    requires 1 <= k <= 7 && Scans(a.scan, db.rows)
    ensures out.Ok? ==> out.value.rows == db.rows
    decreases 7 - k
  {
    if k == 7 then Ok(db)
    else
      match Enter(env, db, current, k, a)
      case Going(db') => RunSteps(env, db', current, k + 1, a)
      case Stopped(out) => out
  }

  // Start the state row, read the counter once, and run the steps above it.
  ghost function Run(env: Env, db: Db, a: Attempt): (out: Result<Db, Failure>)
    requires Scans(a.scan, db.rows)
    ensures out.Ok? ==> out.value.rows == db.rows
  {
    if a.Dies? && a.at == 0 then Ok(db)  // killed before the state row was durable
    else
      var started := if db.step.None? then db.(step := Some(0)) else db;
      RunSteps(env, started, StepOf(started), 1, a)
  }

  lemma {:induction false} ExecKeepsRows(env: Env, db: Db, ss: seq<Statement>, n: nat)
    requires n <= |ss|
    ensures ExecFirst(env, db, ss, n).Ok? ==> ExecFirst(env, db, ss, n).value.rows == db.rows
  {
    if n > 0 { ExecKeepsRows(env, db, ss, n - 1); }
  }

  // ---------------------------------------------------------------- the program's own methods

  /** The connection, updated in place by the steps. */
  class Connection {
    const env: Env
    var rows: map<RowId, string>
    var hasEmbedding: bool
    var vec: Option<map<RowId, Vector>>
    var fts: Option<Index>
    var triggers: Triggers
    var step: Option<nat>

    ghost function State(): Db reads this { Db(rows, hasEmbedding, vec, fts, triggers, step) }

    constructor (env: Env, db: Db)
      ensures this.env == env && State() == db
    {
      this.env := env;
      rows, hasEmbedding, vec, fts, triggers, step := db.rows, db.hasEmbedding, db.vec, db.fts, db.triggers, db.step;
    }

    method Step1()
      modifies this
      ensures ExecAll(env, old(State()), [CreateVec]) == Ok(State())
    {
      if vec.None? { vec := Some(map[]); }
      Unfold(env, old(State()), [CreateVec], 1);
    }

    method Step2(scan: seq<RowId>) returns (ok: bool)
      requires Scans(scan, rows)
      modifies this
      ensures var ss := MissingVectors(env, old(State()), scan, |scan|);
              if ok then ExecAll(env, old(State()), ss) == Ok(State()) else ExecAll(env, old(State()), ss).Err?
    {
      hide ExecFirst;
      ghost var start := State();
      NothingToExecute(env, start);
      var had := vec;
      for i := 0 to |scan|
        invariant rows == start.rows && had == start.vec
        invariant ExecAll(env, start, MissingVectors(env, start, scan, i)) == Ok(State())
      {
        var r := scan[i];
        if had.Some? && r in had.value { continue; }
        Snoc(env, start, MissingVectors(env, start, scan, i), InsertVec(r, env.embed(rows[r])));
        if vec.None? {
          FailsFrom(env, start, scan, i + 1, |scan|);
          return false;
        }
        if r !in vec.value { vec := Some(vec.value[r := env.embed(rows[r])]); }
      }
      return true;
    }

    method Step3()
      modifies this
      ensures ExecAll(env, old(State()), [CreateFts, CreateTrigger(AfterInsert), CreateTrigger(AfterUpdate), CreateTrigger(AfterDelete)]) == Ok(State())
    {
      ghost var start := State();
      if fts.None? { fts := Some(multiset{}); }
      triggers := triggers.With(AfterInsert);
      triggers := triggers.With(AfterUpdate);
      triggers := triggers.With(AfterDelete);
      Unfold(env, start, [CreateFts, CreateTrigger(AfterInsert), CreateTrigger(AfterUpdate), CreateTrigger(AfterDelete)], 4);
    }

    // Both 'rebuild' and the reference the integrity check compares with.
    method FreshIndex(scan: seq<RowId>) returns (index: Index)
      requires Scans(scan, rows)
      ensures index == Build(env.tok, rows)
    {
      index := Reindex(env.tok, rows, scan);
      AgreesIsBuild(env.tok, index, rows);
    }

    method Step4(scan: seq<RowId>) returns (ok: bool)
      requires Scans(scan, rows)
      modifies this
      ensures if ok then ExecAll(env, old(State()), [RebuildFts]) == Ok(State())
              else State() == old(State()) && ExecAll(env, State(), [RebuildFts]).Err?
    {
      Unfold(env, State(), [RebuildFts], 1);
      if fts.None? { return false; }
      var index := FreshIndex(scan);
      fts := Some(index);
      return true;
    }

    method Step5(scan: seq<RowId>) returns (ok: bool)
      requires Scans(scan, rows)
      modifies this
      ensures var ss := CheckStatements(env, old(State()));
              if ok then ExecAll(env, old(State()), ss) == Ok(State()) else ExecAll(env, old(State()), ss).Err?
    {
      ghost var start := State();
      CheckRuns(env, start);
      if fts.None? || vec.None? { return false; }
      if env.comparesContent {
        var reference := FreshIndex(scan);
        if fts.value != reference { fts := Some(reference); }
      }
      return vec.value.Keys == rows.Keys;
    }

    method Step6()
      modifies this
      ensures ExecAll(env, old(State()), if old(hasEmbedding) then [DropEmbedding] else []) == Ok(State())
    {
      Unfold(env, State(), [DropEmbedding], 1);
      if hasEmbedding { hasEmbedding := false; }
    }

    // One step and its commit.
    method RunStep(k: nat, scan: seq<RowId>) returns (ok: bool)
      requires 1 <= k <= 6 && Scans(scan, rows)
      modifies this
      ensures var ss := StepStatements(env, old(State()), k, scan);
              if ok then ExecAll(env, old(State()), ss) == Ok(State()) else ExecAll(env, old(State()), ss).Err?
    {
      ghost var before := State();
      ghost var work := StepWork(env, before, k, scan);
      Snoc(env, before, work, Advance(k));
      ok := true;
      match k {
        case 1 => Step1();
        case 2 => ok := Step2(scan);
        case 3 => Step3();
        case 4 => ok := Step4(scan);
        case 5 => ok := Step5(scan);
        case _ => Step6();
      }
      if ok { step := Some(k); }
    }

    // `_run_migration`, uninterrupted. `ok` is false when a step raised.
    method RunMigration(scan: seq<RowId>) returns (ok: bool)
      requires Scans(scan, rows)
      modifies this
      ensures if ok then Run(env, old(State()), Completes(scan)) == Ok(State())
              else Run(env, old(State()), Completes(scan)).Err?
    {
      if step.None? { step := Some(0); }
      var current := step.value;
      ghost var whole := RunSteps(env, State(), current, 1, Completes(scan));
      for k := 1 to 7
        invariant Scans(scan, rows)
        invariant whole == RunSteps(env, State(), current, k, Completes(scan))
      {
        if current >= k { continue; }
        ghost var before := State();
        ok := RunStep(k, scan);
        assert ok ==> Enter(env, before, current, k, Completes(scan)) == Going(State());
        if !ok { return false; }
      }
      return true;
    }
  }

  lemma NothingToExecute(env: Env, db: Db)
    ensures ExecAll(env, db, []) == Ok(db)
  {
  }

  // Short statement lists, executed one after the other.
  lemma Unfold(env: Env, db: Db, ss: seq<Statement>, n: nat)
    requires n <= |ss| <= 4
    ensures n == 0 ==> ExecFirst(env, db, ss, n) == Ok(db)
    ensures n == 1 ==> ExecFirst(env, db, ss, n) == Exec(env, db, ss[0])
    ensures n == 2 ==> ExecFirst(env, db, ss, n) == Then(env, Exec(env, db, ss[0]), ss[1])
    ensures n == 3 ==> ExecFirst(env, db, ss, n) == Then(env, Then(env, Exec(env, db, ss[0]), ss[1]), ss[2])
    ensures n == 4 ==> ExecFirst(env, db, ss, n) == Then(env, Then(env, Then(env, Exec(env, db, ss[0]), ss[1]), ss[2]), ss[3])
  {
    if n > 0 { Unfold(env, db, ss, n - 1); }
  }

  // Step 5 succeeds exactly when vectors and memories have the same row ids, and leaves the
  // index rebuilt if the engine compares it, untouched otherwise.
  lemma CheckRuns(env: Env, db: Db)
    ensures var r := ExecAll(env, db, CheckStatements(env, db));
            && (r.Ok? <==> db.fts.Some? && db.vec.Some? && db.vec.value.Keys == db.rows.Keys)
            && (r.Ok? ==> r.value == db.(fts := Some(if env.comparesContent then Build(env.tok, db.rows) else db.fts.value)))
  {
    Unfold(env, db, CheckStatements(env, db), |CheckStatements(env, db)|);
  }

  lemma {:induction false} ExecPrefix(env: Env, db: Db, ss: seq<Statement>, more: seq<Statement>, n: nat)
    requires n <= |ss|
    ensures ExecFirst(env, db, ss + more, n) == ExecFirst(env, db, ss, n)
  {
    if n > 0 { ExecPrefix(env, db, ss, more, n - 1); }
  }

  lemma Snoc(env: Env, db: Db, ss: seq<Statement>, s: Statement)
    ensures ExecAll(env, db, ss + [s]) == Then(env, ExecAll(env, db, ss), s)
  {
    ExecPrefix(env, db, ss, [s], |ss|);
  }

  // Once some of the inserts have failed, so has the whole list.
  lemma {:induction false} FailsFrom(env: Env, db: Db, scan: seq<RowId>, i: nat, n: nat)
    requires i <= n <= |scan| && forall r :: r in scan ==> r in db.rows
    requires ExecAll(env, db, MissingVectors(env, db, scan, i)).Err?
    ensures ExecAll(env, db, MissingVectors(env, db, scan, n)).Err?
  {
    if i < n {
      FailsFrom(env, db, scan, i, n - 1);
      var r := scan[n - 1];
      Snoc(env, db, MissingVectors(env, db, scan, n - 1), InsertVec(r, env.embed(db.rows[r])));
    }
  }
}
