/**
 What holds over every interleaving of workers, operators and pruners on the run-state tables: one
 waker, operator intent and delegation links that survive, and a cursor that agrees with its trail.
 */
module FlowRuns {
  import opened Maybe
  import opened FlowRunStore

  /** One statement or transaction of some replica; a prune is two steps that share a worker. */
  datatype Step =
    | Upsert(row: RunInput, now: int)
    | Claim(runId: string, now: int)
    | SetAttempt(runId: string, attempt: Option<Json>, now: int)
    | SetRequest(runId: string, request: Option<string>, now: int)
    | Record(cp: CheckpointInput, run: RunInput, now: int, commits: bool)
    | PruneRuns(worker: nat, before: int)
    | PruneTrail(worker: nat)

  /** The tables, what each pruner deleted and has yet to follow up, and every id ever pruned. */
  datatype System = System(tables: Tables, pending: map<nat, set<string>>, pruned: set<string>)

  const START: System := System(Tables(map[], map[]), map[], {})

  function Next(y: System, s: Step): System {
    var t := y.tables;
    match s
    case Upsert(row, now) => y.(tables := t.(runs := AfterUpsert(t.runs, row, now)))
    case Claim(runId, now) => y.(tables := t.(runs := AfterClaim(t.runs, runId, now)))
    case SetAttempt(runId, attempt, now) => y.(tables := t.(runs := AfterSetAttempt(t.runs, runId, attempt, now)))
    case SetRequest(runId, request, now) => y.(tables := t.(runs := AfterSetRequest(t.runs, runId, request, now)))
    case Record(cp, run, now, commits) => if commits then y.(tables := AfterCheckpoint(t, cp, run, now)) else y
    case PruneRuns(worker, before) =>
      var ids := Prunable(t.runs, before);
      System(t.(runs := AfterDeleteRuns(t.runs, ids)), y.pending[worker := ids], y.pruned + ids)
    case PruneTrail(worker) =>
      if worker in y.pending
      then y.(tables := t.(trail := AfterDeleteTrail(t.trail, y.pending[worker])), pending := y.pending - {worker})
      else y
  }

  function Run(y: System, steps: seq<Step>): System
    decreases |steps|
  {
    if steps == [] then y else Run(Next(y, steps[0]), steps[1..])
  }

  // ---------- one waker ----------

  predicate ClaimWins(y: System, s: Step, id: string) {
    s.Claim? && s.runId == id && Waiting(y.tables.runs, id)
  }

  /** A write that leaves the run waiting. */
  predicate ParksRun(y: System, s: Step, id: string) {
    || (s.Upsert? && s.row.runId == id && s.row.status == "waiting" && !UpsertFails(y.tables.runs, s.row))
    || (s.Record? && s.commits && s.run.runId == id && s.run.status == "waiting")
  }

  function Wakes(y: System, steps: seq<Step>, id: string): nat
    decreases |steps|
  {
    if steps == [] then 0 else One(ClaimWins(y, steps[0], id)) + Wakes(Next(y, steps[0]), steps[1..], id)
  }

  function Parks(y: System, steps: seq<Step>, id: string): nat
    decreases |steps|
  {
    if steps == [] then 0 else One(ParksRun(y, steps[0], id)) + Parks(Next(y, steps[0]), steps[1..], id)
  }

  lemma StepWakesOnce(y: System, s: Step, id: string)
    ensures One(ClaimWins(y, s, id)) + One(Waiting(Next(y, s).tables.runs, id))
              <= One(Waiting(y.tables.runs, id)) + One(ParksRun(y, s, id))
  {
  }

  /** From any state, wakes plus a run still parked never exceed the parkings; so between two parkings one claim wins at most. */
  lemma {:induction false} SingleWaker(y: System, steps: seq<Step>, id: string)
    ensures Wakes(y, steps, id) + One(Waiting(Run(y, steps).tables.runs, id))
              <= One(Waiting(y.tables.runs, id)) + Parks(y, steps, id)
    decreases |steps|
  {
    if steps != [] {
      StepWakesOnce(y, steps[0], id);
      SingleWaker(Next(y, steps[0]), steps[1..], id);
    }
  }

  /** The run with every losing claim left out. */
  function WithoutLosers(y: System, steps: seq<Step>): seq<Step>
    decreases |steps|
  {
    if steps == [] then []
    else
      var s := steps[0];
      var rest := WithoutLosers(Next(y, s), steps[1..]);
      if s.Claim? && !ClaimWins(y, s, s.runId) then rest else [s] + rest
  }

  /** Losing claims are silent: a run ends as it would had they never been made, and no more claims win. */
  lemma {:induction false} LosingClaimsAreSilent(y: System, steps: seq<Step>, id: string)
    ensures Run(y, WithoutLosers(y, steps)) == Run(y, steps)
    ensures Wakes(y, WithoutLosers(y, steps), id) == Wakes(y, steps, id)
    decreases |steps|
  {
    if steps != [] {
      var s, rest := steps[0], WithoutLosers(Next(y, steps[0]), steps[1..]);
      LosingClaimsAreSilent(Next(y, s), steps[1..], id);
      assert ([s] + rest)[1..] == rest;
    }
  }

  /** A write that gives the run an ended status. */
  predicate EndsRun(s: Step, id: string) {
    || (s.Upsert? && s.row.runId == id && s.row.status in ENDED)
    || (s.Record? && s.commits && s.run.runId == id && s.run.status in ENDED)
  }

  /** However many pruners run, and whatever their cutoffs, a run that nobody ended keeps its row. */
  lemma {:induction false} LiveRunsSurvive(y: System, steps: seq<Step>, id: string)
    requires id in y.tables.runs && y.tables.runs[id].status !in ENDED
    requires forall i :: 0 <= i < |steps| ==> !EndsRun(steps[i], id)
    ensures id in Run(y, steps).tables.runs && Run(y, steps).tables.runs[id].status !in ENDED
    decreases |steps|
  {
    if steps != [] {
      assert !EndsRun(steps[0], id);
      LiveRunsSurvive(Next(y, steps[0]), steps[1..], id);
    }
  }

  /** The step writes with a clock that has reached this time, or prunes no later than it. */
  predicate AroundTime(s: Step, time: int) {
    match s
    case Upsert(_, now) => now >= time
    case Claim(_, now) => now >= time
    case SetAttempt(_, _, now) => now >= time
    case SetRequest(_, _, now) => now >= time
    case Record(_, _, now, _) => now >= time
    case PruneRuns(_, before) => before <= time
    case PruneTrail(_) => true
  }

  /** Ended or not, a row written no earlier than every cutoff outlives all the prunes. */
  lemma {:induction false} RecentRowsSurvive(y: System, steps: seq<Step>, id: string, time: int)
    requires id in y.tables.runs && y.tables.runs[id].updatedAt >= time
    requires forall i :: 0 <= i < |steps| ==> AroundTime(steps[i], time)
    ensures id in Run(y, steps).tables.runs
    decreases |steps|
  {
    if steps != [] {
      assert AroundTime(steps[0], time);
      RecentRowsSurvive(Next(y, steps[0]), steps[1..], id, time);
    }
  }

  // ---------- operator intent and delegation links ----------

  /** What a run's row says of its operator and its parent, while there is a row. */
  datatype Told = Absent | Told(request: Option<string>, parentRunId: Option<string>, parentStepId: Option<string>)

  function TellOf(y: System, id: string): Told {
    if id !in y.tables.runs then Absent
    else
      var row := y.tables.runs[id];
      Told(row.request, row.parentRunId, row.parentStepId)
  }

  /** The history of that, told without looking at any write of a worker to a row that is there. */
  function AfterTelling(y: System, s: Step, id: string, told: Told): Told {
    if told.Absent? then
      if s.Upsert? && s.row.runId == id && !ParentTaken(y.tables.runs, s.row) then Told(None, s.row.parentRunId, s.row.parentStepId)
      else if s.Record? && s.commits && s.run.runId == id then Told(None, None, None)
      else Absent
    else if s.PruneRuns? && id in Prunable(y.tables.runs, s.before) then Absent
    else if s.SetRequest? && s.runId == id then told.(request := s.request)
    else if ClaimWins(y, s, id) then told.(request := None)
    else told
  }

  function History(y: System, steps: seq<Step>, id: string, told: Told): Told
    decreases |steps|
  {
    if steps == [] then told else History(Next(y, steps[0]), steps[1..], id, AfterTelling(y, steps[0], id, told))
  }

  /**
   Over any run, whatever workers upsert, checkpoint and attempt: a row's request starts unset and is
   what operators and winning claims last made it, and its parent link is the inserting upsert's, or
   none when a checkpoint announced it, until the row is pruned.
   */
  lemma {:induction false} IntentAndLinkSurvive(y: System, steps: seq<Step>, id: string)
    ensures TellOf(Run(y, steps), id) == History(y, steps, id, TellOf(y, id))
    decreases |steps|
  {
    if steps != [] {
      StepTells(y, steps[0], id);
      IntentAndLinkSurvive(Next(y, steps[0]), steps[1..], id);
    }
  }

  lemma StepTells(y: System, s: Step, id: string)
    ensures TellOf(Next(y, s), id) == AfterTelling(y, s, id, TellOf(y, id))
  {
  }

  /** No two runs were delegated by the same step of the same run. */
  ghost predicate DelegatedOnce(runs: Runs) {
    forall a, b :: a in runs && b in runs && a != b && runs[a].parentRunId.Some? && runs[a].parentStepId.Some? ==>
      runs[a].parentRunId != runs[b].parentRunId || runs[a].parentStepId != runs[b].parentStepId
  }

  lemma StepDelegatesOnce(y: System, s: Step)
    requires DelegatedOnce(y.tables.runs)
    ensures DelegatedOnce(Next(y, s).tables.runs)
  {
    var before, after := y.tables.runs, Next(y, s).tables.runs;
    forall a, b | a in after && b in after && a != b && after[a].parentRunId.Some? && after[a].parentStepId.Some?
      ensures after[a].parentRunId != after[b].parentRunId || after[a].parentStepId != after[b].parentStepId
    {
      LinkOrigin(y, s, a);
      LinkOrigin(y, s, b);
    }
  }

  lemma LinkOrigin(y: System, s: Step, id: string)
    requires id in Next(y, s).tables.runs
    ensures var before, row := y.tables.runs, Next(y, s).tables.runs[id];
            if id in before then row.parentRunId == before[id].parentRunId && row.parentStepId == before[id].parentStepId
            else if s.Upsert? then
              && s.row.runId == id && !ParentTaken(before, s.row)
              && row.parentRunId == s.row.parentRunId && row.parentStepId == s.row.parentStepId
            else s.Record? && s.run.runId == id && row.parentRunId.None? && row.parentStepId.None?
  {
  }

  lemma {:induction false} DelegationIsUnique(y: System, steps: seq<Step>)
    requires DelegatedOnce(y.tables.runs)
    ensures DelegatedOnce(Run(y, steps).tables.runs)
    decreases |steps|
  {
    if steps != [] {
      StepDelegatesOnce(y, steps[0]);
      DelegationIsUnique(Next(y, steps[0]), steps[1..]);
    }
  }

  // ---------- the cursor and its trail ----------

  ghost predicate HasTrail(t: Tables, id: string) {
    exists n :: (id, n) in t.trail
  }

  ghost predicate Highest(t: Tables, id: string, n: int) {
    (id, n) in t.trail && forall m :: (id, m) in t.trail ==> m <= n
  }

  /** The run is where its highest checkpoint says it goes next. */
  ghost predicate CursorAgrees(t: Tables, id: string) {
    id in t.runs ==> forall n :: Highest(t, id, n) ==> t.runs[id].cursor == t.trail[(id, n)].nextStepId
  }

  /** Something of the run is still to be deleted: a pruner holds its id, or its trail is there without its row. */
  ghost predicate Leftover(y: System, id: string) {
    id !in y.tables.runs && (HasTrail(y.tables, id) || exists w :: w in y.pending && id in y.pending[w])
  }

  /** This run is announced only when nothing of it is left over, and its checkpoints are written with its own row. */
  ghost predicate CleanStart(y: System, s: Step, id: string) {
    && (s.Upsert? && s.row.runId == id && !UpsertFails(y.tables.runs, s.row) ==> !Leftover(y, id))
    && (s.Record? && s.commits && id in {s.run.runId, s.cp.runId} ==> s.cp.runId == s.run.runId && !Leftover(y, id))
  }

  ghost predicate Clean(y: System, steps: seq<Step>, id: string)
    decreases |steps|
  {
    steps != [] ==> CleanStart(y, steps[0], id) && Clean(Next(y, steps[0]), steps[1..], id)
  }

  /** The run's cursor moves only with a checkpoint that names the same next step and does not go back. */
  ghost predicate MovesByCheckpoint(y: System, s: Step, id: string) {
    && (s.Upsert? && s.row.runId == id && id in y.tables.runs ==> s.row.cursor == y.tables.runs[id].cursor)
    && (s.Record? && s.commits && s.run.runId == id ==>
          && s.run.cursor == s.cp.row.nextStepId
          && forall n :: (id, n) in y.tables.trail ==> n <= s.cp.ordinal)
  }

  ghost predicate Disciplined(y: System, steps: seq<Step>, id: string)
    decreases |steps|
  {
    steps != [] ==>
      CleanStart(y, steps[0], id) && MovesByCheckpoint(y, steps[0], id) && Disciplined(Next(y, steps[0]), steps[1..], id)
  }

  /** No pruner holds the id of a run that has a row. */
  ghost predicate NotHeld(y: System, id: string) {
    id in y.tables.runs ==> forall w :: w in y.pending ==> id !in y.pending[w]
  }

  lemma StepKeepsNotHeld(y: System, s: Step, id: string)
    requires NotHeld(y, id) && CleanStart(y, s, id)
    ensures NotHeld(Next(y, s), id)
  {
  }

  lemma {:induction false} ReachableNotHeld(y: System, steps: seq<Step>, id: string)
    requires NotHeld(y, id) && Clean(y, steps, id)
    ensures NotHeld(Run(y, steps), id)
    decreases |steps|
  {
    if steps != [] {
      StepKeepsNotHeld(y, steps[0], id);
      ReachableNotHeld(Next(y, steps[0]), steps[1..], id);
    }
  }

  /** A step takes a checkpoint from a row that survives it exactly when it is the second delete of a pruner that holds the run. */
  lemma StripsExactly(y: System, s: Step, id: string, n: int)
    requires id in y.tables.runs && (id, n) in y.tables.trail && id in Next(y, s).tables.runs
    ensures (id, n) !in Next(y, s).tables.trail <==> s.PruneTrail? && s.worker in y.pending && id in y.pending[s.worker]
  {
  }

  /**
   When this run is never announced over leftovers, the next step of any run of the system, whatever it
   is, leaves its surviving row every checkpoint it had.
   */
  lemma PruneNeverStrips(steps: seq<Step>, s: Step, id: string, n: int)
    requires Clean(START, steps, id)
    requires var y := Run(START, steps); id in y.tables.runs && (id, n) in y.tables.trail
    ensures var z := Next(Run(START, steps), s); id in z.tables.runs ==> (id, n) in z.tables.trail
  {
    var y := Run(START, steps);
    ReachableNotHeld(START, steps, id);
    if id in Next(y, s).tables.runs { StripsExactly(y, s, id, n); }
  }

  lemma StepAgrees(y: System, s: Step, id: string)
    requires NotHeld(y, id) && CleanStart(y, s, id) && MovesByCheckpoint(y, s, id) && CursorAgrees(y.tables, id)
    ensures CursorAgrees(Next(y, s).tables, id)
  {
    var t, u := y.tables, Next(y, s).tables;
    if id in u.runs {
      forall n | Highest(u, id, n) ensures u.runs[id].cursor == u.trail[(id, n)].nextStepId {
        if s.Record? && s.commits && s.run.runId == id {
          assert (id, s.cp.ordinal) in u.trail;
        } else {
          assert (id, n) in t.trail && id in t.runs;
          assert forall m :: (id, m) in t.trail ==> (id, m) in u.trail;
          assert Highest(t, id, n);
        }
      }
    }
  }

  lemma {:induction false} RunAgrees(y: System, steps: seq<Step>, id: string)
    requires NotHeld(y, id) && Disciplined(y, steps, id) && CursorAgrees(y.tables, id)
    ensures CursorAgrees(Run(y, steps).tables, id)
    decreases |steps|
  {
    if steps != [] {
      StepKeepsNotHeld(y, steps[0], id);
      StepAgrees(y, steps[0], id);
      RunAgrees(Next(y, steps[0]), steps[1..], id);
    }
  }

  /** In every reachable state, crashes between the two statements included, the cursor is the next step of the highest checkpoint. */
  lemma CheckpointAndCursorAgree(steps: seq<Step>, id: string)
    requires Disciplined(START, steps, id)
    ensures CursorAgrees(Run(START, steps).tables, id)
  {
    RunAgrees(START, steps, id);
  }

  // ---------- when nothing is left over ----------

  /** The run's checkpoints are written with its own row. */
  predicate OwnCheckpoints(steps: seq<Step>, id: string) {
    forall i :: 0 <= i < |steps| && steps[i].Record? && steps[i].commits && steps[i].cp.runId == id ==> steps[i].run.runId == id
  }

  ghost predicate PrunedInv(y: System, id: string) {
    && (HasTrail(y.tables, id) ==> id in y.tables.runs || id in y.pruned)
    && (forall w :: w in y.pending && id in y.pending[w] ==> id in y.pruned)
  }

  lemma StepKeepsPrunedInv(y: System, s: Step, id: string)
    requires PrunedInv(y, id) && (s.Record? && s.commits && s.cp.runId == id ==> s.run.runId == id)
    ensures PrunedInv(Next(y, s), id)
  {
    var z := Next(y, s);
    if n :| (id, n) in z.tables.trail {
      assert (id, n) in y.tables.trail ==> HasTrail(y.tables, id);
    }
  }

  lemma {:induction false} ReachablePrunedInv(y: System, steps: seq<Step>, id: string)
    requires PrunedInv(y, id) && OwnCheckpoints(steps, id)
    ensures PrunedInv(Run(y, steps), id)
    decreases |steps|
  {
    if steps != [] {
      StepKeepsPrunedInv(y, steps[0], id);
      assert OwnCheckpoints(steps[1..], id);
      ReachablePrunedInv(Next(y, steps[0]), steps[1..], id);
    }
  }

  /** A run that was never pruned has nothing left over, so announcing an id again only before its first prune is always clean. */
  lemma NeverPrunedIsClean(steps: seq<Step>, id: string)
    requires OwnCheckpoints(steps, id) && id !in Run(START, steps).pruned
    ensures !Leftover(Run(START, steps), id)
  {
    ReachablePrunedInv(START, steps, id);
  }

  /** Announcing a pruned id again between the two deletes loses the new row's trail. */
  lemma ReinsertionStrips(cp: CheckpointInput, run: RunInput) returns (steps: seq<Step>)
    requires run.status == "completed" && cp.runId == run.runId
    ensures |steps| == 4
    ensures var y := Run(START, steps[..3]); run.runId in y.tables.runs && (cp.runId, cp.ordinal) in y.tables.trail
    ensures var z := Run(START, steps); run.runId in z.tables.runs && !HasTrail(z.tables, run.runId)
  {
    var a, b, c, d := Record(cp, run, 0, true), PruneRuns(0, 1), Record(cp, run, 1, true), PruneTrail(0);
    steps := [a, b, c, d];
    var y1 := Next(START, a);
    var y2 := Next(y1, b);
    var y3 := Next(y2, c);
    var y4 := Next(y3, d);
    assert steps[1..] == [b, c, d] && [b, c, d][1..] == [c, d] && [c, d][1..] == [d] && [d][1..] == [];
    assert steps[..3] == [a, b, c] && [a, b, c][1..] == [b, c] && [b, c][1..] == [c] && [c][1..] == [];
    Unroll3(a, b, c);
    assert y2.pending[0] == {run.runId};
    assert Run(y3, [d]) == y4;
    Unroll4(a, b, c, d);
  }

  lemma Unroll3(a: Step, b: Step, c: Step)
    ensures Run(START, [a, b, c]) == Next(Next(Next(START, a), b), c)
  {
    assert [a, b, c][1..] == [b, c] && [b, c][1..] == [c] && [c][1..] == [];
    assert Run(Next(Next(START, a), b), [c]) == Next(Next(Next(START, a), b), c);
  }

  lemma Unroll4(a: Step, b: Step, c: Step, d: Step)
    ensures Run(START, [a, b, c, d]) == Next(Next(Next(Next(START, a), b), c), d)
  {
    assert [a, b, c, d][1..] == [b, c, d] && [b, c, d][1..] == [c, d] && [c, d][1..] == [d] && [d][1..] == [];
    var y := Next(Next(START, a), b);
    assert Run(Next(y, c), [d]) == Next(Next(y, c), d);
    assert Run(y, [c, d]) == Next(Next(y, c), d);
  }
}
