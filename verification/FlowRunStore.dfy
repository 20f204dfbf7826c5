/**
 The run-state and checkpoint tables (`packages/db/src/flows.ts`). Each SQL statement is one atomic
 step; `recordFlowCheckpoint` is one transaction of two statements and `pruneFlowRunState` is two
 statements without one.
 */
module FlowRunStore {
  import opened Maybe

  /** A jsonb column's value, left as text. */
  type Json = string

  datatype RunRow = RunRow(
    flowId: string,
    status: string,
    request: Option<string>,
    principal: Option<string>,
    trigger: Option<string>,
    cursor: Option<string>,
    state: Option<Json>,
    pause: Option<Json>,
    attempt: Option<Json>,
    parentRunId: Option<string>,
    parentStepId: Option<string>,
    startedAt: int,
    updatedAt: int
  )

  /** What a caller hands over about a run: no request and no update time. */
  datatype RunInput = RunInput(
    runId: string,
    flowId: string,
    status: string,
    principal: Option<string>,
    trigger: Option<string>,
    cursor: Option<string>,
    state: Option<Json>,
    pause: Option<Json>,
    attempt: Option<Json>,
    parentRunId: Option<string>,
    parentStepId: Option<string>,
    startedAt: int
  )

  datatype Checkpoint = Checkpoint(
    flowId: string,
    stepId: string,
    nextStepId: Option<string>,
    status: string,
    pause: Option<Json>,
    state: Option<Json>,
    at: int
  )

  datatype CheckpointInput = CheckpointInput(runId: string, ordinal: int, row: Checkpoint)

  type Runs = map<string, RunRow>

  /** Unique on run and sequence number. */
  type Trail = map<(string, int), Checkpoint>

  datatype Tables = Tables(runs: Runs, trail: Trail)

  const ENDED: set<string> := {"completed", "error", "cancelled", "max_steps"}

  // ---------- statements ----------

  /** `flow_run_state_parent_step_uq`: another row was already delegated by this step. Nulls never clash. */
  predicate ParentTaken(runs: Runs, row: RunInput) {
    row.parentRunId.Some? && row.parentStepId.Some?
    && exists id :: id in runs && runs[id].parentRunId == row.parentRunId && runs[id].parentStepId == row.parentStepId
  }

  function Inserted(row: RunInput, linked: bool, now: int): RunRow {
    RunRow(row.flowId, row.status, None, row.principal, row.trigger, row.cursor, row.state, row.pause, row.attempt,
           if linked then row.parentRunId else None, if linked then row.parentStepId else None, row.startedAt, now)
  }

  /** Refused when the insert would break the delegation key; an update never does. */
  predicate UpsertFails(runs: Runs, row: RunInput) {
    row.runId !in runs && ParentTaken(runs, row)
  }

  function AfterUpsert(runs: Runs, row: RunInput, now: int): Runs {
    if row.runId in runs then
      var current := runs[row.runId];
      runs[row.runId := current.(flowId := row.flowId, status := row.status, principal := row.principal, trigger := row.trigger,
                              cursor := row.cursor, state := row.state, pause := row.pause, attempt := row.attempt,
                              updatedAt := now)]
    else if ParentTaken(runs, row) then runs
    else runs[row.runId := Inserted(row, true, now)]
  }

  predicate Waiting(runs: Runs, runId: string) {
    runId in runs && runs[runId].status == "waiting"
  }

  function AfterClaim(runs: Runs, runId: string, now: int): Runs {
    if Waiting(runs, runId) then runs[runId := runs[runId].(status := "running", request := None, updatedAt := now)] else runs
  }

  function AfterSetAttempt(runs: Runs, runId: string, attempt: Option<Json>, now: int): Runs {
    if runId in runs then runs[runId := runs[runId].(attempt := attempt, updatedAt := now)] else runs
  }

  function AfterSetRequest(runs: Runs, runId: string, request: Option<string>, now: int): Runs {
    if runId in runs then runs[runId := runs[runId].(request := request, updatedAt := now)] else runs
  }

  /** First statement of a checkpoint: a redelivered sequence number overwrites its own row. */
  function AfterCheckpointRow(trail: Trail, cp: CheckpointInput): Trail {
    var key := (cp.runId, cp.ordinal);
    trail[key := if key in trail then cp.row.(flowId := trail[key].flowId) else cp.row]
  }

  /** Second statement: move the run, or announce it without a delegation link. */
  function AfterCursor(runs: Runs, run: RunInput, now: int): Runs {
    if run.runId in runs then
      runs[run.runId := runs[run.runId].(status := run.status, cursor := run.cursor, state := run.state, pause := run.pause,
                                         attempt := run.attempt, updatedAt := now)]
    else runs[run.runId := Inserted(run, false, now)]
  }

  function AfterCheckpoint(t: Tables, cp: CheckpointInput, run: RunInput, now: int): Tables {
    Tables(AfterCursor(t.runs, run, now), AfterCheckpointRow(t.trail, cp))
  }

  function Prunable(runs: Runs, before: int): set<string> {
    set id | id in runs && runs[id].status in ENDED && runs[id].updatedAt < before
  }

  function AfterDeleteRuns(runs: Runs, ids: set<string>): Runs {
    map id | id in runs && id !in ids :: runs[id]
  }

  function AfterDeleteTrail(trail: Trail, ids: set<string>): Trail {
    map key | key in trail && key.0 !in ids :: trail[key]
  }

  /** No other row, and no row's presence, differs. */
  predicate OnlyRow(before: Runs, after: Runs, runId: string) {
    after.Keys == before.Keys && forall id :: id in before && id != runId ==> after[id] == before[id]
  }

  /** Every column a worker may write, as handed over. */
  predicate Written(r: RunRow, row: RunInput, now: int) {
    && r.flowId == row.flowId && r.status == row.status && r.principal == row.principal && r.trigger == row.trigger
    && r.cursor == row.cursor && r.state == row.state && r.pause == row.pause && r.attempt == row.attempt
    && r.updatedAt == now
  }

  /** The columns only a checkpoint's run may move, as handed over. */
  predicate Moved(r: RunRow, row: RunInput, now: int) {
    && r.status == row.status && r.cursor == row.cursor && r.state == row.state && r.pause == row.pause
    && r.attempt == row.attempt && r.updatedAt == now
  }

  /** What no worker writes over: the operator's request, the delegation link and the start. */
  predicate KeepsOwn(before: RunRow, after: RunRow) {
    && after.request == before.request && after.startedAt == before.startedAt
    && after.parentRunId == before.parentRunId && after.parentStepId == before.parentStepId
  }

  class FlowStore {
    var runs: Runs
    var trail: Trail

    function Contents(): Tables
      reads this
    {
      Tables(runs, trail)
    }

    constructor ()
      ensures Contents() == Tables(map[], map[])
    {
      runs, trail := map[], map[];
    }

    /** A row that is there takes every column a worker may write and keeps its own; a new one takes them all and no request. */
    method UpsertFlowRunState(row: RunInput, now: int) returns (ok: bool)
      modifies this
      ensures ok <==> !UpsertFails(old(runs), row)
      ensures Contents() == Tables(AfterUpsert(old(runs), row, now), old(trail))
      ensures row.runId in old(runs) ==>
                && OnlyRow(old(runs), runs, row.runId)
                && Written(runs[row.runId], row, now) && KeepsOwn(old(runs)[row.runId], runs[row.runId])
      ensures row.runId !in old(runs) && ok ==>
                && runs.Keys == old(runs).Keys + {row.runId} && (forall id :: id in old(runs) ==> runs[id] == old(runs)[id])
                && Written(runs[row.runId], row, now)
                && runs[row.runId].request.None? && runs[row.runId].startedAt == row.startedAt
                && runs[row.runId].parentRunId == row.parentRunId && runs[row.runId].parentStepId == row.parentStepId
      ensures !ok ==> runs == old(runs)
      ensures !ok <==>
                row.runId !in old(runs) && row.parentRunId.Some? && row.parentStepId.Some?
                && exists id :: id in old(runs) && old(runs)[id].parentRunId == row.parentRunId && old(runs)[id].parentStepId == row.parentStepId
    {
      if row.runId in runs {
        var r := runs[row.runId];
        runs := runs[row.runId := r.(flowId := row.flowId, status := row.status, principal := row.principal,
                                     trigger := row.trigger, cursor := row.cursor, state := row.state, pause := row.pause,
                                     attempt := row.attempt, updatedAt := now)];
        ok := true;
      } else if ParentTaken(runs, row) {
        ok := false;
      } else {
        runs := runs[row.runId := Inserted(row, true, now)];
        ok := true;
      }
    }

    /** Whoever's update matches gets the row; everyone else gets nothing and changes nothing. */
    method ClaimWaitingFlowRun(runId: string, now: int) returns (row: Option<RunRow>)
      modifies this
      ensures row.Some? <==> runId in old(runs) && old(runs)[runId].status == "waiting"
      ensures row.Some? ==> runId in runs && row.value == runs[runId] && row.value.status == "running" && row.value.request.None?
      ensures row.None? ==> Contents() == old(Contents())
      ensures Contents() == Tables(AfterClaim(old(runs), runId, now), old(trail))
      ensures OnlyRow(old(runs), runs, runId)
      ensures row.Some? ==>
                runs[runId] == old(runs)[runId].(status := "running", request := None, updatedAt := runs[runId].updatedAt)
                && runs[runId].updatedAt == now
    {
      if Waiting(runs, runId) {
        runs := runs[runId := runs[runId].(status := "running", request := None, updatedAt := now)];
        row := Some(runs[runId]);
      } else {
        row := None;
      }
    }

    /** Besides the attempt and the update time, every column of every row is as it was. */
    method SetFlowRunAttempt(runId: string, attempt: Option<Json>, now: int)
      modifies this
      ensures Contents() == Tables(AfterSetAttempt(old(runs), runId, attempt, now), old(trail))
      ensures OnlyRow(old(runs), runs, runId)
      ensures runId in runs ==>
                runs[runId].attempt == attempt
                && runs[runId] == old(runs)[runId].(attempt := runs[runId].attempt, updatedAt := runs[runId].updatedAt)
    {
      if runId in runs {
        runs := runs[runId := runs[runId].(attempt := attempt, updatedAt := now)];
      }
    }

    /** Besides the request and the update time, every column of every row is as it was. */
    method SetFlowRunRequest(runId: string, request: Option<string>, now: int)
      modifies this
      ensures Contents() == Tables(AfterSetRequest(old(runs), runId, request, now), old(trail))
      ensures OnlyRow(old(runs), runs, runId)
      ensures runId in runs ==>
                runs[runId].request == request
                && runs[runId] == old(runs)[runId].(request := runs[runId].request, updatedAt := runs[runId].updatedAt)
    {
      if runId in runs {
        runs := runs[runId := runs[runId].(request := request, updatedAt := now)];
      }
    }

    /** Two statements against the transaction's own copy; a crash between them rolls both back. */
    method RecordFlowCheckpoint(cp: CheckpointInput, run: RunInput, now: int, commits: bool)
      modifies this
      ensures Contents() == if commits then AfterCheckpoint(old(Contents()), cp, run, now) else old(Contents())
      ensures commits && run.runId in old(runs) ==>
                && OnlyRow(old(runs), runs, run.runId)
                && Moved(runs[run.runId], run, now) && KeepsOwn(old(runs)[run.runId], runs[run.runId])
                && runs[run.runId].flowId == old(runs)[run.runId].flowId
                && runs[run.runId].principal == old(runs)[run.runId].principal
                && runs[run.runId].trigger == old(runs)[run.runId].trigger
      ensures commits && run.runId !in old(runs) ==>
                && runs.Keys == old(runs).Keys + {run.runId} && (forall id :: id in old(runs) ==> runs[id] == old(runs)[id])
                && Written(runs[run.runId], run, now)
                && runs[run.runId].request.None? && runs[run.runId].startedAt == run.startedAt
                && runs[run.runId].parentRunId.None? && runs[run.runId].parentStepId.None?
      ensures commits ==> var key := (cp.runId, cp.ordinal);
                && trail.Keys == old(trail).Keys + {key} && (forall k :: k in old(trail) && k != key ==> trail[k] == old(trail)[k])
                && trail[key].stepId == cp.row.stepId && trail[key].nextStepId == cp.row.nextStepId
                && trail[key].status == cp.row.status && trail[key].pause == cp.row.pause
                && trail[key].state == cp.row.state && trail[key].at == cp.row.at
                && trail[key].flowId == if key in old(trail) then old(trail)[key].flowId else cp.row.flowId
    {
      var tx := Contents();
      tx := tx.(trail := AfterCheckpointRow(tx.trail, cp));
      if !commits { return; }
      tx := tx.(runs := AfterCursor(tx.runs, run, now));
      runs, trail := tx.runs, tx.trail;
    }

    /** First statement of a prune: returns the ids it deleted. */
    method DeleteEndedRuns(before: int) returns (ids: set<string>)
      modifies this
      ensures ids == Prunable(old(runs), before)
      ensures Contents() == Tables(AfterDeleteRuns(old(runs), ids), old(trail))
    {
      ids := set id | id in runs && runs[id].status in ENDED && runs[id].updatedAt < before;
      runs := map id | id in runs && id !in ids :: runs[id];
    }

    /** Second statement of a prune. */
    method DeleteCheckpointsOf(ids: set<string>)
      modifies this
      ensures Contents() == Tables(old(runs), AfterDeleteTrail(old(trail), ids))
    {
      trail := map key | key in trail && key.0 !in ids :: trail[key];
    }

    method PruneFlowRunState(before: int) returns (count: nat)
      modifies this
      ensures var ids := Prunable(old(runs), before);
              && count == |ids|
              && Contents() == Tables(AfterDeleteRuns(old(runs), ids), AfterDeleteTrail(old(trail), ids))
      ensures forall id :: id in old(runs) ==>
                (id !in runs <==>
                  old(runs)[id].status in ["completed", "error", "cancelled", "max_steps"] && old(runs)[id].updatedAt < before)
      ensures forall id :: id in runs ==> id in old(runs) && runs[id] == old(runs)[id]
      ensures forall k :: k in trail <==> k in old(trail) && !(k.0 in old(runs) && k.0 !in runs)
      ensures forall k :: k in trail ==> trail[k] == old(trail)[k]
    {
      var ids := DeleteEndedRuns(before);
      if |ids| > 0 {
        DeleteCheckpointsOf(ids);
      } else {
        assert trail == AfterDeleteTrail(trail, ids);
      }
      count := |ids|;
    }
  }
}
