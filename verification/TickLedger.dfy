/**
 The heartbeat tick table (`packages/db/src/heartbeat.ts`): a claim is an insert that does nothing on
 conflict, a settle updates the row it names, a prune deletes rows by age. Each statement is atomic.
 */
module TickLedger {
  import opened Maybe
  import Heartbeat

  /** The unique key of the table. */
  datatype TickKey = TickKey(crewId: string, window: Heartbeat.WindowKey)

  datatype Outcome = Outcome(status: string, items: Option<string>, messageId: Option<string>, usage: Option<string>)

  datatype TickRow = TickRow(outcome: Outcome, startedAt: int, finishedAt: Option<int>)

  const RETENTION_DAYS: nat := 30
  const MS_PER_DAY: nat := 86400000

  type Ledger = map<TickKey, TickRow>

  const RUNNING: Outcome := Outcome("running", None, None, None)

  function AfterClaim(rows: Ledger, key: TickKey, clock: int): Ledger {
    if key in rows then rows else rows[key := TickRow(RUNNING, clock, None)]
  }

  function AfterSettle(rows: Ledger, key: TickKey, outcome: Outcome, clock: int): Ledger {
    if key in rows then rows[key := TickRow(outcome, rows[key].startedAt, Some(clock))] else rows
  }

  function AfterPrune(rows: Ledger, days: nat, clock: int): Ledger {
    map key | key in rows && rows[key].startedAt >= clock - days * MS_PER_DAY :: rows[key]
  }

  class CrewHeartbeatTicks {
    var rows: Ledger

    constructor ()
      ensures rows == map[]
    {
      rows := map[];
    }

    /** The insert is the claim: true exactly for the caller whose row landed. */
    method ClaimCrewHeartbeatTick(key: TickKey, clock: int) returns (won: bool)
      modifies this
      ensures won <==> key !in old(rows)
      ensures rows == AfterClaim(old(rows), key, clock)
      ensures rows.Keys == old(rows).Keys + {key} && forall k :: k in old(rows) ==> rows[k] == old(rows)[k]
      ensures won ==> rows[key].startedAt == clock && rows[key].finishedAt.None? && rows[key].outcome.status == "running"
    {
      won := key !in rows;
      if won {
        rows := rows[key := TickRow(RUNNING, clock, None)];
      }
    }

    /** Only the named row changes, and it keeps its start; no row appears or goes. */
    method SettleCrewHeartbeatTick(key: TickKey, outcome: Outcome, clock: int)
      modifies this
      ensures rows == AfterSettle(old(rows), key, outcome, clock)
      ensures rows.Keys == old(rows).Keys
      ensures forall k :: k in rows && k != key ==> rows[k] == old(rows)[k]
      ensures key in rows ==>
                && rows[key].outcome == outcome && rows[key].finishedAt == Some(clock)
                && rows[key].startedAt == old(rows)[key].startedAt
    {
      if key in rows {
        rows := rows[key := TickRow(outcome, rows[key].startedAt, Some(clock))];
      }
    }

    /** A row stays, as it is, exactly when it started no earlier than the cutoff; none appears. */
    method PruneCrewHeartbeatTicks(days: nat, clock: int)
      modifies this
      ensures rows == AfterPrune(old(rows), days, clock)
      ensures forall k :: k in rows <==> k in old(rows) && old(rows)[k].startedAt + days * MS_PER_DAY >= clock
      ensures forall k :: k in rows ==> rows[k] == old(rows)[k]
    {
      var cutoff := clock - days * MS_PER_DAY;
      rows := map key | key in rows && !(rows[key].startedAt < cutoff) :: rows[key];
    }
  }
}
