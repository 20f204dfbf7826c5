/**
 The end-to-end cadence guarantee: replicas sweep, redeliver, settle, prune and run by hand in any
 order and on clocks of their own against one tick table, and a crew's checklist still runs once for
 each dispatched firing minute and no oftener than its validated floor, as long as no sweep comes
 after a prune that may have dropped its minute.
 */
module Cadence {
  import opened Maybe
  import Cron
  import opened Heartbeat
  import opened TickLedger

  /** One atomic step of some replica, at that replica's clock. */
  datatype Step =
    | Sweep(config: CrewHeartbeat, now: int, clock: int)
    | RunNow(crewId: string, stamp: string, clock: int)
    | Settle(key: TickKey, outcome: Outcome, clock: int)
    | Prune(clock: int)

  /** The clock each named time zone shows. */
  type Zones = Option<string> -> Cron.Zone

  function KeyOf(crewId: string, minute: int): TickKey {
    TickKey(crewId, Window(crewId, minute))
  }

  ghost predicate IsDue(s: Step, zones: Zones) {
    s.Sweep? && HeartbeatDue(s.config, s.now, zones(s.config.timezone)).Due?
  }

  /** A sweep claims only when due; a pressed run claims a key no sweep uses. */
  ghost function After(rows: Ledger, s: Step, zones: Zones): Ledger {
    match s
    case Sweep(config, now, clock) =>
      if IsDue(s, zones) then AfterClaim(rows, TickKey(config.crewId, HeartbeatWindowKey(config, now)), clock) else rows
    case RunNow(crewId, stamp, clock) => AfterClaim(rows, TickKey(crewId, Pressed(crewId, stamp)), clock)
    case Settle(key, outcome, clock) => AfterSettle(rows, key, outcome, clock)
    case Prune(clock) => AfterPrune(rows, RETENTION_DAYS, clock)
  }

  /** The minute this step wins for the crew, if it wins one. */
  ghost predicate Wins(rows: Ledger, s: Step, zones: Zones, crew: string) {
    IsDue(s, zones) && s.config.crewId == crew && KeyOf(crew, MinuteOf(s.now)) !in rows
  }

  ghost function Run(rows: Ledger, steps: seq<Step>, zones: Zones): Ledger {
    if steps == [] then rows else After(Run(rows, steps[..|steps| - 1], zones), steps[|steps| - 1], zones)
  }

  /** The minutes the crew's ticks were won for, in the order they were won. */
  ghost function Won(rows: Ledger, steps: seq<Step>, zones: Zones, crew: string): seq<int> {
    if steps == [] then []
    else
      var last := steps[|steps| - 1];
      var before := Won(rows, steps[..|steps| - 1], zones, crew);
      if Wins(Run(rows, steps[..|steps| - 1], zones), last, zones, crew) then before + [MinuteOf(last.now)] else before
  }

  // ---------- each minute at most once ----------

  predicate SweepsFor(s: Step, crew: string) {
    s.Sweep? && s.config.crewId == crew
  }

  /** A replica's clock when it claims is not behind the minute it claims. */
  predicate AfterItsMinute(s: Step, crew: string) {
    SweepsFor(s, crew) ==> s.clock >= MinuteOf(s.now) * MS_PER_MINUTE
  }

  /** A prune whose clock is so late that it may drop rows of this minute. */
  predicate PrunesPast(s: Step, minute: int) {
    s.Prune? && s.clock > minute * MS_PER_MINUTE + RETENTION_DAYS * MS_PER_DAY
  }

  predicate NonePast(steps: seq<Step>, minute: int) {
    forall i :: 0 <= i < |steps| ==> !PrunesPast(steps[i], minute)
  }

  /**
   No sweep of the crew commits after a prune that may have dropped its minute. Nothing else is asked of
   the replicas' clocks: not that they agree, nor that they are read in the order of the commits.
   */
  ghost predicate NoneForgotten(steps: seq<Step>, crew: string) {
    && (forall i :: 0 <= i < |steps| ==> AfterItsMinute(steps[i], crew))
    && (forall j :: 0 <= j < |steps| && SweepsFor(steps[j], crew) ==> NonePast(steps[..j], MinuteOf(steps[j].now)))
  }

  ghost predicate StartedInTime(rows: Ledger, crew: string) {
    forall minute :: KeyOf(crew, minute) in rows ==> rows[KeyOf(crew, minute)].startedAt >= minute * MS_PER_MINUTE
  }

  lemma StepKeepsStart(rows: Ledger, s: Step, zones: Zones, crew: string)
    requires StartedInTime(rows, crew) && AfterItsMinute(s, crew)
    ensures StartedInTime(After(rows, s, zones), crew)
  {
  }

  lemma {:induction false} RunKeepsStart(rows: Ledger, steps: seq<Step>, zones: Zones, crew: string)
    requires StartedInTime(rows, crew) && forall i :: 0 <= i < |steps| ==> AfterItsMinute(steps[i], crew)
    ensures StartedInTime(Run(rows, steps, zones), crew)
  {
    if steps != [] {
      RunKeepsStart(rows, steps[..|steps| - 1], zones, crew);
      StepKeepsStart(Run(rows, steps[..|steps| - 1], zones), steps[|steps| - 1], zones, crew);
    }
  }

  /** A minute that was won keeps its row until some prune comes past it. */
  lemma {:induction false} WonIsKept(rows: Ledger, steps: seq<Step>, zones: Zones, crew: string, minute: int)
    requires StartedInTime(rows, crew) && forall i :: 0 <= i < |steps| ==> AfterItsMinute(steps[i], crew)
    requires NonePast(steps, minute) && minute in Won(rows, steps, zones, crew)
    ensures KeyOf(crew, minute) in Run(rows, steps, zones)
  {
    var init, last := steps[..|steps| - 1], steps[|steps| - 1];
    var mid := Run(rows, init, zones);
    RunKeepsStart(rows, init, zones, crew);
    if minute in Won(rows, init, zones, crew) {
      WonIsKept(rows, init, zones, crew, minute);
      assert !PrunesPast(last, minute);
      assert mid[KeyOf(crew, minute)].startedAt >= minute * MS_PER_MINUTE;
    } else {
      assert MinuteOf(last.now) == minute && KeyOf(crew, minute) in After(mid, last, zones);
    }
  }

  ghost predicate NoRepeats(xs: seq<int>) {
    forall i, j :: 0 <= i < j < |xs| ==> xs[i] != xs[j]
  }

  /** Over any interleaving, no firing minute's tick is won twice. */
  lemma {:induction false} EachMinuteAtMostOnce(rows: Ledger, steps: seq<Step>, zones: Zones, crew: string)
    requires StartedInTime(rows, crew) && NoneForgotten(steps, crew)
    ensures NoRepeats(Won(rows, steps, zones, crew))
  {
    if steps != [] {
      var init, last := steps[..|steps| - 1], steps[|steps| - 1];
      assert forall j :: 0 <= j < |init| ==> init[..j] == steps[..j];
      EachMinuteAtMostOnce(rows, init, zones, crew);
      if Wins(Run(rows, init, zones), last, zones, crew) && MinuteOf(last.now) in Won(rows, init, zones, crew) {
        WonIsKept(rows, init, zones, crew, MinuteOf(last.now));
      }
    }
  }

  // ---------- each dispatched minute at least once ----------

  ghost predicate RowsWereWon(rows: Ledger, won: seq<int>, crew: string) {
    forall minute :: KeyOf(crew, minute) in rows ==> minute in won
  }

  ghost predicate Dispatches(s: Step, zones: Zones, crew: string, minute: int) {
    IsDue(s, zones) && s.config.crewId == crew && MinuteOf(s.now) == minute
  }

  /** Some sweep of the run found the crew due in that minute. */
  ghost predicate Dispatched(steps: seq<Step>, zones: Zones, crew: string, minute: int) {
    exists i :: 0 <= i < |steps| && Dispatches(steps[i], zones, crew, minute)
  }

  lemma DispatchedSnoc(steps: seq<Step>, last: Step, zones: Zones, crew: string, minute: int)
    ensures Dispatched(steps + [last], zones, crew, minute) <==>
              Dispatched(steps, zones, crew, minute) || Dispatches(last, zones, crew, minute)
  {
    var all := steps + [last];
    assert all[|steps|] == last;
    if i :| 0 <= i < |steps| && Dispatches(steps[i], zones, crew, minute) {
      assert Dispatches(all[i], zones, crew, minute);
    }
  }

  /** From an empty table, exactly the minutes of due sweeps are won: none is lost to a replica that did not run it. */
  lemma {:induction false} ExactlyTheDispatchedMinutes(steps: seq<Step>, zones: Zones, crew: string)
    ensures RowsWereWon(Run(map[], steps, zones), Won(map[], steps, zones, crew), crew)
    ensures forall minute :: minute in Won(map[], steps, zones, crew) <==> Dispatched(steps, zones, crew, minute)
  {
    if steps != [] {
      var init, last := steps[..|steps| - 1], steps[|steps| - 1];
      ExactlyTheDispatchedMinutes(init, zones, crew);
      var won, all := Won(map[], init, zones, crew), Won(map[], steps, zones, crew);
      LastStepWon(Run(map[], init, zones), last, zones, crew, won, all);
      assert steps == init + [last];
      forall minute ensures minute in all <==> Dispatched(steps, zones, crew, minute) {
        DispatchedSnoc(init, last, zones, crew, minute);
      }
    }
  }

  lemma LastStepWon(rows: Ledger, last: Step, zones: Zones, crew: string, won: seq<int>, all: seq<int>)
    requires RowsWereWon(rows, won, crew)
    requires all == if Wins(rows, last, zones, crew) then won + [MinuteOf(last.now)] else won
    ensures RowsWereWon(After(rows, last, zones), all, crew)
    ensures forall minute :: minute in all <==> minute in won || Dispatches(last, zones, crew, minute)
  {
  }

  // ---------- how often ----------

  ghost function InSpan(xs: seq<int>, start: int, n: nat): set<int> {
    set x | x in xs && start <= x < start + n
  }

  ghost predicate Spaced(s: set<int>) {
    forall x, y :: x in s && y in s && x < y ==> y - x >= MIN_INTERVAL_MINUTES
  }

  /** A spaced set inside n consecutive minutes has at most ceil(n / 10) members. */
  lemma {:induction false} SpacedCount(s: set<int>, start: int, n: nat)
    requires Spaced(s) && forall x :: x in s ==> start <= x < start + n
    ensures |s| * MIN_INTERVAL_MINUTES <= n + MIN_INTERVAL_MINUTES - 1
    decreases n
  {
    if s == {} {
    } else if n <= MIN_INTERVAL_MINUTES {
      AtMostOne(s);
    } else {
      var later := set x | x in s && x >= start + MIN_INTERVAL_MINUTES;
      SpacedCount(later, start + MIN_INTERVAL_MINUTES, n - MIN_INTERVAL_MINUTES);
      AtMostOne(s - later);
      assert s == later + (s - later);
    }
  }

  lemma AtMostOne(s: set<int>)
    requires Spaced(s) && forall x, y :: x in s && y in s ==> y - x < MIN_INTERVAL_MINUTES
    ensures |s| <= 1
  {
    if s != {} {
      Cron.HasMember(s);
      var x :| x in s;
      forall y | y in s ensures y == x {
        assert y - x < MIN_INTERVAL_MINUTES && x - y < MIN_INTERVAL_MINUTES;
      }
      assert s == {x};
    }
  }

  /** Every sweep for the crew runs on this schedule in this zone; everything else may be edited between sweeps. */
  ghost predicate OnSchedule(steps: seq<Step>, config: CrewHeartbeat) {
    forall i :: 0 <= i < |steps| && SweepsFor(steps[i], config.crewId) ==>
      steps[i].config.schedule == config.schedule && steps[i].config.timezone == config.timezone
  }

  lemma {:induction false} WonMinutesFire(rows: Ledger, steps: seq<Step>, zones: Zones, config: CrewHeartbeat)
    requires OnSchedule(steps, config)
    ensures forall m :: m in Won(rows, steps, zones, config.crewId) ==> Cron.CronMatchesInZone(config.schedule, m, zones(config.timezone))
  {
    if steps != [] {
      var last := steps[|steps| - 1];
      assert SweepsFor(last, config.crewId) ==> last.config.schedule == config.schedule;
      WonMinutesFire(rows, steps[..|steps| - 1], zones, config);
    }
  }

  /** In this zone the schedule never fires twice within the floor. */
  ghost predicate FiresSparsely(schedule: string, zone: Cron.Zone) {
    forall x, y :: Cron.CronMatchesInZone(schedule, x, zone) && Cron.CronMatchesInZone(schedule, y, zone) && x < y ==>
      y - x >= MIN_INTERVAL_MINUTES
  }

  lemma SparseTickBound(rows: Ledger, steps: seq<Step>, zones: Zones, config: CrewHeartbeat, start: int, n: nat)
    requires FiresSparsely(config.schedule, zones(config.timezone)) && OnSchedule(steps, config)
    ensures |InSpan(Won(rows, steps, zones, config.crewId), start, n)| <= (n + 9) / 10
  {
    WonMinutesFire(rows, steps, zones, config);
    SpacedCount(InSpan(Won(rows, steps, zones, config.crewId), start, n), start, n);
  }

  /**
   In any span of n minutes at most ceil(n / 10) of an accepted heartbeat's ticks are won, however
   many replicas sweep, redeliver, settle and prune, whatever is edited besides the schedule and its
   zone, and each of them is won once.
   */
  lemma TickBound(rows: Ledger, steps: seq<Step>, zones: Zones, config: CrewHeartbeat, known: string -> bool, start: int, n: nat)
    requires Accepted(config, known) && Cron.Steady(zones(config.timezone))
    requires StartedInTime(rows, config.crewId) && NoneForgotten(steps, config.crewId) && OnSchedule(steps, config)
    ensures NoRepeats(Won(rows, steps, zones, config.crewId))
    ensures |InSpan(Won(rows, steps, zones, config.crewId), start, n)| <= (n + 9) / 10
  {
    EachMinuteAtMostOnce(rows, steps, zones, config.crewId);
    AcceptedIsSparse(config, known);
    var zone := zones(config.timezone);
    forall x, y | Cron.CronMatchesInZone(config.schedule, x, zone) && Cron.CronMatchesInZone(config.schedule, y, zone) && x < y
      ensures y - x >= MIN_INTERVAL_MINUTES
    {
      Cron.GapIsLowerBound(config.schedule, zone, x, y, MIN_INTERVAL_MINUTES);
    }
    SparseTickBound(rows, steps, zones, config, start, n);
  }

  /** The same bound across one shift of the clock by d minutes, when the minutes keep the floor across it. */
  lemma TickBoundAcrossShift(
    rows: Ledger, steps: seq<Step>, zones: Zones, config: CrewHeartbeat, known: string -> bool, at: int, d: int, start: int, n: nat)
    requires Accepted(config, known) && Cron.ShiftsOnce(zones(config.timezone), at, d)
    requires Cron.CronSets(config.schedule).Some? && Cron.KeepsGapAcross(Cron.CronSets(config.schedule).value[0], d, MIN_INTERVAL_MINUTES)
    requires StartedInTime(rows, config.crewId) && NoneForgotten(steps, config.crewId) && OnSchedule(steps, config)
    ensures NoRepeats(Won(rows, steps, zones, config.crewId))
    ensures |InSpan(Won(rows, steps, zones, config.crewId), start, n)| <= (n + 9) / 10
  {
    EachMinuteAtMostOnce(rows, steps, zones, config.crewId);
    AcceptedIsSparse(config, known);
    var zone := zones(config.timezone);
    forall x, y | Cron.CronMatchesInZone(config.schedule, x, zone) && Cron.CronMatchesInZone(config.schedule, y, zone) && x < y
      ensures y - x >= MIN_INTERVAL_MINUTES
    {
      Cron.GapAcrossShift(config.schedule, zone, at, d, x, y, MIN_INTERVAL_MINUTES);
    }
    SparseTickBound(rows, steps, zones, config, start, n);
  }

  // ---------- when a claim is forgotten ----------

  /**
   Between two sweeps of one due minute, a prune lets the minute be won again exactly when its clock is
   past the first claim by more than the retention; the second sweep's own clock does not matter.
   */
  lemma PruneBetweenRepeats(config: CrewHeartbeat, zones: Zones, now: int, claimed: int, pruned: int, again: int)
    requires HeartbeatDue(config, now, zones(config.timezone)).Due?
    ensures var m := MinuteOf(now);
            Won(map[], [Sweep(config, now, claimed)] + [Prune(pruned)] + [Sweep(config, now, again)], zones, config.crewId)
              == if pruned > claimed + 2_592_000_000 then [m, m] else [m]
  {
    var a, b, c := Sweep(config, now, claimed), Prune(pruned), Sweep(config, now, again);
    var crew, key := config.crewId, KeyOf(config.crewId, MinuteOf(now));
    OneStep(map[], a, zones, crew);
    OneMoreStep(map[], [a], b, zones, crew);
    OldRowPruned(key, claimed, pruned);
    OneMoreStep(map[], [a] + [b], c, zones, crew);
  }

  /** A redelivery later than the retention wins its minute again. */
  lemma LateRedeliveryRepeats(config: CrewHeartbeat, zones: Zones, now: int) returns (steps: seq<Step>)
    requires HeartbeatDue(config, now, zones(config.timezone)).Due?
    ensures forall i, j :: 0 <= i < j < |steps| ==> steps[i].clock <= steps[j].clock
    ensures Won(map[], steps, zones, config.crewId) == [MinuteOf(now), MinuteOf(now)]
  {
    var late := now + RETENTION_DAYS * MS_PER_DAY + 1;
    steps := [Sweep(config, now, now)] + [Prune(late)] + [Sweep(config, now, late)];
    PruneBetweenRepeats(config, zones, now, now, late, late);
  }

  /** So does a prompt one, when a pruner whose clock ran ahead committed first. */
  lemma PruneAheadRepeats(config: CrewHeartbeat, zones: Zones, now: int, clock: int, ahead: int)
    requires HeartbeatDue(config, now, zones(config.timezone)).Due? && ahead > clock + 2_592_000_000
    ensures var sweep := Sweep(config, now, clock);
            Won(map[], [sweep] + [Prune(ahead)] + [sweep], zones, config.crewId) == [MinuteOf(now), MinuteOf(now)]
  {
    PruneBetweenRepeats(config, zones, now, clock, ahead, clock);
  }

  lemma OldRowPruned(key: TickKey, started: int, clock: int)
    ensures var rows := map[key := TickRow(RUNNING, started, None)];
            AfterPrune(rows, RETENTION_DAYS, clock) == if clock > started + RETENTION_DAYS * MS_PER_DAY then map[] else rows
  {
  }

  lemma OneMoreStep(rows: Ledger, steps: seq<Step>, s: Step, zones: Zones, crew: string)
    ensures Run(rows, steps + [s], zones) == After(Run(rows, steps, zones), s, zones)
    ensures Won(rows, steps + [s], zones, crew) ==
              Won(rows, steps, zones, crew) + if Wins(Run(rows, steps, zones), s, zones, crew) then [MinuteOf(s.now)] else []
  {
  }

  lemma OneStep(rows: Ledger, s: Step, zones: Zones, crew: string)
    ensures Run(rows, [s], zones) == After(rows, s, zones)
    ensures Won(rows, [s], zones, crew) == if Wins(rows, s, zones, crew) then [MinuteOf(s.now)] else []
  {
  }
}
