/**
 Crew heartbeats (`packages/flows/src/heartbeat.ts`): validation with its cadence floor, quiet
 hours, the due decision and the identity of a firing window.
 */
module Heartbeat {
  import opened Maybe
  import opened Text
  import opened Cron
  import CronClock

  datatype HeartbeatItem = HeartbeatItem(kind: string, id: string, runAs: Option<string>)

  datatype QuietHours = QuietHours(start: string, end: string)

  datatype CrewHeartbeat = CrewHeartbeat(
    crewId: string,
    schedule: string,
    timezone: Option<string>,
    quietHours: Option<QuietHours>,
    checklist: seq<HeartbeatItem>,
    principal: Option<string>,
    enabled: bool
  )

  const MAX_ITEMS: nat := 20
  const MIN_INTERVAL_MINUTES: nat := 10
  const DAY: int := 1440
  const MS_PER_MINUTE: nat := 60000

  // ---------- times of day ----------

  /** `HH:MM` to minutes since local midnight. */
  function MinuteOfDay(hhmm: string): Option<nat> {
    var s := Trim(hhmm);
    if |s| == 5 && s[2] == ':'
       && (('0' <= s[0] <= '1' && IsDigit(s[1])) || (s[0] == '2' && '0' <= s[1] <= '3'))
       && '0' <= s[3] <= '5' && IsDigit(s[4])
    then Some(ToNat(s[..2]) * 60 + ToNat(s[3..]))
    else None
  }

  function TwoDigits(n: nat): string
    requires n < 100
  {
    [DigitChar(n / 10), DigitChar(n % 10)]
  }

  /** The one way to write a minute of the day. */
  function Clock(m: nat): string
    requires m < DAY
  {
    TwoDigits(m / 60) + ":" + TwoDigits(m % 60)
  }

  lemma TwoDigitsRead(s: string)
    requires |s| == 2 && OnlyDigits(s)
    ensures ToNat(s) < 100 && s == TwoDigits(ToNat(s))
    ensures ToNat(s) == 10 * (s[0] as int - '0' as int) + (s[1] as int - '0' as int)
  {
    assert s[..1][..0] == "";
    assert ToNat(s[..1]) == s[0] as int - '0' as int;
  }

  lemma ClockOf(h: nat, n: nat)
    requires h < 24 && n < 60
    ensures h * 60 + n < DAY && Clock(h * 60 + n) == TwoDigits(h) + ":" + TwoDigits(n)
  {
  }

  lemma ClockBack(h: nat, n: nat)
    requires h < 24 && n < 60
    ensures MinuteOfDay(TwoDigits(h) + ":" + TwoDigits(n)) == Some(h * 60 + n)
  {
    var t := TwoDigits(h) + ":" + TwoDigits(n);
    TrimFixes(t);
    assert t[..2] == TwoDigits(h) && t[3..] == TwoDigits(n);
    TwoDigitsRead(t[..2]);
    TwoDigitsRead(t[3..]);
  }

  lemma ClockForward(t: string)
    requires Trimmed(t) && MinuteOfDay(t).Some?
    ensures MinuteOfDay(t).value < DAY && t == Clock(MinuteOfDay(t).value)
  {
    TrimFixes(t);
    var hh, nn := t[..2], t[3..];
    TwoDigitsRead(hh);
    TwoDigitsRead(nn);
    assert t == hh + ":" + nn;
    ClockOf(ToNat(hh), ToNat(nn));
  }

  /** A text reads as a minute exactly when, trimmed, it is that minute's clock face. */
  lemma ClockReads(s: string, m: nat)
    ensures MinuteOfDay(s) == Some(m) <==> m < DAY && Trim(s) == Clock(m)
  {
    var lead, trail := TrimSplits(s);
    TrimTwice(s);
    assert MinuteOfDay(s) == MinuteOfDay(Trim(s));
    if MinuteOfDay(s).Some? { ClockForward(Trim(s)); }
    if m < DAY && Trim(s) == Clock(m) { ClockBack(m / 60, m % 60); }
  }

  // ---------- quiet hours ----------

  /** The comparison the code makes: one range, or two when the window wraps midnight. */
  predicate QuietAt(start: nat, end: nat, at: nat) {
    start != end && if start < end then start <= at < end else at >= start || at < end
  }

  /** Quiet hours are the arc of the day that runs from start to end. */
  lemma QuietIsArc(start: nat, end: nat, at: nat)
    requires start < DAY && end < DAY && at < DAY
    ensures QuietAt(start, end, at) <==> (at - start) % DAY < (end - start) % DAY
  {
  }

  lemma Wrap(d: int)
    requires -DAY < d < DAY
    ensures d % DAY == if d < 0 then d + DAY else d
  {
  }

  function Quiet(start: nat, end: nat): set<int> {
    set at | 0 <= at < DAY && QuietAt(start, end, at)
  }

  /** The minutes from `lo` up to `hi`. */
  function Minutes(lo: int, hi: int): (s: set<int>)
    requires lo <= hi
    ensures forall at :: at in s <==> lo <= at < hi
    ensures |s| == hi - lo
    decreases hi - lo
  {
    if lo < hi then Minutes(lo, hi - 1) + {hi - 1} else {}
  }

  lemma PlainQuiet(start: nat, end: nat)
    requires start <= end < DAY
    ensures |Quiet(start, end)| == end - start
  {
    assert Quiet(start, end) == Minutes(start, end);
  }

  lemma WrappedQuiet(start: nat, end: nat, midnight: int)
    requires end < start < DAY && midnight == DAY
    ensures |Quiet(start, end)| == end - start + DAY
  {
    var late, early := Minutes(start, midnight), Minutes(0, end);
    assert late !! early;
    assert Quiet(start, end) == late + early;
  }

  /** A day holds exactly as many quiet minutes as the arc is long, and swapping the ends gives the rest of the day. */
  lemma QuietMinutes(start: nat, end: nat)
    requires start < DAY && end < DAY
    ensures |Quiet(start, end)| == (end - start) % DAY
    ensures start != end ==> forall at :: 0 <= at < DAY ==> (at in Quiet(end, start) <==> at !in Quiet(start, end))
  {
    Wrap(end - start);
    if start <= end {
      PlainQuiet(start, end);
    } else {
      WrappedQuiet(start, end, DAY);
    }
  }

  function InQuietHours(config: CrewHeartbeat, at: ZonedParts): bool {
    match config.quietHours
    case None => false
    case Some(quiet) =>
      var start, end := MinuteOfDay(quiet.start), MinuteOfDay(quiet.end);
      if start.None? || end.None? then false
      else
        var now := at.hour * 60 + at.minute;
        now >= 0 && QuietAt(start.value, end.value, now)
  }

  /** With a readable window, a local minute is quiet exactly when it lies on the arc; otherwise nothing is. */
  lemma InQuietHoursIsArc(config: CrewHeartbeat, at: ZonedParts, start: nat, end: nat)
    requires config.quietHours.Some? && 0 <= at.hour < 24 && 0 <= at.minute < 60
    ensures MinuteOfDay(config.quietHours.value.start) == Some(start) && MinuteOfDay(config.quietHours.value.end) == Some(end) ==>
              (InQuietHours(config, at) <==> (at.hour * 60 + at.minute - start) % DAY < (end - start) % DAY)
    ensures InQuietHours(config, at) ==>
              MinuteOfDay(config.quietHours.value.start).Some? && MinuteOfDay(config.quietHours.value.end).Some?
  {
    ClockReads(config.quietHours.value.start, start);
    ClockReads(config.quietHours.value.end, end);
    if start < DAY && end < DAY { QuietIsArc(start, end, at.hour * 60 + at.minute); }
  }

  // ---------- validation ----------

  datatype Complaint =
    | CrewIdRequired
    | BadSchedule
    | TooDense(gap: int)
    | UnknownZone
    | BadQuietHours
    | EmptyChecklist
    | TooManyItems
    | UnknownKind(at: nat)
    | IdRequired(at: nat)
    | BadRunAs(at: nat)
    | BadPrincipal

  /** What each complaint is about. `known` is the runtime's list of zone names. */
  ghost predicate Faulty(config: CrewHeartbeat, known: string -> bool, c: Complaint) {
    match c
    case CrewIdRequired => Trim(config.crewId) == ""
    case BadSchedule => CronSets(config.schedule).None?
    case TooDense(gap) =>
      CronSets(config.schedule).Some? && IsMinuteGap(CronSets(config.schedule).value[0], gap) && gap < MIN_INTERVAL_MINUTES
    case UnknownZone => Trim(OrEmpty(config.timezone)) != "" && !known(Trim(OrEmpty(config.timezone)))
    case BadQuietHours =>
      config.quietHours.Some?
      && (MinuteOfDay(config.quietHours.value.start).None? || MinuteOfDay(config.quietHours.value.end).None?)
    case EmptyChecklist => config.enabled && config.checklist == []
    case TooManyItems => |config.checklist| > MAX_ITEMS
    case UnknownKind(at) => at < |config.checklist| && config.checklist[at].kind != "flow" && config.checklist[at].kind != "skill"
    case IdRequired(at) => at < |config.checklist| && Trim(config.checklist[at].id) == ""
    case BadRunAs(at) =>
      at < |config.checklist| && config.checklist[at].runAs.Some? && !IsAddress(Trim(config.checklist[at].runAs.value))
    case BadPrincipal => config.principal.Some? && !IsAddress(Trim(config.principal.value))
  }

  predicate AboutItem(c: Complaint) {
    c.UnknownKind? || c.IdRequired? || c.BadRunAs?
  }

  /** A configuration nothing is wrong with. */
  ghost predicate Accepted(config: CrewHeartbeat, known: string -> bool) {
    forall c :: !Faulty(config, known, c)
  }

  /** Exactly the faults are reported, and the configuration is accepted exactly when there are none. */
  method ValidateHeartbeat(config: CrewHeartbeat, known: string -> bool) returns (ok: bool, errors: seq<Complaint>)
    ensures forall c :: c in errors <==> Faulty(config, known, c)
    ensures ok <==> Accepted(config, known)
  {
    var crew: seq<Complaint> := if Trim(config.crewId) == "" then [CrewIdRequired] else [];
    var cadence := CadenceComplaints(config, known);
    var shape := ShapeComplaints(config, known);
    var items := ItemComplaints(config, known);
    errors := crew + cadence + shape + items;
    if config.principal.Some? && !IsAddress(Trim(config.principal.value)) { errors := errors + [BadPrincipal]; }
    ok := |errors| == 0;
    assert !ok ==> Faulty(config, known, errors[0]) by { if !ok { assert errors[0] in errors; } }
  }

  method ShapeComplaints(config: CrewHeartbeat, known: string -> bool) returns (errors: seq<Complaint>)
    ensures forall c :: c in errors <==>
              (c.UnknownZone? || c.BadQuietHours? || c.EmptyChecklist? || c.TooManyItems?)
              && Faulty(config, known, c)
  {
    var timezone := Trim(OrEmpty(config.timezone));
    var zone: seq<Complaint> := if timezone != "" && !known(timezone) then [UnknownZone] else [];
    var quiet: seq<Complaint> := [];
    if config.quietHours.Some? {
      var start := MinuteOfDay(config.quietHours.value.start);
      var end := MinuteOfDay(config.quietHours.value.end);
      if start.None? || end.None? { quiet := [BadQuietHours]; }
    }
    var empty: seq<Complaint> := if config.enabled && |config.checklist| == 0 then [EmptyChecklist] else [];
    var size: seq<Complaint> := if |config.checklist| > MAX_ITEMS then [TooManyItems] else [];
    errors := zone + quiet + empty + size;
  }

  method CadenceComplaints(config: CrewHeartbeat, known: string -> bool) returns (errors: seq<Complaint>)
    ensures forall c :: c in errors <==> (c.BadSchedule? || c.TooDense?) && Faulty(config, known, c)
  {
    var schedule := Trim(config.schedule);
    TrimmedSame(config.schedule);
    var gap := CronMinuteGap(schedule);
    if gap.None? { return [BadSchedule]; }
    ghost var minutes := CronSets(config.schedule).value[0];
    forall g ensures Faulty(config, known, TooDense(g)) <==> g == gap.value < MIN_INTERVAL_MINUTES {
      OneGap(minutes, gap.value, g);
    }
    errors := if gap.value < MIN_INTERVAL_MINUTES then [TooDense(gap.value)] else [];
  }

  lemma OneGap(minutes: set<int>, g: int, h: int)
    requires IsMinuteGap(minutes, g)
    ensures IsMinuteGap(minutes, h) <==> h == g
  {
  }

  method ItemComplaints(config: CrewHeartbeat, known: string -> bool) returns (errors: seq<Complaint>)
    ensures forall c :: c in errors <==> AboutItem(c) && Faulty(config, known, c)
  {
    errors := [];
    var items := config.checklist;
    for i := 0 to |items|
      invariant forall c :: c in errors <==> AboutItem(c) && c.at < i && Faulty(config, known, c)
    {
      var item := items[i];
      var kind: seq<Complaint> := if item.kind != "flow" && item.kind != "skill" then [UnknownKind(i)] else [];
      var id: seq<Complaint> := if Trim(item.id) == "" then [IdRequired(i)] else [];
      var runAs: seq<Complaint> :=
        if item.runAs.Some? && !IsAddress(Trim(item.runAs.value)) then [BadRunAs(i)] else [];
      var found := kind + id + runAs;
      assert forall c :: c in found <==> AboutItem(c) && c.at == i && Faulty(config, known, c);
      errors := errors + found;
    }
  }

  /** No configuration passes validation with firing minutes closer than the floor. */
  lemma AcceptedIsSparse(config: CrewHeartbeat, known: string -> bool)
    requires Accepted(config, known)
    ensures CronSets(config.schedule).Some?
    ensures AtLeastApart(CronSets(config.schedule).value[0], MIN_INTERVAL_MINUTES)
  {
    assert !Faulty(config, known, BadSchedule);
    MinutesInHour(config.schedule);
    var gap := GapExists(CronSets(config.schedule).value[0]);
    assert !Faulty(config, known, TooDense(gap));
  }

  /** Accepted means: every clause at once, with no reference to what is reported. */
  lemma AcceptedExactly(config: CrewHeartbeat, known: string -> bool)
    ensures Accepted(config, known) <==>
              && Trim(config.crewId) != ""
              && CronSets(config.schedule).Some? && AtLeastApart(CronSets(config.schedule).value[0], 10)
              && (Trim(OrEmpty(config.timezone)) != "" ==> known(Trim(OrEmpty(config.timezone))))
              && (config.quietHours.Some? ==> IsClock(config.quietHours.value.start) && IsClock(config.quietHours.value.end))
              && (config.enabled ==> config.checklist != []) && |config.checklist| <= 20
              && (forall i :: 0 <= i < |config.checklist| ==> GoodItem(config.checklist[i]))
              && (config.principal.Some? ==> IsAddress(Trim(config.principal.value)))
  {
    if Accepted(config, known) {
      AcceptedIsSparse(config, known);
      AcceptedHasNoFault(config, known);
      AcceptedItems(config, known);
    } else {
      var c :| Faulty(config, known, c);
      if CronSets(config.schedule).Some? && AtLeastApart(CronSets(config.schedule).value[0], 10)
         && (config.quietHours.Some? ==> IsClock(config.quietHours.value.start) && IsClock(config.quietHours.value.end)) {
        FaultShows(config, known, c);
      }
    }
  }

  predicate GoodItem(item: HeartbeatItem) {
    item.kind in ["flow", "skill"] && Trim(item.id) != "" && (item.runAs.Some? ==> IsAddress(Trim(item.runAs.value)))
  }

  /** Trimmed, the text is the clock face of some minute. */
  ghost predicate IsClock(s: string) {
    exists m: nat :: m < DAY && Trim(s) == Clock(m)
  }

  lemma ClockIsRead(s: string)
    ensures IsClock(s) <==> MinuteOfDay(s).Some?
  {
    if MinuteOfDay(s).Some? { ClockReads(s, MinuteOfDay(s).value); }
    if m: nat :| m < DAY && Trim(s) == Clock(m) { ClockReads(s, m); }
  }

  lemma AcceptedItems(config: CrewHeartbeat, known: string -> bool)
    requires Accepted(config, known)
    ensures forall i :: 0 <= i < |config.checklist| ==> GoodItem(config.checklist[i])
  {
    forall i | 0 <= i < |config.checklist| ensures GoodItem(config.checklist[i]) {
      assert !Faulty(config, known, UnknownKind(i)) && !Faulty(config, known, IdRequired(i)) && !Faulty(config, known, BadRunAs(i));
    }
  }

  lemma AcceptedHasNoFault(config: CrewHeartbeat, known: string -> bool)
    requires Accepted(config, known)
    ensures Trim(config.crewId) != "" && (Trim(OrEmpty(config.timezone)) != "" ==> known(Trim(OrEmpty(config.timezone))))
    ensures config.quietHours.Some? ==> IsClock(config.quietHours.value.start) && IsClock(config.quietHours.value.end)
    ensures (config.enabled ==> config.checklist != []) && |config.checklist| <= 20
    ensures config.principal.Some? ==> IsAddress(Trim(config.principal.value))
  {
    assert !Faulty(config, known, CrewIdRequired) && !Faulty(config, known, UnknownZone) && !Faulty(config, known, BadQuietHours);
    assert !Faulty(config, known, EmptyChecklist) && !Faulty(config, known, TooManyItems) && !Faulty(config, known, BadPrincipal);
    if config.quietHours.Some? {
      ClockIsRead(config.quietHours.value.start);
      ClockIsRead(config.quietHours.value.end);
    }
  }

  lemma FaultShows(config: CrewHeartbeat, known: string -> bool, c: Complaint)
    requires Faulty(config, known, c)
    requires CronSets(config.schedule).Some? && AtLeastApart(CronSets(config.schedule).value[0], 10)
    requires config.quietHours.Some? ==> IsClock(config.quietHours.value.start) && IsClock(config.quietHours.value.end)
    ensures || Trim(config.crewId) == ""
            || (Trim(OrEmpty(config.timezone)) != "" && !known(Trim(OrEmpty(config.timezone))))
            || (config.enabled && config.checklist == []) || |config.checklist| > 20
            || (exists i :: 0 <= i < |config.checklist| && !GoodItem(config.checklist[i]))
            || (config.principal.Some? && !IsAddress(Trim(config.principal.value)))
  {
    if config.quietHours.Some? {
      ClockIsRead(config.quietHours.value.start);
      ClockIsRead(config.quietHours.value.end);
    }
    if AboutItem(c) { assert !GoodItem(config.checklist[c.at]); }
  }

  lemma GapExists(minutes: set<int>) returns (gap: int)
    requires minutes != {}
    ensures IsMinuteGap(minutes, gap)
  {
    var waits := set a, b | a in minutes && b in minutes :: Wait(a, b);
    HasMember(minutes);
    var m :| m in minutes;
    assert Wait(m, m) in waits;
    gap := LeastOf(waits);
    var x, y :| x in minutes && y in minutes && gap == Wait(x, y);
    forall a, b | a in minutes && b in minutes ensures gap <= Wait(a, b) {
      assert Wait(a, b) in waits;
    }
  }

  lemma {:induction false} LeastOf(s: set<int>) returns (least: int)
    requires s != {}
    ensures least in s && forall v :: v in s ==> least <= v
  {
    HasMember(s);
    var v :| v in s;
    if s == {v} {
      least := v;
    } else {
      var rest := LeastOf(s - {v});
      least := if rest < v then rest else v;
      assert forall w :: w in s ==> w == v || w in s - {v};
    }
  }

  // ---------- due ----------

  datatype Due = Due | NotDue(reason: Reason)

  datatype Reason = Disabled | Empty | InQuiet | NotScheduled

  /** The minute an instant in milliseconds since the epoch falls in. */
  function MinuteOf(now: int): (minute: int)
    ensures minute * 60000 <= now < (minute + 1) * 60000
  {
    now / MS_PER_MINUTE
  }

  ghost function HeartbeatDue(config: CrewHeartbeat, now: int, zone: Zone): Due {
    if !config.enabled then NotDue(Disabled)
    else if config.checklist == [] then NotDue(Empty)
    else if InQuietHours(config, zone(MinuteOf(now))) then NotDue(InQuiet)
    else if !CronMatchesInZone(config.schedule, MinuteOf(now), zone) then NotDue(NotScheduled)
    else Due
  }

  /** The wall clock stands on the arc of the day that the window's two clock faces bound. */
  ghost predicate OnQuietArc(config: CrewHeartbeat, at: ZonedParts) {
    config.quietHours.Some? && exists start, end :: BoundsArc(config.quietHours.value, start, end, at)
  }

  predicate BoundsArc(quiet: QuietHours, start: nat, end: nat, at: ZonedParts) {
    && start < DAY && end < DAY && Trim(quiet.start) == Clock(start) && Trim(quiet.end) == Clock(end)
    && (at.hour * 60 + at.minute - start) % DAY < (end - start) % DAY
  }

  lemma QuietBetween(config: CrewHeartbeat, at: ZonedParts, start: nat, end: nat)
    requires 0 <= at.hour < 24 && 0 <= at.minute < 60 && config.quietHours.Some?
    requires MinuteOfDay(config.quietHours.value.start) == Some(start) && MinuteOfDay(config.quietHours.value.end) == Some(end)
    ensures InQuietHours(config, at) <==> BoundsArc(config.quietHours.value, start, end, at)
  {
    ClockReads(config.quietHours.value.start, start);
    ClockReads(config.quietHours.value.end, end);
    InQuietHoursIsArc(config, at, start, end);
  }

  lemma QuietOnArc(config: CrewHeartbeat, at: ZonedParts)
    requires 0 <= at.hour < 24 && 0 <= at.minute < 60
    ensures InQuietHours(config, at) <==> OnQuietArc(config, at)
  {
    if InQuietHours(config, at) {
      var quiet := config.quietHours.value;
      QuietBetween(config, at, MinuteOfDay(quiet.start).value, MinuteOfDay(quiet.end).value);
    }
    if OnQuietArc(config, at) {
      var quiet := config.quietHours.value;
      var start, end :| BoundsArc(quiet, start, end, at);
      ClockReads(quiet.start, start);
      ClockReads(quiet.end, end);
      QuietBetween(config, at, start, end);
    }
  }

  /**
   A heartbeat is due exactly when it is on, has work, every field of its schedule's text shows its hand
   of the wall clock and the clock is off the quiet arc; otherwise the reason is the first of: off, no work, quiet, not
   scheduled.
   */
  lemma DueAsWritten(config: CrewHeartbeat, now: int, zone: Zone)
    requires var at := zone(MinuteOf(now)); 0 <= at.hour < 24 && 0 <= at.minute < 60
    ensures var at := zone(MinuteOf(now));
            var quiet, scheduled := OnQuietArc(config, at), CronClock.ShowsClock(config.schedule, at);
            match HeartbeatDue(config, now, zone)
            case Due => config.enabled && config.checklist != [] && scheduled && !quiet
            case NotDue(Disabled) => !config.enabled
            case NotDue(Empty) => config.enabled && config.checklist == []
            case NotDue(InQuiet) => config.enabled && config.checklist != [] && quiet
            case NotDue(NotScheduled) => config.enabled && config.checklist != [] && !quiet && !scheduled
  {
    QuietOnArc(config, zone(MinuteOf(now)));
    CronClock.MatchesHandByHand(config.schedule, MinuteOf(now), zone);
  }

  /** A firing window: one crew and one minute, or a run somebody pressed for. */
  datatype WindowKey = Window(crewId: string, minute: int) | Pressed(crewId: string, stamp: string)

  function HeartbeatWindowKey(config: CrewHeartbeat, now: int): WindowKey {
    Window(config.crewId, MinuteOf(now))
  }
}
