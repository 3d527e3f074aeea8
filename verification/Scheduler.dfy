/** The backup scheduler: a daily backup and a weekly check, armed with a random delay. */
module Scheduler {
  // A state file carries the last triggered occurrence of each over restarts. Instants are integers (nanoseconds
  // since the Unix epoch) in a zone with a fixed offset; stored triggers are whole Unix seconds.

  import opened Options

  type Time = int

  const SECOND: int := 1_000_000_000
  const MINUTE: int := 60 * SECOND
  const HOUR: int := 60 * MINUTE
  const DAY: int := 24 * HOUR

  // ----- occurrences -----

  /** A schedule and its wall clock; zone is the offset from UTC in seconds, weekday 0 is Sunday. */
  datatype Schedule =
    | Daily(zone: int, hh: int, mm: int)
    | Weekly(zone: int, hh: int, mm: int, weekday: int)
  {
    // What parseHHMM and the weekday parser let through
    ghost predicate Parsed() {
      0 <= hh < 24 && 0 <= mm < 60 && (Weekly? ==> 0 <= weekday < 7)
    }
  }

  function DayOf(s: Schedule, t: Time): int {
    (t + s.zone * SECOND) / DAY
  }

  // 1970-01-01 was a Thursday.
  function WeekdayOf(day: int): int {
    (day + 4) % 7
  }

  // time.Date(year, month, day, hh, mm, 0, 0, zone), days counted from the epoch
  function OnDay(s: Schedule, day: int): Time {
    day * DAY + s.hh * HOUR + s.mm * MINUTE - s.zone * SECOND
  }

  function MostRecent(s: Schedule, now: Time): Time {
    var today := DayOf(s, now);
    match s
    case Daily(_, _, _) =>
      if OnDay(s, today) > now then OnDay(s, today - 1) else OnDay(s, today)
    case Weekly(_, _, _, weekday) =>
      var daysSince := (WeekdayOf(today) - weekday + 7) % 7;
      if OnDay(s, today - daysSince) > now then OnDay(s, today - daysSince - 7) else OnDay(s, today - daysSince)
  }

  function Next(s: Schedule, now: Time): Time {
    var today := DayOf(s, now);
    match s
    case Daily(_, _, _) =>
      if OnDay(s, today) <= now then OnDay(s, today + 1) else OnDay(s, today)
    case Weekly(_, _, _, weekday) =>
      var daysUntil := (weekday - WeekdayOf(today) + 7) % 7;
      if OnDay(s, today + daysUntil) <= now then OnDay(s, today + daysUntil + 7) else OnDay(s, today + daysUntil)
  }

  /** t is an instant at which the wall clock shows the schedule's time (and day). */
  predicate Occurs(s: Schedule, t: Time) {
    (t + s.zone * SECOND) % DAY == s.hh * HOUR + s.mm * MINUTE && FallsOn(s, DayOf(s, t))
  }

  predicate FallsOn(s: Schedule, day: int) {
    s.Weekly? ==> WeekdayOf(day) == s.weekday
  }

  /** In plain numbers, that minute of the day, with days counted from 1 January 1970 and weeks from Sunday,
      4 January 1970. */
  predicate OccursOn(s: Schedule, t: Time, day: int) {
    && t == (day * 86400 + s.hh * 3600 + s.mm * 60 - s.zone) * 1_000_000_000
    && (s.Weekly? ==> (day - 3 - s.weekday) % 7 == 0)
  }

  lemma SameDay(s: Schedule, day: int)
    requires s.Parsed()
    ensures OnDay(s, day) == (day * 86400 + s.hh * 3600 + s.mm * 60 - s.zone) * 1_000_000_000
    ensures FallsOn(s, day) <==> (s.Weekly? ==> (day - 3 - s.weekday) % 7 == 0)
  {}

  lemma OccursExactly(s: Schedule, t: Time)
    requires s.Parsed()
    ensures Occurs(s, t) <==> exists day :: OccursOn(s, t, day)
  {
    if Occurs(s, t) {
      OccursOnItsDay(s, t);
      OccursThen(s, t);
      SameDay(s, DayOf(s, t));
      hide Occurs, DayOf, OnDay, FallsOn;
      assert OccursOn(s, t, DayOf(s, t));
    }
    if day :| OccursOn(s, t, day) {
      SameDay(s, day);
      OnDayOccurs(s, day);
      hide Occurs, DayOf, OnDay, FallsOn;
    }
  }

  lemma OccursThen(s: Schedule, t: Time)
    requires Occurs(s, t)
    ensures FallsOn(s, DayOf(s, t))
  {}

  lemma OccursOnItsDay(s: Schedule, t: Time)
    requires Occurs(s, t)
    ensures t == OnDay(s, DayOf(s, t))
  {}

  lemma OnDayOccurs(s: Schedule, day: int)
    requires s.Parsed()
    ensures DayOf(s, OnDay(s, day)) == day
    ensures Occurs(s, OnDay(s, day)) <==> FallsOn(s, day)
  {
    var tod := s.hh * HOUR + s.mm * MINUTE;
    assert 0 <= tod < DAY;
    DivMod(day, tod);
    assert OnDay(s, day) + s.zone * SECOND == day * DAY + tod;
  }

  lemma DivMod(day: int, tod: int)
    requires 0 <= tod < DAY
    ensures (day * DAY + tod) / DAY == day && (day * DAY + tod) % DAY == tod
  {}

  lemma LaterDayLater(s: Schedule, d: int, d': int)
    ensures d < d' <==> OnDay(s, d) < OnDay(s, d')
  {}

  // The days around now: yesterday's time is past, tomorrow's is to come.
  lemma Around(s: Schedule, now: Time)
    requires s.Parsed()
    ensures OnDay(s, DayOf(s, now) - 1) <= now < OnDay(s, DayOf(s, now) + 1)
  {}

  ghost predicate LatestDay(s: Schedule, now: Time, d: int) {
    FallsOn(s, d) && OnDay(s, d) <= now && forall x :: FallsOn(s, x) && OnDay(s, x) <= now ==> x <= d
  }

  ghost predicate FirstDay(s: Schedule, now: Time, d: int) {
    FallsOn(s, d) && now < OnDay(s, d) && forall x :: FallsOn(s, x) && now < OnDay(s, x) ==> d <= x
  }

  // Two days of one schedule are a day, or a week, apart.
  function Gap(s: Schedule): int {
    if s.Daily? then 1 else 7
  }

  lemma GapApart(s: Schedule, d: int, x: int)
    requires FallsOn(s, d) && FallsOn(s, x) && d < x
    ensures d + Gap(s) <= x
  {}

  lemma GapFits(s: Schedule, d: int)
    requires FallsOn(s, d)
    ensures FallsOn(s, d + Gap(s)) && FallsOn(s, d - Gap(s))
  {}

  // The schedule's last day up to today, and its first from today on.
  function DayUpTo(s: Schedule, today: int): (d: int)
    requires s.Parsed()
    ensures FallsOn(s, d) && d <= today < d + Gap(s)
  {
    if s.Daily? then today else today - (WeekdayOf(today) - s.weekday + 7) % 7
  }

  function DayFrom(s: Schedule, today: int): (d: int)
    requires s.Parsed()
    ensures FallsOn(s, d) && d - Gap(s) < today <= d
  {
    if s.Daily? then today else today + (s.weekday - WeekdayOf(today) + 7) % 7
  }

  lemma MostRecentByDay(s: Schedule, now: Time)
    requires s.Parsed()
    ensures var d := DayUpTo(s, DayOf(s, now));
      MostRecent(s, now) == if OnDay(s, d) > now then OnDay(s, d - Gap(s)) else OnDay(s, d)
  {}

  lemma NextByDay(s: Schedule, now: Time)
    requires s.Parsed()
    ensures var d := DayFrom(s, DayOf(s, now));
      Next(s, now) == if OnDay(s, d) <= now then OnDay(s, d + Gap(s)) else OnDay(s, d)
  {}

  lemma MostRecentDay(s: Schedule, now: Time) returns (d: int)
    requires s.Parsed()
    ensures MostRecent(s, now) == OnDay(s, d) && LatestDay(s, now, d)
  {
    hide OnDay, DayOf, MostRecent, FallsOn, DayUpTo;
    var today := DayOf(s, now);
    MostRecentByDay(s, now);
    var near := DayUpTo(s, today);
    GapFits(s, near);
    Around(s, now);
    d := if OnDay(s, near) > now then near - Gap(s) else near;
    LaterDayLater(s, today - 1, d);
    forall x | FallsOn(s, x) && OnDay(s, x) <= now ensures x <= d {
      LaterDayLater(s, x, today + 1);
      LaterDayLater(s, near, x);
      if d < x { GapApart(s, d, x); }
    }
  }

  lemma NextDay(s: Schedule, now: Time) returns (d: int)
    requires s.Parsed()
    ensures Next(s, now) == OnDay(s, d) && FirstDay(s, now, d)
  {
    hide OnDay, DayOf, Next, FallsOn, DayFrom;
    var today := DayOf(s, now);
    NextByDay(s, now);
    var near := DayFrom(s, today);
    GapFits(s, near);
    Around(s, now);
    d := if OnDay(s, near) <= now then near + Gap(s) else near;
    LaterDayLater(s, d, today + 1);
    forall x | FallsOn(s, x) && now < OnDay(s, x) ensures d <= x {
      LaterDayLater(s, today - 1, x);
      LaterDayLater(s, x, near);
      if x < d { GapApart(s, x, d); }
    }
  }

  /** mostRecentDaily and mostRecentWeekly give the latest occurrence up to now. */
  lemma MostRecentIsLatest(s: Schedule, now: Time)
    requires s.Parsed()
    ensures Occurs(s, MostRecent(s, now)) && MostRecent(s, now) <= now
    ensures forall t :: Occurs(s, t) && t <= now ==> t <= MostRecent(s, now)
  {
    hide OnDay, DayOf, MostRecent;
    var d := MostRecentDay(s, now);
    OnDayOccurs(s, d);
    forall t | Occurs(s, t) && t <= now ensures t <= MostRecent(s, now) {
      OccursOnItsDay(s, t);
      LaterDayLater(s, d, DayOf(s, t));
    }
  }

  /** nextDaily and nextWeekly give the first occurrence after now. */
  lemma NextIsFirst(s: Schedule, now: Time)
    requires s.Parsed()
    ensures Occurs(s, Next(s, now)) && now < Next(s, now)
    ensures forall t :: Occurs(s, t) && now < t ==> Next(s, now) <= t
  {
    hide OnDay, DayOf, Next;
    var d := NextDay(s, now);
    OnDayOccurs(s, d);
    forall t | Occurs(s, t) && now < t ensures Next(s, now) <= t {
      OccursOnItsDay(s, t);
      LaterDayLater(s, DayOf(s, t), d);
    }
  }

  function Unix(t: Time): int {
    t / SECOND
  }

  lemma OccursOnTheSecond(s: Schedule, t: Time)
    requires Occurs(s, t)
    ensures Unix(t) * SECOND == t
  {
    OccursOnItsDay(s, t);
    hide Occurs;
    var k := DayOf(s, t) * 86400 + s.hh * 3600 + s.mm * 60 - s.zone;
    hide DayOf;
    assert t == k * SECOND;
  }

  // Everything the loop relies on, about one instant.
  lemma Bounds(s: Schedule, t: Time)
    requires s.Parsed()
    ensures Occurs(s, MostRecent(s, t)) && Occurs(s, Next(s, t)) && MostRecent(s, t) <= t < Next(s, t)
    ensures forall x :: Occurs(s, x) ==> x <= MostRecent(s, t) || Next(s, t) <= x
    ensures Unix(MostRecent(s, t)) * SECOND == MostRecent(s, t)
  {
    hide Occurs, MostRecent, Next;
    MostRecentIsLatest(s, t);
    NextIsFirst(s, t);
    OccursOnTheSecond(s, MostRecent(s, t));
  }

  lemma SameNext(s: Schedule, t: Time, t': Time)
    requires s.Parsed() && MostRecent(s, t') <= t < Next(s, t')
    ensures Next(s, t) == Next(s, t')
  {
    hide Occurs, MostRecent, Next;
    Bounds(s, t);
    Bounds(s, t');
  }

  // ----- arming -----

  // rand.Int64N(max) for a positive max, otherwise 0
  predicate Drawn(max: int, j: int) {
    if max <= 0 then j == 0 else 0 <= j < max
  }

  function Max(a: int, b: int): int {
    if a < b then b else a
  }

  function Arm(s: Schedule, now: Time, last: int, j: int): Time {
    if last < Unix(MostRecent(s, now)) then now + j else Next(s, now) + j
  }

  /** An occurrence after the last recorded one that has passed by the time of the boot is armed within the
      jitter; otherwise the first occurrence to come is. */
  lemma MissedIsArmed(s: Schedule, now: Time, last: int, jitter: int, j: int)
    requires s.Parsed() && Drawn(jitter, j)
    ensures (exists t :: Occurs(s, t) && last * SECOND < t <= now) ==>
      now <= Arm(s, now, last, j) <= now + Max(0, jitter)
    ensures !(exists t :: Occurs(s, t) && last * SECOND < t <= now) ==>
      Next(s, now) <= Arm(s, now, last, j) <= Next(s, now) + Max(0, jitter)
  {
    hide Occurs, MostRecent, Next, Unix;
    Bounds(s, now);
  }

  /** Whatever the jitter, the trigger armed at boot can only record a later occurrence exactly when the
      stored trigger lies before the first occurrence after the clock's reading. */
  lemma ArmNeverRepeatsExactly(s: Schedule, now: Time, last: int)
    requires s.Parsed()
    ensures (forall j, t :: 0 <= j && Arm(s, now, last, j) <= t ==> last < Unix(MostRecent(s, t)))
      <==> last * SECOND < Next(s, now)
  {
    hide Occurs, MostRecent, Next, Unix;
    Bounds(s, now);
    if last * SECOND < Next(s, now) {
      forall j, t | 0 <= j && Arm(s, now, last, j) <= t ensures last < Unix(MostRecent(s, t)) {
        Bounds(s, t);
      }
    } else {
      var t := Next(s, now);
      assert Arm(s, now, last, 0) == t;
      Bounds(s, t);
      assert last >= Unix(MostRecent(s, t));
    }
  }

  // ----- the loop, its state file and its restarts -----

  datatype Config = Config(backup: Schedule, backupJitter: int, check: Schedule, checkJitter: int) {
    ghost predicate Parsed() { backup.Parsed() && check.Parsed() && backup.Daily? && check.Weekly? }
  }

  // backup_last_trigger and check_last_trigger
  datatype State = State(backup: int, check: int)

  // What a running loop holds in memory
  datatype Loop = Loop(st: State, nextBackup: Time, nextCheck: Time, booted: Time)

  /** The state file, the loop if one is running, the occurrences triggered so far and the last reading of
      the clock. */
  datatype World = World(file: Option<State>, loop: Option<Loop>, backups: seq<int>, checks: seq<int>, clock: Time)

  datatype Op =
    | Boot(now: Time, j: int, j': int)
    | WakeBackup(now: Time, j: int)
    | WakeCheck(now: Time, j: int)
    | Crash(now: Time)

  function Booted(cfg: Config, w: World, now: Time, j: int, j': int): World {
    var st := if w.file.Some? then w.file.value else State(Unix(now), Unix(now));
    w.(file := Some(st), clock := now,
       loop := Some(Loop(st, Arm(cfg.backup, now, st.backup, j), Arm(cfg.check, now, st.check, j'), now)))
  }

  function WokenBackup(cfg: Config, w: World, now: Time, j: int): World
    requires w.loop.Some?
  {
    var loop := w.loop.value;
    if now < loop.nextBackup then w.(clock := now)
    else
      var st := loop.st.(backup := Unix(MostRecent(cfg.backup, now)));
      w.(file := Some(st), loop := Some(loop.(st := st, nextBackup := Next(cfg.backup, now) + j)),
         backups := w.backups + [st.backup], clock := now)
  }

  function WokenCheck(cfg: Config, w: World, now: Time, j: int): World
    requires w.loop.Some?
  {
    var loop := w.loop.value;
    if now < loop.nextCheck then w.(clock := now)
    else
      var st := loop.st.(check := Unix(MostRecent(cfg.check, now)));
      w.(file := Some(st), loop := Some(loop.(st := st, nextCheck := Next(cfg.check, now) + j)),
         checks := w.checks + [st.check], clock := now)
  }

  /** The clock never goes back, and jitter is drawn from its range. A crash or a stop may come anywhere. */
  ghost predicate Step(cfg: Config, w: World, op: Op, w': World) {
    && w.clock <= op.now
    && match op
       case Boot(now, j, j') => Drawn(cfg.backupJitter, j) && Drawn(cfg.checkJitter, j') && w' == Booted(cfg, w, now, j, j')
       case WakeBackup(now, j) => w.loop.Some? && Drawn(cfg.backupJitter, j) && w' == WokenBackup(cfg, w, now, j)
       case WakeCheck(now, j) => w.loop.Some? && Drawn(cfg.checkJitter, j) && w' == WokenCheck(cfg, w, now, j)
       case Crash(now) => w' == w.(loop := None, clock := now)
  }

  /** The armed time lies at or after the first occurrence that is not recorded yet, and no later than the
      jitter after it, or after the boot. */
  ghost predicate Aimed(s: Schedule, jitter: int, last: int, armed: Time, booted: Time) {
    Next(s, last * SECOND) <= armed <= Max(booted, Next(s, last * SECOND)) + Max(0, jitter)
  }

  ghost predicate Recorded(s: Schedule, log: seq<int>, last: int, clock: Time) {
    && (forall i, j :: 0 <= i < j < |log| ==> log[i] < log[j])
    && (forall i :: 0 <= i < |log| ==> Occurs(s, log[i] * SECOND) && log[i] <= last)
    && last * SECOND <= clock
  }

  ghost predicate Inv(cfg: Config, w: World) {
    && (w.file.None? ==> w.backups == [] && w.checks == [] && w.loop.None?)
    && (w.file.Some? ==>
          && Recorded(cfg.backup, w.backups, w.file.value.backup, w.clock)
          && Recorded(cfg.check, w.checks, w.file.value.check, w.clock))
    && (w.loop.Some? ==>
          var l := w.loop.value;
          && w.file == Some(l.st)
          && Aimed(cfg.backup, cfg.backupJitter, l.st.backup, l.nextBackup, l.booted)
          && Aimed(cfg.check, cfg.checkJitter, l.st.check, l.nextCheck, l.booted))
  }

  lemma ArmAims(s: Schedule, jitter: int, now: Time, last: int, j: int)
    requires s.Parsed() && Drawn(jitter, j) && last * SECOND <= now
    ensures Aimed(s, jitter, last, Arm(s, now, last, j), now)
  {
    hide Occurs, MostRecent, Next, Unix;
    Bounds(s, now);
    Bounds(s, last * SECOND);
    if last >= Unix(MostRecent(s, now)) { SameNext(s, last * SECOND, now); }
  }

  lemma TriggerAims(s: Schedule, jitter: int, now: Time, j: int, booted: Time)
    requires s.Parsed() && Drawn(jitter, j)
    ensures Aimed(s, jitter, Unix(MostRecent(s, now)), Next(s, now) + j, booted)
  {
    hide Occurs, MostRecent, Next, Unix;
    Bounds(s, now);
    SameNext(s, MostRecent(s, now), now);
  }

  lemma TriggerRecords(s: Schedule, jitter: int, log: seq<int>, last: int, armed: Time, booted: Time, clock: Time, now: Time)
    requires s.Parsed() && Recorded(s, log, last, clock) && Aimed(s, jitter, last, armed, booted) && armed <= now
    ensures var occ := Unix(MostRecent(s, now));
      last < occ && Recorded(s, log + [occ], occ, now)
  {
    hide Occurs, MostRecent, Next, Unix;
    Bounds(s, now);
    Bounds(s, last * SECOND);
  }

  lemma UnixFloor(now: Time)
    ensures Unix(now) * SECOND <= now
  {}

  lemma InvStep(cfg: Config, w: World, op: Op, w': World)
    requires cfg.Parsed() && Inv(cfg, w) && Step(cfg, w, op, w')
    ensures Inv(cfg, w')
    ensures w.backups <= w'.backups && w.checks <= w'.checks
  {
    hide Occurs, MostRecent, Next, Unix, Aimed, Arm;
    match op
    case Boot(now, j, j') =>
      UnixFloor(now);
      var st := w'.file.value;
      ArmAims(cfg.backup, cfg.backupJitter, now, st.backup, j);
      ArmAims(cfg.check, cfg.checkJitter, now, st.check, j');
    case WakeBackup(now, j) =>
      var l := w.loop.value;
      if l.nextBackup <= now {
        TriggerAims(cfg.backup, cfg.backupJitter, now, j, l.booted);
        TriggerRecords(cfg.backup, cfg.backupJitter, w.backups, l.st.backup, l.nextBackup, l.booted, w.clock, now);
      }
    case WakeCheck(now, j) =>
      var l := w.loop.value;
      if l.nextCheck <= now {
        TriggerAims(cfg.check, cfg.checkJitter, now, j, l.booted);
        TriggerRecords(cfg.check, cfg.checkJitter, w.checks, l.st.check, l.nextCheck, l.booted, w.clock, now);
      }
    case Crash(now) =>
  }

  ghost predicate Run(cfg: Config, ws: seq<World>, ops: seq<Op>) {
    && |ws| == |ops| + 1
    && ws[0].loop.None? && ws[0].backups == [] == ws[0].checks
    && (ws[0].file.Some? ==> Max(ws[0].file.value.backup, ws[0].file.value.check) * SECOND <= ws[0].clock)
    && forall i :: 0 <= i < |ops| ==> Step(cfg, ws[i], ops[i], ws[i + 1])
  }

  lemma {:induction false} InvRun(cfg: Config, ws: seq<World>, ops: seq<Op>, n: nat)
    requires cfg.Parsed() && Run(cfg, ws, ops) && n < |ws|
    ensures forall j :: 0 <= j <= n ==> Inv(cfg, ws[j])
  {
    if n > 0 {
      InvRun(cfg, ws, ops, n - 1);
      InvStep(cfg, ws[n - 1], ops[n - 1], ws[n]);
    }
  }

  /** Over any loops, crashes and restarts, the occurrences recorded for backups strictly increase, and so
      do those for checks; each is an occurrence of its schedule. No occurrence is triggered twice. */
  lemma TriggersStrictlyIncrease(cfg: Config, ws: seq<World>, ops: seq<Op>, n: nat)
    requires cfg.Parsed() && Run(cfg, ws, ops) && n < |ws|
    ensures forall i, j :: 0 <= i < j < |ws[n].backups| ==> ws[n].backups[i] < ws[n].backups[j]
    ensures forall i, j :: 0 <= i < j < |ws[n].checks| ==> ws[n].checks[i] < ws[n].checks[j]
    ensures forall i :: 0 <= i < |ws[n].backups| ==> Occurs(cfg.backup, ws[n].backups[i] * SECOND)
    ensures forall i :: 0 <= i < |ws[n].checks| ==> Occurs(cfg.check, ws[n].checks[i] * SECOND)
  {
    InvRun(cfg, ws, ops, n);
  }

  lemma Caught(s: Schedule, jitter: int, last: int, armed: Time, booted: Time, now: Time, t: Time)
    requires s.Parsed() && Aimed(s, jitter, last, armed, booted)
    requires Occurs(s, t) && Max(booted, t) + Max(0, jitter) <= now
    ensures t <= (if armed <= now then Unix(MostRecent(s, now)) else last) * SECOND
  {
    hide Occurs, MostRecent, Next, Unix;
    Bounds(s, now);
    Bounds(s, last * SECOND);
  }

  /** Whenever the loop looks at a job, every occurrence of it older than the jitter, counted from the boot
      if it fell before it, is recorded as triggered or was passed over for a later one. */
  lemma NoOccurrenceOverdue(cfg: Config, ws: seq<World>, ops: seq<Op>, n: nat, t: Time)
    requires cfg.Parsed() && Run(cfg, ws, ops) && n < |ops| && ws[n].loop.Some?
    ensures ws[n + 1].file.Some? || ops[n].Crash?
    ensures ops[n].WakeBackup? && Occurs(cfg.backup, t)
      && Max(ws[n].loop.value.booted, t) + Max(0, cfg.backupJitter) <= ops[n].now
      ==> t <= ws[n + 1].file.value.backup * SECOND
    ensures ops[n].WakeCheck? && Occurs(cfg.check, t)
      && Max(ws[n].loop.value.booted, t) + Max(0, cfg.checkJitter) <= ops[n].now
      ==> t <= ws[n + 1].file.value.check * SECOND
  {
    hide Occurs, MostRecent, Next, Unix, Aimed;
    InvRun(cfg, ws, ops, n);
    var now, l := ops[n].now, ws[n].loop.value;
    assert Step(cfg, ws[n], ops[n], ws[n + 1]);
    if Occurs(cfg.backup, t) && Max(l.booted, t) + Max(0, cfg.backupJitter) <= now {
      Caught(cfg.backup, cfg.backupJitter, l.st.backup, l.nextBackup, l.booted, now, t);
    }
    if Occurs(cfg.check, t) && Max(l.booted, t) + Max(0, cfg.checkJitter) <= now {
      Caught(cfg.check, cfg.checkJitter, l.st.check, l.nextCheck, l.booted, now, t);
    }
  }

  // ----- what one step does -----

  ghost predicate IsLatest(s: Schedule, now: Time, t: Time) {
    Occurs(s, t) && t <= now && forall x :: Occurs(s, x) && x <= now ==> x <= t
  }

  ghost predicate IsFirst(s: Schedule, now: Time, t: Time) {
    Occurs(s, t) && now < t && forall x :: Occurs(s, x) && now < x ==> t <= x
  }

  ghost predicate Missed(s: Schedule, last: int, now: Time) {
    exists t :: Occurs(s, t) && last * SECOND < t <= now
  }

  /** A missed occurrence is armed the drawn delay after the boot, and otherwise the first one to come, the
      drawn delay after it. */
  ghost predicate ArmedFor(s: Schedule, last: int, now: Time, j: int, armed: Time) {
    if Missed(s, last, now) then armed == now + j else IsFirst(s, now, armed - j)
  }

  lemma ArmExactly(s: Schedule, now: Time, last: int, j: int)
    requires s.Parsed()
    ensures ArmedFor(s, last, now, j, Arm(s, now, last, j))
  {
    hide Occurs, MostRecent, Next, Unix;
    Bounds(s, now);
    if last < Unix(MostRecent(s, now)) { assert Missed(s, last, now); }
  }

  /** A boot keeps the stored triggers, or starts both from this very second, triggers nothing and arms both jobs. */
  lemma BootExactly(cfg: Config, w: World, op: Op, w': World)
    requires cfg.Parsed() && op.Boot? && Step(cfg, w, op, w')
    ensures exists st ::
      && (if w.file.Some? then st == w.file.value else st.backup == st.check && st.backup * SECOND <= op.now < (st.backup + 1) * SECOND)
      && w'.file == Some(st) && w'.backups == w.backups && w'.checks == w.checks && w'.clock == op.now
      && w'.loop.Some? && w'.loop.value.st == st && w'.loop.value.booted == op.now
      && ArmedFor(cfg.backup, st.backup, op.now, op.j, w'.loop.value.nextBackup)
      && ArmedFor(cfg.check, st.check, op.now, op.j', w'.loop.value.nextCheck)
  {
    var st := w'.file.value;
    ArmExactly(cfg.backup, op.now, st.backup, op.j);
    ArmExactly(cfg.check, op.now, st.check, op.j');
    hide Arm, ArmedFor;
  }

  /** A look at the backup job triggers exactly when its time has come. It records the latest occurrence, in
      the file as well, and arms the first one to come. The check job stays as it is. */
  lemma BackupExactly(cfg: Config, w: World, op: Op, w': World)
    requires cfg.Parsed() && op.WakeBackup? && Step(cfg, w, op, w')
    ensures var l := w.loop.value;
      if op.now < l.nextBackup then w' == w.(clock := op.now)
      else exists occ, next ::
        && IsLatest(cfg.backup, op.now, occ * SECOND) && IsFirst(cfg.backup, op.now, next)
        && w' == World(Some(State(occ, l.st.check)), Some(Loop(State(occ, l.st.check), next + op.j, l.nextCheck, l.booted)),
                       w.backups + [occ], w.checks, op.now)
  {
    hide Occurs, MostRecent, Next, Unix;
    Bounds(cfg.backup, op.now);
    assert IsLatest(cfg.backup, op.now, Unix(MostRecent(cfg.backup, op.now)) * SECOND);
    assert IsFirst(cfg.backup, op.now, Next(cfg.backup, op.now));
  }

  /** And a look at the check job likewise. */
  lemma CheckExactly(cfg: Config, w: World, op: Op, w': World)
    requires cfg.Parsed() && op.WakeCheck? && Step(cfg, w, op, w')
    ensures var l := w.loop.value;
      if op.now < l.nextCheck then w' == w.(clock := op.now)
      else exists occ, next ::
        && IsLatest(cfg.check, op.now, occ * SECOND) && IsFirst(cfg.check, op.now, next)
        && w' == World(Some(State(l.st.backup, occ)), Some(Loop(State(l.st.backup, occ), l.nextBackup, next + op.j, l.booted)),
                       w.backups, w.checks + [occ], op.now)
  {
    hide Occurs, MostRecent, Next, Unix;
    Bounds(cfg.check, op.now);
    assert IsLatest(cfg.check, op.now, Unix(MostRecent(cfg.check, op.now)) * SECOND);
    assert IsFirst(cfg.check, op.now, Next(cfg.check, op.now));
  }

  // ----- what the state file stands for -----

  ghost predicate FirstBoot(ops: seq<Op>, n: nat, i: nat) {
    i < n <= |ops| && ops[i].Boot? && forall k :: 0 <= k < i ==> !ops[k].Boot?
  }

  /** Where the triggers begin: with the stored state, or in the second of the first boot. */
  ghost predicate Begins(ws: seq<World>, ops: seq<Op>, n: nat, base: State)
    requires ws != []
  {
    if ws[0].file.Some? then base == ws[0].file.value
    else exists i: nat :: FirstBoot(ops, n, i) && base.backup == base.check && base.backup * SECOND <= ops[i].now < (base.backup + 1) * SECOND
  }

  /** The last trigger of the log, or where it begins; and the log lies after that. */
  predicate LastOf(log: seq<int>, base: int, last: int) {
    last == (if log == [] then base else log[|log| - 1]) && forall i :: 0 <= i < |log| ==> log[i] > base
  }

  ghost predicate Accounted(ws: seq<World>, ops: seq<Op>, n: nat)
    requires n < |ws|
  {
    if ws[n].file.None? then ws[0].file.None? && forall k :: 0 <= k < n && k < |ops| ==> !ops[k].Boot?
    else exists base :: Begins(ws, ops, n, base) && LastOf(ws[n].backups, base.backup, ws[n].file.value.backup)
                      && LastOf(ws[n].checks, base.check, ws[n].file.value.check)
  }

  lemma BeginsLater(ws: seq<World>, ops: seq<Op>, n: nat, base: State)
    requires ws != [] && n < |ops| && Begins(ws, ops, n, base)
    ensures Begins(ws, ops, n + 1, base)
  {
    if ws[0].file.None? {
      var i: nat :| FirstBoot(ops, n, i) && base.backup == base.check && base.backup * SECOND <= ops[i].now < (base.backup + 1) * SECOND;
      assert FirstBoot(ops, n + 1, i);
    }
  }

  /** The log and the stored trigger stay, or both get the same later occurrence. */
  predicate LogsOn(log: seq<int>, last: int, log': seq<int>, last': int) {
    (log' == log && last' == last) || (log' == log + [last'] && last' > last)
  }

  lemma StepLogs(cfg: Config, w: World, op: Op, w': World)
    requires cfg.Parsed() && Inv(cfg, w) && Step(cfg, w, op, w') && w.file.Some?
    ensures w'.file.Some? && LogsOn(w.backups, w.file.value.backup, w'.backups, w'.file.value.backup)
    ensures LogsOn(w.checks, w.file.value.check, w'.checks, w'.file.value.check)
  {
    hide Occurs, MostRecent, Next, Unix, Aimed, Arm;
    match op
    case WakeBackup(now, j) =>
      var l := w.loop.value;
      if l.nextBackup <= now { TriggerRecords(cfg.backup, cfg.backupJitter, w.backups, l.st.backup, l.nextBackup, l.booted, w.clock, now); }
    case WakeCheck(now, j) =>
      var l := w.loop.value;
      if l.nextCheck <= now { TriggerRecords(cfg.check, cfg.checkJitter, w.checks, l.st.check, l.nextCheck, l.booted, w.clock, now); }
    case _ =>
  }

  lemma LastOfStep(log: seq<int>, last: int, log': seq<int>, last': int, base: int)
    requires LastOf(log, base, last) && LogsOn(log, last, log', last')
    ensures LastOf(log', base, last')
  {}

  lemma FirstStep(cfg: Config, w: World, op: Op, w': World)
    requires Inv(cfg, w) && Step(cfg, w, op, w') && w.file.None?
    ensures w'.file.Some? <==> op.Boot?
    ensures op.Boot? ==>
      && w'.backups == [] == w'.checks && w'.file.value.backup == w'.file.value.check
      && w'.file.value.backup * SECOND <= op.now < (w'.file.value.backup + 1) * SECOND
  {
    hide Arm;
  }

  lemma AccountedStep(cfg: Config, ws: seq<World>, ops: seq<Op>, n: nat)
    requires cfg.Parsed() && |ws| == |ops| + 1 && n < |ops| && Step(cfg, ws[n], ops[n], ws[n + 1]) && Inv(cfg, ws[n]) && Accounted(ws, ops, n)
    ensures Accounted(ws, ops, n + 1)
  {
    var w, op, w' := ws[n], ops[n], ws[n + 1];
    if w.file.None? {
      FirstStep(cfg, w, op, w');
      hide Inv, Step;
      if op.Boot? {
        assert FirstBoot(ops, n + 1, n);
        assert Begins(ws, ops, n + 1, w'.file.value);
      }
    } else {
      StepLogs(cfg, w, op, w');
      hide Inv, Step;
      var base :| Begins(ws, ops, n, base) && LastOf(w.backups, base.backup, w.file.value.backup) && LastOf(w.checks, base.check, w.file.value.check);
      BeginsLater(ws, ops, n, base);
      hide Begins, LastOf;
      LastOfStep(w.backups, w.file.value.backup, w'.backups, w'.file.value.backup, base.backup);
      LastOfStep(w.checks, w.file.value.check, w'.checks, w'.file.value.check, base.check);
    }
  }

  lemma {:induction false} AccountedRun(cfg: Config, ws: seq<World>, ops: seq<Op>, n: nat)
    requires cfg.Parsed() && Run(cfg, ws, ops) && n < |ws|
    ensures Accounted(ws, ops, n)
  {
    hide Step, Inv;
    if n == 0 {
      assert ws[0].file.Some? ==> Begins(ws, ops, 0, ws[0].file.value);
    } else {
      AccountedRun(cfg, ws, ops, n - 1);
      InvRun(cfg, ws, ops, n);
      hide Accounted;
      AccountedStep(cfg, ws, ops, n - 1);
    }
  }

  /** Over any loops, crashes and restarts: the stored trigger is the last one that was triggered; nothing is
      triggered from before the beginning, which is the stored state or the second of the first boot; and
      when the loop looks at a job, every later occurrence of it that is older than the jitter, counted from
      the boot if it fell before it, was triggered itself or passed over for a later one that was. */
  lemma EveryOccurrenceIsTriggered(cfg: Config, ws: seq<World>, ops: seq<Op>, n: nat)
    requires cfg.Parsed() && Run(cfg, ws, ops) && n < |ops| && ws[n].loop.Some? && (ops[n].WakeBackup? || ops[n].WakeCheck?)
    ensures ws[n + 1].file.Some?
    ensures exists base ::
      && Begins(ws, ops, n + 1, base)
      && LastOf(ws[n + 1].backups, base.backup, ws[n + 1].file.value.backup)
      && LastOf(ws[n + 1].checks, base.check, ws[n + 1].file.value.check)
      && (ops[n].WakeBackup? ==> AllTriggered(cfg.backup, cfg.backupJitter, ws[n + 1].backups, base.backup, ws[n].loop.value.booted, ops[n].now))
      && (ops[n].WakeCheck? ==> AllTriggered(cfg.check, cfg.checkJitter, ws[n + 1].checks, base.check, ws[n].loop.value.booted, ops[n].now))
  {
    AccountedRun(cfg, ws, ops, n + 1);
    NoOccurrenceOverdue(cfg, ws, ops, n, 0);
    forall t ensures ops[n].WakeBackup? && Overdue(cfg.backup, cfg.backupJitter, ws[n].loop.value.booted, ops[n].now, t) ==> t <= ws[n + 1].file.value.backup * SECOND
      ensures ops[n].WakeCheck? && Overdue(cfg.check, cfg.checkJitter, ws[n].loop.value.booted, ops[n].now, t) ==> t <= ws[n + 1].file.value.check * SECOND
    {
      hide Occurs, Run;
      NoOccurrenceOverdue(cfg, ws, ops, n, t);
    }
    hide Run, Begins, Overdue;
  }

  predicate Overdue(s: Schedule, jitter: int, booted: Time, now: Time, t: Time) {
    Occurs(s, t) && Max(booted, t) + Max(0, jitter) <= now
  }

  ghost predicate AllTriggered(s: Schedule, jitter: int, log: seq<int>, base: int, booted: Time, now: Time) {
    forall t :: Overdue(s, jitter, booted, now, t) && t > base * SECOND ==> log != [] && log[|log| - 1] * SECOND >= t
  }

  /** The scheduler itself: Run up to its loop, one turn of the loop, and its sleep. */
  class Scheduler {
    const cfg: Config
    var file: Option<State>
    var st: State
    var nextBackup: Option<Time>
    var nextCheck: Option<Time>
    ghost var booted: Time
    ghost var backups: seq<int>
    ghost var checks: seq<int>
    ghost var clock: Time

    ghost function Seen(): World
      reads this
    {
      World(file,
            if nextBackup.Some? && nextCheck.Some? then Some(Loop(st, nextBackup.value, nextCheck.value, booted)) else None,
            backups, checks, clock)
    }

    constructor (cfg: Config, file: Option<State>, clock: Time)
      ensures this.cfg == cfg && Seen() == World(file, None, [], [], clock)
    {
      this.cfg, this.file, this.clock := cfg, file, clock;
      st, nextBackup, nextCheck, backups, checks := State(0, 0), None, None, [], [];
    }

    method Start(now: Time, j: int, j': int)
      modifies this
      ensures Seen() == Booted(cfg, old(Seen()), now, j, j')
    {
      if file.Some? {
        st := file.value;
      } else {
        st := State(Unix(now), Unix(now));
        file := Some(st);
      }
      nextBackup := Some(Arm(cfg.backup, now, st.backup, j));
      nextCheck := Some(Arm(cfg.check, now, st.check, j'));
      booted, clock := now, now;
    }

    method Turn(now: Time, j: int, j': int)
      requires nextBackup.Some? && nextCheck.Some?
      modifies this
      ensures Seen() == WokenCheck(cfg, WokenBackup(cfg, old(Seen()), now, j), now, j')
    {
      hide MostRecent, Next, Unix;
      clock := now;
      if now >= nextBackup.value {
        st := st.(backup := Unix(MostRecent(cfg.backup, now)));
        file := Some(st);
        nextBackup := Some(Next(cfg.backup, now) + j);
        backups := backups + [st.backup];
      }
      if now >= nextCheck.value {
        st := st.(check := Unix(MostRecent(cfg.check, now)));
        file := Some(st);
        nextCheck := Some(Next(cfg.check, now) + j');
        checks := checks + [st.check];
      }
    }

    method Soonest() returns (t: Option<Time>)
      ensures t.None? <==> nextBackup.None? && nextCheck.None?
      ensures t.Some? ==> (t == nextBackup || t == nextCheck)
      ensures t.Some? && nextBackup.Some? ==> t.value <= nextBackup.value
      ensures t.Some? && nextCheck.Some? ==> t.value <= nextCheck.value
    {
      if nextBackup.None? { return nextCheck; }
      if nextCheck.None? { return nextBackup; }
      return if nextBackup.value < nextCheck.value then nextBackup else nextCheck;
    }

    /** The loop never sleeps past anything that is armed, nor longer than a minute, and does not sleep at
        all exactly when something is due. */
    method SleepFor(now: Time) returns (d: int)
      ensures 0 <= d <= MINUTE
      ensures nextBackup.Some? ==> now + d <= Max(now, nextBackup.value)
      ensures nextCheck.Some? ==> now + d <= Max(now, nextCheck.value)
      ensures d == 0 <==> (nextBackup.Some? && nextBackup.value <= now) || (nextCheck.Some? && nextCheck.value <= now)
      ensures d < MINUTE ==> (nextBackup.Some? && now + d >= nextBackup.value) || (nextCheck.Some? && now + d >= nextCheck.value)
    {
      var soonest := Soonest();
      if soonest.None? { return MINUTE; }
      d := soonest.value - now;
      if d < 0 { d := 0; }
      if d > MINUTE { d := MINUTE; }
    }
  }
}
