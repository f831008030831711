/** The station's main program: the aggregate seeded at boot and the loop
    that, once per pass, samples the probe, sends the hourly report and sends
    the daily report with its reset. Temperatures are in tenths of a degree;
    None is a temperature the program holds as Python's None. */
module Station {
  import opened Common
  import opened TempsFile

  /** Milliseconds between two probe readings. */
  const SENSOR_READ_INTERVAL: int := 60000
  /** Readings needed before a daily report is sent. */
  const DATA_POINTS_REQ: int := 100
  /** Minute of the hour at which the hourly report goes out. */
  const HOURLY_MINUTE: int := 50
  /** Hour and minute of the daily report. */
  const DAILY_HOUR: int := 9
  const DAILY_MINUTE: int := 0
  /** Schedule 1: daily maximum only; 2: daily maximum and minimum;
      3: both daily values and the hourly report. */
  const MAX_ONLY_SCHEDULE: int := 1
  const HOURLY_SCHEDULE: int := 3

  /** The send_wow calls the loop makes, with their temperature arguments. */
  datatype Request =
    | Hourly(tempc: Option<int>)
    | DailyMax(tempc: Option<int>, maxTemp: Option<int>)
    | DailyMaxMin(tempc: Option<int>, maxTemp: Option<int>, minTemp: Option<int>)

  /** Python truth of a temperature: None and zero are false. */
  predicate Truthy(x: Option<int>) {
    x.Some? && x.value != 0
  }

  // ---------------------------------------------------------------------
  // Boot

  /** The aggregate after boot, from the boot reading and what load_temps
      returned: the loaded triple when the reading and both loaded extremes
      are truthy, else (temp, temp, 1) when there is a reading, else the
      loaded triple untouched. */
  function Seed(temp: Option<int>, loaded: Triple): Triple {
    if Truthy(temp) && Truthy(loaded.maxTemp) && Truthy(loaded.minTemp) then loaded
    else if temp.Some? then Triple(temp, temp, 1)
    else loaded
  }

  /** The three outcomes of boot seeding. */
  lemma SeedCases(temp: Option<int>, loaded: Triple)
    ensures Truthy(temp) && Truthy(loaded.maxTemp) && Truthy(loaded.minTemp) ==> Seed(temp, loaded) == loaded
    ensures !(Truthy(temp) && Truthy(loaded.maxTemp) && Truthy(loaded.minTemp)) && temp.Some?
            ==> Seed(temp, loaded) == Triple(temp, temp, 1)
    ensures temp.None? ==> Seed(temp, loaded) == loaded
  {
  }

  /** A reading of exactly 0.0 is false to Python, so it discards even a
      recent record. */
  lemma SeedZeroReading(loaded: Triple)
    ensures Seed(Some(0), loaded) == Triple(Some(0), Some(0), 1)
  {
  }

  /** Boot with a reading leaves the extremes present and ordered, provided
      a record whose extremes are both truthy is itself ordered, as every
      record a pass saves is (NextKeepsConsistent). */
  lemma SeedConsistent(temp: Option<int>, loaded: Triple)
    requires temp.Some?
    requires Truthy(loaded.maxTemp) && Truthy(loaded.minTemp) ==> Consistent(loaded)
    ensures Consistent(Seed(temp, loaded))
  {
  }

  /** Boot checks only that the record's extremes are truthy, not that they
      are ordered: a recent record with maximum 0.1 and minimum 0.9 is kept
      as it is. */
  lemma SeedKeepsUnorderedRecord()
    ensures !Consistent(Seed(Some(5), Triple(Some(1), Some(9), 3)))
  {
  }

  // ---------------------------------------------------------------------
  // One pass of the loop, as a function of the state

  /** The loop's state: the last reading (None after a failed one), the
      aggregate and the three markers. */
  datatype Vars = Vars(temp: Option<int>, agg: Triple, lastReadingMs: int, lastHour: int, lastDay: int)

  /** An aggregate whose extremes are both present and ordered. */
  predicate Consistent(a: Triple) {
    a.maxTemp.Some? && a.minTemp.Some? && a.minTemp.value <= a.maxTemp.value
  }

  /** Folding a reading t into the aggregate: count goes up by one, then t
      replaces the maximum if above it, else the minimum if below it. None is
      the TypeError Python raises on comparing t with a None extreme. */
  function Fold(a: Triple, t: int): Option<Triple> {
    var count := a.count + 1;
    if a.maxTemp.None? then None
    else if t > a.maxTemp.value then Some(Triple(Some(t), a.minTemp, count))
    else if a.minTemp.None? then None
    else if t < a.minTemp.value then Some(Triple(a.maxTemp, Some(t), count))
    else Some(Triple(a.maxTemp, a.minTemp, count))
  }

  function Max(x: int, y: int): int { if x < y then y else x }
  function Min(x: int, y: int): int { if x < y then x else y }

  /** On an ordered aggregate the elif misses no update: the extremes become
      the maximum and minimum with t, and the aggregate stays ordered. */
  lemma FoldExtremes(a: Triple, t: int)
    requires Consistent(a)
    ensures Fold(a, t) == Some(Triple(Some(Max(a.maxTemp.value, t)), Some(Min(a.minTemp.value, t)), a.count + 1))
    ensures Consistent(Fold(a, t).value)
  {
  }

  /** The fold raises exactly when the maximum is None, or t is not above
      the maximum and the minimum is None. */
  lemma FoldRaises(a: Triple, t: int)
    ensures Fold(a, t).None? <==> a.maxTemp.None? || (t <= a.maxTemp.value && a.minTemp.None?)
  {
  }

  /** Folding a run of readings, left to right; None once one raises. */
  function FoldAll(a: Triple, ts: seq<int>): Option<Triple>
    decreases |ts|
  {
    if ts == [] then Some(a)
    else match Fold(a, ts[0])
      case None => None
      case Some(b) => FoldAll(b, ts[1..])
  }

  /** From an ordered aggregate, any run of readings folds without error,
      counts each reading once, and ends with extremes that bound every
      reading and the old extremes. */
  lemma {:induction false} FoldAllBounds(a: Triple, ts: seq<int>)
    requires Consistent(a)
    ensures FoldAll(a, ts).Some?
    ensures var b := FoldAll(a, ts).value;
      && Consistent(b) && b.count == a.count + |ts|
      && b.minTemp.value <= a.minTemp.value && a.maxTemp.value <= b.maxTemp.value
      && forall i :: 0 <= i < |ts| ==> b.minTemp.value <= ts[i] <= b.maxTemp.value
    decreases |ts|
  {
    if ts != [] {
      FoldExtremes(a, ts[0]);
      var b := Fold(a, ts[0]).value;
      FoldAllBounds(b, ts[1..]);
      var c := FoldAll(b, ts[1..]).value;
      forall i | 0 <= i < |ts|
        ensures c.minTemp.value <= ts[i] <= c.maxTemp.value
      {
        if i > 0 {
          assert ts[i] == ts[1..][i - 1];
        }
      }
    }
  }

  /** The sampling step's result: the new state, the triple saved (if any)
      and whether a TypeError ended the program. */
  datatype Sampled = Sampled(vars: Vars, saved: Option<Triple>, crashed: bool)

  /** Whether a reading is due at nowMs: strictly more than the interval
      since the last accepted reading. */
  predicate Due(v: Vars, nowMs: int) {
    nowMs - v.lastReadingMs > SENSOR_READ_INTERVAL
  }

  /** Sampling: when due, temp becomes the reading; a reading that is not
      None is folded in, stamps lastReadingMs and is saved. A TypeError
      leaves the count already raised and nothing saved. */
  function Sample(v: Vars, nowMs: int, reading: Option<int>): Sampled {
    if !Due(v, nowMs) then Sampled(v, None, false)
    else if reading.None? then Sampled(v.(temp := None), None, false)
    else
      match Fold(v.agg, reading.value)
      case None => Sampled(v.(temp := reading, agg := v.agg.(count := v.agg.count + 1)), None, true)
      case Some(a) => Sampled(v.(temp := reading, agg := a, lastReadingMs := nowMs), Some(a), false)
  }

  /** A state and the send_wow calls made so far in the pass. */
  datatype Step = Step(vars: Vars, requests: seq<Request>)

  predicate HourlyDue(schedule: int, v: Vars, hour: int, minute: int) {
    hour != v.lastHour && minute == HOURLY_MINUTE && schedule == HOURLY_SCHEDULE
  }

  /** The hourly report: current temperature only, then lastHour := hour. */
  function HourlyStep(schedule: int, v: Vars, hour: int, minute: int): Step {
    if HourlyDue(schedule, v, hour, minute) then Step(v.(lastHour := hour), [Hourly(v.temp)])
    else Step(v, [])
  }

  predicate DailyDue(v: Vars, hour: int, minute: int, day: int) {
    day != v.lastDay && hour == DAILY_HOUR && minute == DAILY_MINUTE && v.agg.count > DATA_POINTS_REQ
  }

  /** The daily report: the maximum (and the minimum unless the schedule is
      1), then the aggregate restarts from temp with count 0. */
  function DailyStep(schedule: int, v: Vars, hour: int, minute: int, day: int): Step {
    if DailyDue(v, hour, minute, day) then
      var req := if schedule == MAX_ONLY_SCHEDULE then DailyMax(v.temp, v.agg.maxTemp)
                 else DailyMaxMin(v.temp, v.agg.maxTemp, v.agg.minTemp);
      Step(v.(agg := Triple(v.temp, v.temp, 0), lastDay := day), [req])
    else Step(v, [])
  }

  /** What one pass does: the new state, the send_wow calls in order, the
      triple saved, and whether the pass ended in a TypeError. */
  datatype Outcome = Outcome(vars: Vars, requests: seq<Request>, saved: Option<Triple>, crashed: bool)

  /** One pass of the main loop. */
  function Next(schedule: int, v: Vars, nowMs: int, reading: Option<int>,
                hour: int, minute: int, day: int): Outcome
  {
    var s := Sample(v, nowMs, reading);
    if s.crashed then Outcome(s.vars, [], None, true)
    else
      var h := HourlyStep(schedule, s.vars, hour, minute);
      var d := DailyStep(schedule, h.vars, hour, minute, day);
      Outcome(d.vars, h.requests + d.requests, s.saved, false)
  }

  // ---------------------------------------------------------------------
  // Properties of one pass

  /** Before the interval has passed nothing is read or saved. */
  lemma SampleNotDue(v: Vars, nowMs: int, reading: Option<int>)
    requires !Due(v, nowMs)
    ensures Sample(v, nowMs, reading) == Sampled(v, None, false)
  {
  }

  /** A None reading changes only temp: count, extremes and lastReadingMs
      stay, nothing is saved, and the next pass is due again. */
  lemma SampleNoReading(v: Vars, nowMs: int)
    requires Due(v, nowMs)
    ensures var s := Sample(v, nowMs, None);
      && s == Sampled(v.(temp := None), None, false)
      && Due(s.vars, nowMs)
  {
  }

  /** An accepted reading on an ordered aggregate: count + 1, extremes
      widened to take it in, lastReadingMs := nowMs, and the new triple is
      what is saved. */
  lemma SampleAccepted(v: Vars, nowMs: int, t: int)
    requires Due(v, nowMs) && Consistent(v.agg)
    ensures var s := Sample(v, nowMs, Some(t));
      && !s.crashed && s.vars.temp == Some(t) && s.vars.lastReadingMs == nowMs
      && s.vars.agg == Triple(Some(Max(v.agg.maxTemp.value, t)), Some(Min(v.agg.minTemp.value, t)), v.agg.count + 1)
      && s.saved == Some(s.vars.agg)
      && s.vars.lastHour == v.lastHour && s.vars.lastDay == v.lastDay
  {
    FoldExtremes(v.agg, t);
  }

  /** The hourly report goes out exactly on a new hour at minute 50 under
      schedule 3, and only then does lastHour move. */
  lemma HourlyRule(schedule: int, v: Vars, hour: int, minute: int)
    ensures var h := HourlyStep(schedule, v, hour, minute);
      && (h.requests != [] <==> hour != v.lastHour && minute == HOURLY_MINUTE && schedule == HOURLY_SCHEDULE)
      && (h.requests != [] ==> h.requests == [Hourly(v.temp)] && h.vars == v.(lastHour := hour))
      && (h.requests == [] ==> h.vars == v)
  {
  }

  /** After an hourly report, a second pass in the same hour sends none. */
  lemma HourlyOncePerHour(schedule: int, v: Vars, hour: int, minute: int, minute2: int)
    ensures var h := HourlyStep(schedule, v, hour, minute);
      h.requests != [] ==> HourlyStep(schedule, h.vars, hour, minute2).requests == []
  {
  }

  /** The daily report goes out exactly on a new day at 09:00 with more
      than 100 readings; schedule 1 sends the maximum alone; afterwards the
      aggregate is (temp, temp, 0) and lastDay is the day. */
  lemma DailyRule(schedule: int, v: Vars, hour: int, minute: int, day: int)
    ensures var d := DailyStep(schedule, v, hour, minute, day);
      && (d.requests != [] <==> day != v.lastDay && hour == DAILY_HOUR && minute == DAILY_MINUTE
                                && v.agg.count > DATA_POINTS_REQ)
      && (d.requests != [] && schedule == MAX_ONLY_SCHEDULE ==> d.requests == [DailyMax(v.temp, v.agg.maxTemp)])
      && (d.requests != [] && schedule != MAX_ONLY_SCHEDULE
          ==> d.requests == [DailyMaxMin(v.temp, v.agg.maxTemp, v.agg.minTemp)])
      && (d.requests != [] ==> d.vars == v.(agg := Triple(v.temp, v.temp, 0), lastDay := day))
  {
  }

  /** With 100 readings or fewer at 09:00 nothing happens: no report, no
      reset, and lastDay keeps its value, so the report waits. */
  lemma DailyWaitsForData(schedule: int, v: Vars, day: int)
    requires v.agg.count <= DATA_POINTS_REQ
    ensures DailyStep(schedule, v, DAILY_HOUR, DAILY_MINUTE, day) == Step(v, [])
  {
  }

  /** A pass sends at most one report: the hourly one needs minute 50, the
      daily one minute 0. */
  lemma AtMostOneReport(schedule: int, v: Vars, nowMs: int, reading: Option<int>,
                        hour: int, minute: int, day: int)
    ensures |Next(schedule, v, nowMs, reading, hour, minute, day).requests| <= 1
  {
  }

  /** The triple saved in a pass is the aggregate before any daily reset,
      so a reset is not on file until the next accepted reading. */
  lemma ResetNotSaved(schedule: int, v: Vars, nowMs: int, t: int, day: int)
    requires Due(v, nowMs) && Consistent(v.agg) && v.agg.count >= DATA_POINTS_REQ && day != v.lastDay
    ensures var o := Next(schedule, v, nowMs, Some(t), DAILY_HOUR, DAILY_MINUTE, day);
      && o.requests != [] && o.vars.agg == Triple(Some(t), Some(t), 0)
      && o.saved.Some? && o.saved.value.count == v.agg.count + 1
  {
    FoldExtremes(v.agg, t);
  }

  /** Reports carry the temperature of the latest read attempt, which is
      None after a failed one. */
  lemma ReportAfterFailedReading(v: Vars, nowMs: int, hour: int)
    requires Due(v, nowMs) && hour != v.lastHour
    ensures Next(HOURLY_SCHEDULE, v, nowMs, None, hour, HOURLY_MINUTE, v.lastDay).requests == [Hourly(None)]
  {
  }

  /** While temp after sampling is not None, a pass from an ordered
      aggregate never raises, leaves the aggregate ordered and saves only
      ordered records. */
  lemma NextKeepsConsistent(schedule: int, v: Vars, nowMs: int, reading: Option<int>,
                            hour: int, minute: int, day: int)
    requires Consistent(v.agg)
    requires Sample(v, nowMs, reading).vars.temp.Some?
    ensures var o := Next(schedule, v, nowMs, reading, hour, minute, day);
      && !o.crashed && Consistent(o.vars.agg)
      && (o.saved.Some? ==> Consistent(o.saved.value))
  {
    if Due(v, nowMs) && reading.Some? {
      FoldExtremes(v.agg, reading.value);
    }
  }

  /** A boot without a reading and without a recent record leaves the
      extremes None, and the first accepted reading then raises. */
  lemma BootWithoutReadingCrashes(schedule: int, bootMs: int, hour: int, day: int,
                                  nowMs: int, t: int, hour2: int, minute: int, day2: int)
    requires nowMs - bootMs > SENSOR_READ_INTERVAL
    ensures var v := Vars(None, Seed(None, ABSENT), bootMs, hour - 1, day - 1);
      Next(schedule, v, nowMs, Some(t), hour2, minute, day2).crashed
  {
  }

  /** A daily reset made while temp is None leaves the extremes None, and
      the next accepted reading raises. */
  lemma ResetWithoutReadingCrashes(schedule: int, v: Vars, nowMs: int, day: int,
                                   nowMs2: int, t: int, hour2: int, minute2: int, day2: int)
    requires !Due(v, nowMs) && v.temp.None? && v.agg.count > DATA_POINTS_REQ && day != v.lastDay
    requires nowMs2 - v.lastReadingMs > SENSOR_READ_INTERVAL
    ensures var o := Next(schedule, v, nowMs, None, DAILY_HOUR, DAILY_MINUTE, day);
      && !o.crashed && o.vars.agg == Triple(None, None, 0)
      && Next(schedule, o.vars, nowMs2, Some(t), hour2, minute2, day2).crashed
  {
  }

  // ---------------------------------------------------------------------
  // The program state

  /** The module-level variables of the main program, with the schedule it
      runs and the file it saves to. */
  class Program {
    const schedule: int
    const store: TempsStore
    var temp: Option<int>
    var maxTemp: Option<int>
    var minTemp: Option<int>
    var count: int
    var lastReadingMs: int
    var lastHour: int
    var lastDay: int

    function State(): Vars
      reads this
    {
      Vars(temp, Triple(maxTemp, minTemp, count), lastReadingMs, lastHour, lastDay)
    }

    /** Boot at tick bootMs, local hour and day, with the third probe
        reading temp and the triple loaded from the store. */
    constructor Boot(schedule: int, store: TempsStore, bootMs: int, hour: int, day: int,
                     temp: Option<int>, loaded: Triple)
      ensures this.schedule == schedule && this.store == store
      ensures State() == Vars(temp, Seed(temp, loaded), bootMs, hour - 1, day - 1)
    {
      this.schedule := schedule;
      this.store := store;
      lastReadingMs := bootMs;
      lastHour := hour - 1;
      lastDay := day - 1;
      this.temp := temp;
      maxTemp := loaded.maxTemp;
      minTemp := loaded.minTemp;
      count := loaded.count;
      if Truthy(temp) && Truthy(loaded.maxTemp) && Truthy(loaded.minTemp) {
      } else if temp.Some? {
        maxTemp := temp;
        minTemp := temp;
        count := 1;
      }
    }

    /** The sampling part of a pass (main.py lines 133-155). */
    method SampleTasks(nowMs: int, clock: int, reading: Option<int>) returns (crashed: bool)
      modifies this, store
      ensures var s := Sample(old(State()), nowMs, reading);
        && State() == s.vars && crashed == s.crashed
        && (s.saved.Some? ==> store.file == Holds(s.saved.value) && store.mtime == clock)
        && (s.saved.None? ==> store.file == old(store.file) && store.mtime == old(store.mtime))
    {
      crashed := false;
      if nowMs - lastReadingMs > SENSOR_READ_INTERVAL {
        temp := reading;
        if temp.Some? {
          count := count + 1;
          if maxTemp.None? {
            crashed := true;
            return;
          }
          if temp.value > maxTemp.value {
            maxTemp := temp;
          } else if minTemp.None? {
            crashed := true;
            return;
          } else if temp.value < minTemp.value {
            minTemp := temp;
          }
          lastReadingMs := nowMs;
          store.Save(maxTemp, minTemp, count, clock);
        }
      }
    }

    /** The hourly part of a pass. */
    method HourlyTasks(hour: int, minute: int) returns (requests: seq<Request>)
      modifies this
      ensures var h := HourlyStep(schedule, old(State()), hour, minute);
        State() == h.vars && requests == h.requests
    {
      requests := [];
      if hour != lastHour && minute == HOURLY_MINUTE && schedule == HOURLY_SCHEDULE {
        requests := [Hourly(temp)];
        lastHour := hour;
      }
    }

    /** The daily part of a pass. */
    method DailyTasks(hour: int, minute: int, day: int) returns (requests: seq<Request>)
      modifies this
      ensures var d := DailyStep(schedule, old(State()), hour, minute, day);
        State() == d.vars && requests == d.requests
    {
      requests := [];
      if day != lastDay && hour == DAILY_HOUR && minute == DAILY_MINUTE && count > DATA_POINTS_REQ {
        if schedule == MAX_ONLY_SCHEDULE {
          requests := [DailyMax(temp, maxTemp)];
        } else {
          requests := [DailyMaxMin(temp, maxTemp, minTemp)];
        }
        maxTemp := temp;
        minTemp := temp;
        count := 0;
        lastDay := day;
      }
    }

    /** One pass of the loop at tick nowMs and clock time clock (seconds),
        with reading what get_hmt_temp returns if it is called, and the local
        hour, minute and day. A TypeError ends the pass, and the program. */
    method Tick(nowMs: int, clock: int, reading: Option<int>, hour: int, minute: int, day: int)
      returns (requests: seq<Request>, crashed: bool)
      modifies this, store
      ensures var o := Next(schedule, old(State()), nowMs, reading, hour, minute, day);
        && State() == o.vars && requests == o.requests && crashed == o.crashed
        && (o.saved.Some? ==> store.file == Holds(o.saved.value) && store.mtime == clock)
        && (o.saved.None? ==> store.file == old(store.file) && store.mtime == old(store.mtime))
    {
      requests := [];
      crashed := SampleTasks(nowMs, clock, reading);
      if crashed {
        return;
      }
      var hourly := HourlyTasks(hour, minute);
      var daily := DailyTasks(hour, minute, day);
      requests := hourly + daily;
    }
  }
}
