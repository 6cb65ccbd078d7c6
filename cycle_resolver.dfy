/**
 * Choosing the GFS model run for a requested instant (the first half of
 * `process_wind_data`): clamp the target to data that can already be
 * published, floor it to a 6-hourly run, then the publication re-check and
 * the forecast-horizon walk. Given the clamps, the last two never change
 * the run; `ResolveCycle` proves it.
 */
module CycleResolver {
  import opened Calendar

  /** GFS output is assumed published 4 hours after the run starts. */
  const PROCESSING_DELAY: int := 14_400_000_000
  /** The run hours, 00/06/12/18 UTC. */
  const GFS_INIT_HOURS: seq<int> := [0, 6, 12, 18]
  const MAX_FORECAST_HOUR: int := 120
  /** One run earlier: 6 hours. */
  const RUN_STEP: int := 21_600_000_000
  /** The horizon walk stops at 3 days before the target. */
  const LOOKBACK: int := 259_200_000_000

  /** A model run: the hour it starts at, its start instant, and the forecast hour of the target. */
  datatype Run = Run(initHour: int, init: int, fxx: int)

  /** The ISO rewrite done before parsing: a trailing `Z` becomes `+00:00`. */
  function RewriteZulu(date: string): (r: string)
    ensures |date| > 0 && date[|date| - 1] == 'Z' ==> r == date[..|date| - 1] + "+00:00"
    ensures !(|date| > 0 && date[|date| - 1] == 'Z') ==> r == date
  {
    if |date| > 0 && date[|date| - 1] == 'Z' then date[..|date| - 1] + "+00:00" else date
  }

  /** A rewritten date never ends in `Z`, so rewriting twice is rewriting once. */
  lemma RewriteZuluIdempotent(date: string)
    ensures var r := RewriteZulu(date); !(|r| > 0 && r[|r| - 1] == 'Z') && RewriteZulu(r) == r
  {
  }

  /**
   * The target after both clamps: a future target becomes `now`, and then
   * anything later than `now - 4h` becomes `now - 4h`.
   */
  function EffectiveTarget(target: int, now: int): (t: int)
    ensures t <= now - PROCESSING_DELAY && t <= target
    ensures t == target || t == now - PROCESSING_DELAY
  {
    var t1 := if target > now then now else target;
    if t1 > now - PROCESSING_DELAY then now - PROCESSING_DELAY else t1
  }

  /** `[h for h in hours if h <= bound]` */
  function AtOrBelow(hours: seq<int>, bound: int): (r: seq<int>)
    ensures forall h :: h in r <==> h in hours && h <= bound
  {
    if hours == [] then []
    else (if hours[0] <= bound then [hours[0]] else []) + AtOrBelow(hours[1..], bound)
  }

  /** `[h for h in hours if h < bound]` */
  function Below(hours: seq<int>, bound: int): (r: seq<int>)
    ensures forall h :: h in r <==> h in hours && h < bound
  {
    if hours == [] then []
    else (if hours[0] < bound then [hours[0]] else []) + Below(hours[1..], bound)
  }

  /** Python's `max` of a non-empty list. */
  function MaxOf(s: seq<int>): (m: int)
    requires |s| > 0
    ensures m in s && forall x :: x in s ==> x <= m
  {
    if |s| == 1 then s[0]
    else
      var rest := MaxOf(s[1..]);
      assert forall x :: x in s ==> x == s[0] || x in s[1..];
      if s[0] >= rest then s[0] else rest
  }

  /**
   * The run at or before the target hour (lines 77-89): the latest run hour
   * not after the target's hour, on the target's day. The else branch, for
   * an hour before every run hour, takes yesterday's 18Z run; the source
   * leaves `init_hour` unassigned there, and the model gives it 18. No hour
   * of day takes that branch.
   */
  function FloorToRun(t: int): (r: Run)
    ensures r.initHour == 6 * (HourOf(t) / 6)
    ensures r.init == AtHour(t, r.initHour) && r.fxx == HourOf(t) - r.initHour
  {
    var hour := HourOf(t);
    var suitable := AtOrBelow(GFS_INIT_HOURS, hour);
    LatestRunHour(hour);
    if |suitable| > 0 then
      var initHour := MaxOf(suitable);
      Run(initHour, AtHour(t, initHour), hour - initHour)
    else
      Run(18, AtHour(t - DAY, 18), hour + 6)
  }

  /** For an hour of day, the latest run hour at or below it is the hour rounded down to a multiple of 6. */
  lemma LatestRunHour(hour: int)
    requires 0 <= hour < 24
    ensures |AtOrBelow(GFS_INIT_HOURS, hour)| > 0
    ensures MaxOf(AtOrBelow(GFS_INIT_HOURS, hour)) == 6 * (hour / 6)
  {
    var suitable := AtOrBelow(GFS_INIT_HOURS, hour);
    assert forall h :: h in GFS_INIT_HOURS <==> h == 0 || h == 6 || h == 12 || h == 18;
    assert 0 in suitable;
    var m := MaxOf(suitable);
    assert m in GFS_INIT_HOURS && m <= hour;
    if hour < 6 {
      assert m == 0;
    } else if hour < 12 {
      assert 6 in suitable;
      assert m == 6;
    } else if hour < 18 {
      assert 12 in suitable;
      assert m == 12;
    } else {
      assert 18 in suitable;
      assert m == 18;
    }
  }

  /** What the floored run is: a GFS run on the target's day, at or before the target's hour. */
  lemma FloorToRunIsCycle(t: int)
    ensures var r := FloorToRun(t);
      && r.initHour in GFS_INIT_HOURS
      && HourOf(r.init) == r.initHour
      && r.init % HOUR == 0
      && DayStart(r.init) == DayStart(t)
      && r.init <= t
      && r.init + r.fxx * HOUR == t - t % HOUR
      && 0 <= r.fxx <= 5
      && (t - r.init) / HOUR == r.fxx
  {
    var r := FloorToRun(t);
    Decompose(t);
    assert t - r.init == r.fxx * HOUR + t % HOUR;
  }

  /**
   * The "too recent" fallback (lines 95-102): the run before the one with
   * hour `initHour`, the previous day's 18Z when `initHour` is 0.
   */
  function Fallback(t: int, initHour: int): (r: Run)
    ensures initHour > 0 ==>
      && r.initHour in GFS_INIT_HOURS && r.initHour < initHour
      && (forall h :: h in GFS_INIT_HOURS && h < initHour ==> h <= r.initHour)
      && r.init == AtHour(t, r.initHour) && r.fxx == HourOf(t) - r.initHour
    ensures initHour <= 0 ==>
      r.initHour == 18 && r.init == DayStart(t) - DAY + 18 * HOUR && r.fxx == HourOf(t) + 6
  {
    if initHour > 0 then
      var below := Below(GFS_INIT_HOURS, initHour);
      assert 0 in below;
      var prev := MaxOf(below);
      Run(prev, AtHour(t, prev), HourOf(t) - prev)
    else
      assert (t - DAY) % DAY == t % DAY;
      Run(18, AtHour(t - DAY, 18), HourOf(t) + 6)
  }

  /**
   * Were the fallback taken, it would move exactly one run back and keep
   * the target hour: the start falls by 6 hours and the forecast hour grows by 6.
   */
  lemma FallbackIsPreviousRun(t: int)
    ensures var r := FloorToRun(t);
      var f := Fallback(t, r.initHour);
      && f.init == r.init - RUN_STEP
      && f.fxx == r.fxx + 6
      && HourOf(f.init) in GFS_INIT_HOURS
  {
    var r := FloorToRun(t);
    var f := Fallback(t, r.initHour);
    assert forall h :: h in GFS_INIT_HOURS <==> h == 0 || h == 6 || h == 12 || h == 18;
    if r.initHour > 0 {
      assert r.initHour - 6 in GFS_INIT_HOURS;
      assert f.initHour == r.initHour - 6;
      assert HourOf(f.init) == f.initHour;
    } else {
      assert f.init == (DayStart(t) - DAY) + 18 * HOUR;
      assert (f.init / HOUR) % 24 == 18;
    }
  }

  /** Once the target is clamped, the floored run is always published: the fallback never fires. */
  lemma FallbackNeverFires(target: int, now: int)
    ensures FloorToRun(EffectiveTarget(target, now)).init + PROCESSING_DELAY <= now
  {
    FloorToRunIsCycle(EffectiveTarget(target, now));
  }

  /**
   * The number of 6-hour steps the horizon walk takes: none when the
   * forecast hour is within 120 or the start is already 3 days back,
   * otherwise the fewest that reach 3 days before the target.
   */
  function HorizonSteps(init: int, fxx: int, target: int): (k: nat)
    ensures k == 0 <==> fxx <= MAX_FORECAST_HOUR || init <= target - LOOKBACK
    ensures k > 0 ==> init - (k - 1) * RUN_STEP > target - LOOKBACK >= init - k * RUN_STEP
  {
    if fxx <= MAX_FORECAST_HOUR || init <= target - LOOKBACK then 0
    else (init - (target - LOOKBACK) + RUN_STEP - 1) / RUN_STEP
  }

  /**
   * The forecast-horizon walk (lines 108-110). Each step moves the start one
   * run back and adds 6 to the forecast hour, so the forecast time is kept,
   * the forecast hour never falls, and only the 3-day bound stops the walk.
   */
  method CapHorizon(init0: int, fxx0: int, target: int) returns (init: int, fxx: int)
    ensures init + fxx * HOUR == init0 + fxx0 * HOUR
    ensures init == init0 - HorizonSteps(init0, fxx0, target) * RUN_STEP
    ensures fxx == fxx0 + 6 * HorizonSteps(init0, fxx0, target)
    ensures fxx0 > MAX_FORECAST_HOUR ==> fxx >= fxx0 && init <= target - LOOKBACK
  {
    init, fxx := init0, fxx0;
    ghost var k: nat := 0;
    while fxx > MAX_FORECAST_HOUR && init > target - LOOKBACK
      invariant init == init0 - k * RUN_STEP && fxx == fxx0 + 6 * k
      invariant k > 0 ==> fxx0 > MAX_FORECAST_HOUR && init + RUN_STEP > target - LOOKBACK
      decreases init - (target - LOOKBACK)
    {
      init := init - RUN_STEP;
      fxx := fxx + 6;
      k := k + 1;
    }
    assert k == HorizonSteps(init0, fxx0, target);
  }

  /**
   * The whole resolution, step by step as the source does it. The result
   * is the floored run of the clamped target: the fallback and the horizon
   * walk never change it. `t` is the clamped target, which the source keeps
   * in `target_date_utc` and later hands to the serializer.
   */
  method ResolveCycle(target: int, now: int) returns (t: int, init: int, fxx: int)
    ensures t == EffectiveTarget(target, now)
    ensures init == FloorToRun(t).init && fxx == FloorToRun(t).fxx
    ensures t <= now - PROCESSING_DELAY
    ensures HourOf(init) in GFS_INIT_HOURS && init % HOUR == 0 && DayStart(init) == DayStart(t)
    ensures init <= t && init + fxx * HOUR == t - t % HOUR
    ensures 0 <= fxx <= 5 && (t - init) / HOUR == fxx
  {
    t := EffectiveTarget(target, now);
    var run := FloorToRun(t);
    FloorToRunIsCycle(t);
    init, fxx := run.init, run.fxx;
    if init + PROCESSING_DELAY > now {
      var previous := Fallback(t, run.initHour);
      init, fxx := previous.init, previous.fxx;
    }
    if fxx > MAX_FORECAST_HOUR {
      init, fxx := CapHorizon(init, fxx, t);
    }
  }

  /** 2024-03-10T05:00Z requested at 10:00Z: the 00Z run, forecast hour 5. */
  lemma ScenarioEarlyMorning()
    ensures var t := EffectiveTarget(1710046800000000, 1710064800000000);
      t == 1710046800000000 && FloorToRun(t) == Run(0, 1710028800000000, 5)
  {
    var t := 1710046800000000;
    assert EffectiveTarget(1710046800000000, 1710064800000000) == t;
    assert t / HOUR == 475013 && HourOf(t) == 5;
    assert t % DAY == 18000000000 && DayStart(t) == 1710028800000000;
    assert AtHour(t, 0) == 1710028800000000;
  }

  /**
   * 2024-03-10T23:00Z requested at that very instant: the 4-hour clamp moves
   * the target to 19:00Z, so the 18Z run with forecast hour 1.
   */
  lemma ScenarioLateEvening()
    ensures var t := EffectiveTarget(1710111600000000, 1710111600000000);
      t == 1710097200000000 && FloorToRun(t) == Run(18, 1710093600000000, 1)
  {
    var t := 1710097200000000;
    assert EffectiveTarget(1710111600000000, 1710111600000000) == t;
    assert t / HOUR == 475027 && HourOf(t) == 19;
    assert t % DAY == 68400000000 && DayStart(t) == 1710028800000000;
    assert AtHour(t, 18) == 1710093600000000;
  }
}
