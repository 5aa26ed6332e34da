/** The daily scheduler: its slots on the clock, its loop, and what whole runs of it guarantee. */
module Scheduler {
  import opened Calendar

  // ----- slots -----

  // Instants and durations are nanoseconds; instants count from the start of 1970, UTC.
  const MINUTE := 60_000_000_000
  const HOUR := 60 * MINUTE
  const DAY := 24 * HOUR

  predicate ClockTime(hour: int, min: int) { 0 <= hour <= 23 && 0 <= min <= 59 }

  function DateOf(t: int): Date { Civil(t / DAY) }

  /** `time.Date(y, m, d, hour, min, 0, 0, UTC)`. */
  function InstantOf(d: Date, hour: int, min: int): int
    requires 1 <= d.month <= 12
  {
    DayNumber(d) * DAY + hour * HOUR + min * MINUTE
  }

  /** `t.AddDate(0, 0, 1)`: the date of `t` with its day raised by one, at the same time of day. */
  function AddOneDay(t: int): int {
    CivilCorrect(t / DAY);
    var d := DateOf(t);
    DayNumber(Date(d.year, d.month, d.day + 1)) * DAY + t % DAY
  }

  /** Today's slot, whether ahead or behind. */
  function TodaysRun(now: int, hour: int, min: int): int {
    CivilCorrect(now / DAY);
    InstantOf(DateOf(now), hour, min)
  }

  function NextRun(now: int, hour: int, min: int): int {
    var run := TodaysRun(now, hour, min);
    if run > now then run else AddOneDay(run)
  }

  function InitialDelay(now: int, hour: int, min: int): int {
    var run := TodaysRun(now, hour, min);
    if run > now then run - now else 0
  }

  /** The instants at hour:min UTC, one every day. */
  predicate IsSlot(t: int, hour: int, min: int) { t % DAY == hour * HOUR + min * MINUTE }

  ghost function Offset(hour: int, min: int): int { hour * HOUR + min * MINUTE }

  lemma OffsetBounds(hour: int, min: int)
    requires ClockTime(hour, min)
    ensures 0 <= Offset(hour, min) < DAY
  {
  }

  lemma TodaysRunIs(now: int, hour: int, min: int)
    ensures TodaysRun(now, hour, min) == (now / DAY) * DAY + Offset(hour, min)
  {
    CivilCorrect(now / DAY);
  }

  lemma DivideDay(q: int, s: int)
    requires 0 <= s < DAY
    ensures (q * DAY + s) / DAY == q && (q * DAY + s) % DAY == s
  {
  }

  lemma AddOneDayIsLater(t: int)
    ensures AddOneDay(t) == t + DAY
  {
    var d := DateOf(t);
    CivilCorrect(t / DAY);
    assert DayNumber(Date(d.year, d.month, d.day + 1)) == t / DAY + 1;
    OneDayOn(t);
  }

  lemma OneDayOn(t: int)
    ensures (t / DAY + 1) * DAY + t % DAY == t + DAY
  {
    assert t == (t / DAY) * DAY + t % DAY;
  }

  /** The run planned, in plain arithmetic: today's slot, or the same time a day later. */
  lemma NextRunIs(now: int, hour: int, min: int)
    ensures var today := (now / DAY) * DAY + Offset(hour, min);
            NextRun(now, hour, min) == if today > now then today else today + DAY
  {
    TodaysRunIs(now, hour, min);
    AddOneDayIsLater(TodaysRun(now, hour, min));
  }

  lemma SlotsADayApart(a: int, b: int, hour: int, min: int)
    requires IsSlot(a, hour, min) && IsSlot(b, hour, min) && a < b
    ensures a + DAY <= b
  {
    assert a == (a / DAY) * DAY + a % DAY && b == (b / DAY) * DAY + b % DAY;
  }

  lemma NextRunIsSlot(now: int, hour: int, min: int)
    requires ClockTime(hour, min)
    ensures var run := NextRun(now, hour, min);
            && now < run <= now + DAY && IsSlot(run, hour, min)
            && (run / DAY == now / DAY || run / DAY == now / DAY + 1)
  {
    var q := now / DAY;
    OffsetBounds(hour, min);
    NextRunIs(now, hour, min);
    DivideDay(q, Offset(hour, min));
    DivideDay(q + 1, Offset(hour, min));
    assert now == q * DAY + now % DAY;
    assert (q + 1) * DAY == q * DAY + DAY;
  }

  /** `nextRun` is the least slot strictly after `now`; by the calendar it is today's or tomorrow's. */
  lemma NextRunIsLeast(now: int, hour: int, min: int)
    requires ClockTime(hour, min)
    ensures var run := NextRun(now, hour, min);
            && now < run <= now + DAY && IsSlot(run, hour, min)
            && (DateOf(run) == DateOf(now) || DateOf(run) == Tomorrow(DateOf(now)))
            && forall t :: t > now && IsSlot(t, hour, min) ==> run <= t
  {
    var run := NextRun(now, hour, min);
    NextRunIsSlot(now, hour, min);
    NextDayIsTomorrow(now / DAY);
    forall t | t > now && IsSlot(t, hour, min) ensures run <= t {
      if t < run {
        SlotsADayApart(t, run, hour, min);
      }
    }
  }

  /**
   * The planned run on the clock, in nanoseconds of Unix time: the first instant after `now` that lies that many
   * hours and minutes behind a multiple of 86400 seconds.
   */
  lemma NextRunOnTheClock(now: int, hour: int, min: int)
    requires 0 <= hour <= 23 && 0 <= min <= 59
    ensures var run := NextRun(now, hour, min);
            && now < run <= now + 86_400_000_000_000
            && run % 86_400_000_000_000 == hour * 3_600_000_000_000 + min * 60_000_000_000
            && forall t :: now < t < run ==>
                 t % 86_400_000_000_000 != hour * 3_600_000_000_000 + min * 60_000_000_000
  {
    NextRunIsLeast(now, hour, min);
    assert DAY == 86_400_000_000_000 && HOUR == 3_600_000_000_000;
    forall t | now < t < NextRun(now, hour, min)
      ensures t % 86_400_000_000_000 != hour * 3_600_000_000_000 + min * 60_000_000_000
    {
      assert !IsSlot(t, hour, min);
    }
  }

  /** Today's slot has come. */
  ghost predicate SlotCame(now: int, hour: int, min: int) {
    exists t :: t / DAY == now / DAY && IsSlot(t, hour, min) && t <= now
  }

  /** There is one slot on each day. */
  lemma SlotOfDay(t: int, now: int, hour: int, min: int)
    requires t / DAY == now / DAY && IsSlot(t, hour, min)
    ensures t == (now / DAY) * DAY + Offset(hour, min)
  {
    assert t == (t / DAY) * DAY + t % DAY;
  }

  lemma SlotCameIff(now: int, hour: int, min: int)
    requires ClockTime(hour, min)
    ensures SlotCame(now, hour, min) <==> (now / DAY) * DAY + Offset(hour, min) <= now
  {
    var run := (now / DAY) * DAY + Offset(hour, min);
    OffsetBounds(hour, min);
    DivideDay(now / DAY, Offset(hour, min));
    assert run / DAY == now / DAY && IsSlot(run, hour, min);
    if SlotCame(now, hour, min) {
      var t :| t / DAY == now / DAY && IsSlot(t, hour, min) && t <= now;
      SlotOfDay(t, now, hour, min);
    }
  }

  /** The first wait ends at the next slot if today's is ahead; otherwise there is no wait. */
  lemma InitialDelayIsCatchUp(now: int, hour: int, min: int)
    requires ClockTime(hour, min)
    ensures var delay := InitialDelay(now, hour, min);
            if SlotCame(now, hour, min) then delay == 0
            else delay > 0 && now + delay == NextRun(now, hour, min)
  {
    TodaysRunIs(now, hour, min);
    SlotCameIff(now, hour, min);
  }

  // ----- the loop -----

  /** What the world does in one round: lateness of the wait, length and outcome of the call, clock readings. */
  datatype Round = Round(late: nat, took: nat, ok: bool, lag: nat, gap: nat)

  /** One call: when it started, when it ended, and the two clock readings after a success. */
  datatype Call = Call(start: int, finish: int, ok: bool, first: int, second: int)

  /**
   * The clock, the context and the function called. The context ends when the script runs out. The two
   * looks at the clock behind a call are recorded with it.
   */
  class World {
    const script: seq<Round>
    var time: int
    var calls: seq<Call>
    var looks: nat

    constructor (script: seq<Round>, start: int)
      ensures this.script == script && time == start && calls == [] && looks == 0
    {
      this.script := script;
      time, calls, looks := start, [], 0;
    }

    method Now() returns (t: int)
      requires |calls| <= |script|
      modifies this
      ensures t == time && looks == old(looks) + 1
      ensures var n := |old(calls)|;
              if n == 0 || old(looks) >= 2 then time == old(time) && calls == old(calls)
              else if old(looks) == 0 then
                time == old(time) + script[n - 1].lag
                && calls == old(calls)[n - 1 := old(calls)[n - 1].(first := time, second := time)]
              else
                time == old(time) + script[n - 1].gap
                && calls == old(calls)[n - 1 := old(calls)[n - 1].(second := time)]
    {
      var n := |calls|;
      if n > 0 && looks == 0 {
        time := time + script[n - 1].lag;
        calls := calls[n - 1 := calls[n - 1].(first := time, second := time)];
      } else if n > 0 && looks == 1 {
        time := time + script[n - 1].gap;
        calls := calls[n - 1 := calls[n - 1].(second := time)];
      }
      looks := looks + 1;
      t := time;
    }

    /** `wait`: at least `d`, or an error once the context has ended. */
    method Wait(d: int) returns (cancelled: bool)
      modifies this`time
      ensures cancelled == (|calls| >= |script|)
      ensures !cancelled ==> time == old(time) + (if d > 0 then d else 0) + script[|calls|].late
    {
      cancelled := |calls| >= |script|;
      if !cancelled {
        time := time + (if d > 0 then d else 0) + script[|calls|].late;
      }
    }

    method Fn() returns (ok: bool)
      requires |calls| < |script|
      modifies this
      ensures ok == script[|old(calls)|].ok && looks == 0
      ensures time == old(time) + script[|old(calls)|].took
      ensures calls == old(calls) + [Call(old(time), time, ok, time, time)]
    {
      var r := script[|calls|];
      var start := time;
      time := time + r.took;
      calls := calls + [Call(start, time, r.ok, time, time)];
      looks := 0;
      ok := r.ok;
    }
  }

  /** When call number `i` is planned: the catch-up, a retry interval after a failure, or the next slot. */
  ghost function Planned(log: seq<Call>, i: nat, start: int, hour: int, min: int, retry: int): int
    requires i <= |log|
  {
    if i == 0 then start + InitialDelay(start, hour, min)
    else
      var c := log[i - 1];
      var delay := if c.ok then NextRun(c.first, hour, min) - c.second else retry;
      c.second + (if delay > 0 then delay else 0)
  }

  ghost predicate CallFollows(log: seq<Call>, i: nat, script: seq<Round>, start: int, hour: int, min: int, retry: int)
    requires i < |log| && i < |script|
  {
    var c, r := log[i], script[i];
    && c.start == Planned(log, i, start, hour, min, retry) + r.late
    && c.finish == c.start + r.took && c.ok == r.ok
    && c.first == c.finish + (if r.ok then r.lag else 0)
    && c.second == c.first + (if r.ok then r.gap else 0)
  }

  /** `log` is what a scheduler started at `start` does in the world `script`. */
  ghost predicate IsRun(log: seq<Call>, script: seq<Round>, start: int, hour: int, min: int, retry: int) {
    |log| <= |script| && forall i :: 0 <= i < |log| ==> CallFollows(log, i, script, start, hour, min, retry)
  }

  lemma RunGrows(log: seq<Call>, c: Call, script: seq<Round>, start: int, hour: int, min: int, retry: int)
    requires IsRun(log, script, start, hour, min, retry) && |log| < |script|
    requires CallFollows(log + [c], |log|, script, start, hour, min, retry)
    ensures IsRun(log + [c], script, start, hour, min, retry)
  {
    forall i | 0 <= i < |log| + 1 ensures CallFollows(log + [c], i, script, start, hour, min, retry) {
      if i < |log| {
        assert CallFollows(log, i, script, start, hour, min, retry);
      }
    }
  }

  /** `Run`: wait, call, plan again, until the context ends. */
  method Run(world: World, hour: int, min: int, retry: int)
    requires ClockTime(hour, min) && world.calls == []
    modifies world
    ensures IsRun(world.calls, world.script, old(world.time), hour, min, retry)
    ensures |world.calls| == |world.script|
  {
    ghost var start := world.time;
    var now := world.Now();
    var delay := InitialDelay(now, hour, min);
    while true
      invariant |world.calls| <= |world.script|
      invariant IsRun(world.calls, world.script, start, hour, min, retry)
      invariant world.time + (if delay > 0 then delay else 0)
                == Planned(world.calls, |world.calls|, start, hour, min, retry)
      decreases |world.script| - |world.calls|
    {
      var cancelled := world.Wait(delay);
      if cancelled {
        return;
      }
      ghost var before := world.calls;
      var ok := world.Fn();
      if !ok {
        delay := retry;
      } else {
        var first := world.Now();
        var second := world.Now();
        delay := NextRun(first, hour, min) - second;
      }
      ghost var c := world.calls[|before|];
      assert world.calls == before + [c];
      assert Planned(world.calls, |before|, start, hour, min, retry)
             == Planned(before, |before|, start, hour, min, retry);
      RunGrows(before, c, world.script, start, hour, min, retry);
    }
  }

  // ----- whole runs -----

  /** The wake-up planned after a success is the next slot after the first reading, if that is still ahead. */
  lemma PlannedAfterSuccess(log: seq<Call>, i: nat, start: int, hour: int, min: int, retry: int)
    requires i < |log| && log[i].ok
    ensures var run := NextRun(log[i].first, hour, min);
            Planned(log, i + 1, start, hour, min, retry) == if run > log[i].second then run else log[i].second
  {
  }

  /**
   * No drift: after a success the next call starts at the first slot behind the first reading, plus the
   * lateness of that one wait, whatever the gap before the second reading, so long as the slot is still
   * ahead of it; earlier delays leave no trace.
   */
  lemma NoDrift(log: seq<Call>, script: seq<Round>, start: int, hour: int, min: int, retry: int, i: nat)
    requires ClockTime(hour, min)
    requires IsRun(log, script, start, hour, min, retry) && i + 1 < |log| && log[i].ok
    ensures var run := NextRun(log[i].first, hour, min);
            && IsSlot(run, hour, min)
            && (forall t :: t > log[i].first && IsSlot(t, hour, min) ==> run <= t)
            && log[i + 1].start == (if run > log[i].second then run else log[i].second) + script[i + 1].late
  {
    NextRunIsLeast(log[i].first, hour, min);
    assert CallFollows(log, i + 1, script, start, hour, min, retry);
    PlannedAfterSuccess(log, i, start, hour, min, retry);
  }

  /** The first call waits for today's slot only if that is still ahead. */
  lemma FirstCall(log: seq<Call>, script: seq<Round>, start: int, hour: int, min: int, retry: int)
    requires ClockTime(hour, min) && IsRun(log, script, start, hour, min, retry) && log != []
    ensures log[0].start == (if SlotCame(start, hour, min) then start else NextRun(start, hour, min)) + script[0].late
  {
    assert CallFollows(log, 0, script, start, hour, min, retry);
    InitialDelayIsCatchUp(start, hour, min);
  }

  /** After a failure the next call follows one retry interval behind the end of the one that failed. */
  lemma RetryFollows(log: seq<Call>, script: seq<Round>, start: int, hour: int, min: int, retry: int, i: nat)
    requires IsRun(log, script, start, hour, min, retry) && i + 1 < |log| && !log[i].ok && retry >= 0
    ensures log[i + 1].start == log[i].finish + retry + script[i + 1].late
  {
    assert CallFollows(log, i, script, start, hour, min, retry);
    assert CallFollows(log, i + 1, script, start, hour, min, retry);
  }

  /** What happens in a run only moves forward in time. */
  lemma {:induction false} RunIsMonotone(log: seq<Call>, script: seq<Round>, start: int, hour: int, min: int,
                                         retry: int, i: nat, j: nat)
    requires ClockTime(hour, min) && retry > 0
    requires IsRun(log, script, start, hour, min, retry) && i <= j < |log|
    ensures start <= log[i].start <= log[i].finish <= log[i].first <= log[i].second
    ensures i < j ==> Planned(log, i + 1, start, hour, min, retry) <= log[j].start
    decreases j
  {
    assert CallFollows(log, i, script, start, hour, min, retry);
    assert CallFollows(log, j, script, start, hour, min, retry);
    if i == j {
      if i == 0 {
        InitialDelayIsCatchUp(start, hour, min);
      } else {
        RunIsMonotone(log, script, start, hour, min, retry, i - 1, i - 1);
      }
    } else {
      RunIsMonotone(log, script, start, hour, min, retry, i, i);
      if i + 1 < j {
        RunIsMonotone(log, script, start, hour, min, retry, i, j - 1);
        RunIsMonotone(log, script, start, hour, min, retry, j - 1, j - 1);
      }
    }
  }

  /** No two successes are observed in the same day from slot to slot, however late the waits end. */
  lemma NonRepetition(log: seq<Call>, script: seq<Round>, start: int, hour: int, min: int, retry: int,
                      i: nat, j: nat, slot: int)
    requires ClockTime(hour, min) && retry > 0
    requires IsRun(log, script, start, hour, min, retry) && i < j < |log|
    requires log[i].ok && log[j].ok && IsSlot(slot, hour, min)
    ensures !(slot <= log[i].first < slot + DAY && slot <= log[j].first < slot + DAY)
  {
    RunIsMonotone(log, script, start, hour, min, retry, i, j);
    RunIsMonotone(log, script, start, hour, min, retry, j, j);
    PlannedAfterSuccess(log, i, start, hour, min, retry);
    NextRunIsLeast(log[i].first, hour, min);
    var run := NextRun(log[i].first, hour, min);
    if slot <= log[i].first {
      SlotsADayApart(slot, run, hour, min);
    }
  }

  /** When a call is observed to end. */
  function Seen(c: Call): int { if c.ok then c.first else c.finish }

  /** What call `i` may be behind for: the gap between the clock readings after a success, else a retry interval. */
  function Behind(log: seq<Call>, script: seq<Round>, retry: int, i: nat): int
    requires i < |log| <= |script|
  {
    if i > 0 && log[i - 1].ok then script[i - 1].gap else retry
  }

  /**
   * Every slot is served: the first call observed to end at or after it starts behind it by at most the
   * lateness of its own wait and one retry interval or, right after a success, the gap after that success.
   */
  lemma Coverage(log: seq<Call>, script: seq<Round>, start: int, hour: int, min: int, retry: int, slot: int, i: nat)
    requires ClockTime(hour, min) && retry > 0
    requires IsRun(log, script, start, hour, min, retry)
    requires IsSlot(slot, hour, min) && slot >= start
    requires i < |log| && Seen(log[i]) >= slot && forall j :: 0 <= j < i ==> Seen(log[j]) < slot
    ensures log[i].start <= slot + Behind(log, script, retry, i) + script[i].late
  {
    assert CallFollows(log, i, script, start, hour, min, retry);
    if i == 0 {
      InitialDelayIsCatchUp(start, hour, min);
      NextRunIsLeast(start, hour, min);
      if slot == start {
        assert slot / DAY == start / DAY;
        assert SlotCame(start, hour, min);
      }
    } else {
      var c := log[i - 1];
      assert CallFollows(log, i - 1, script, start, hour, min, retry);
      assert Seen(c) < slot;
      if c.ok {
        PlannedAfterSuccess(log, i - 1, start, hour, min, retry);
        NextRunIsLeast(c.first, hour, min);
      }
    }
  }

  /** Two rounds move a run forward by at least a retry interval or a day. */
  lemma TwoRounds(log: seq<Call>, script: seq<Round>, start: int, hour: int, min: int, retry: int, i: nat)
    requires ClockTime(hour, min) && retry > 0
    requires IsRun(log, script, start, hour, min, retry) && i + 2 < |log|
    ensures log[i + 2].start >= log[i].start + (if retry < DAY then retry else DAY)
  {
    RunIsMonotone(log, script, start, hour, min, retry, i, i + 1);
    RunIsMonotone(log, script, start, hour, min, retry, i + 1, i + 2);
    RunIsMonotone(log, script, start, hour, min, retry, i + 1, i + 1);
    if log[i].ok && log[i + 1].ok {
      PlannedAfterSuccess(log, i, start, hour, min, retry);
      PlannedAfterSuccess(log, i + 1, start, hour, min, retry);
      NextRunIsLeast(log[i].first, hour, min);
      NextRunIsLeast(log[i + 1].first, hour, min);
      SlotsADayApart(NextRun(log[i].first, hour, min), NextRun(log[i + 1].first, hour, min), hour, min);
    }
  }

  lemma {:induction false} Progress(log: seq<Call>, script: seq<Round>, start: int, hour: int, min: int, retry: int,
                                    k: nat)
    requires ClockTime(hour, min) && retry > 0
    requires IsRun(log, script, start, hour, min, retry) && 2 * k < |log|
    ensures log[2 * k].start >= start + k * (if retry < DAY then retry else DAY)
  {
    if k == 0 {
      RunIsMonotone(log, script, start, hour, min, retry, 0, 0);
    } else {
      Progress(log, script, start, hour, min, retry, k - 1);
      TwoRounds(log, script, start, hour, min, retry, 2 * (k - 1));
      StepUp(k, if retry < DAY then retry else DAY);
    }
  }

  lemma StepUp(k: nat, d: int)
    requires k > 0
    ensures k * d == (k - 1) * d + d
  {
  }

  /** So in every run that is long enough, some call serves the slot; none is skipped. */
  lemma EverySlotIsServed(log: seq<Call>, script: seq<Round>, start: int, hour: int, min: int, retry: int,
                          slot: int, k: nat) returns (i: nat)
    requires ClockTime(hour, min) && retry > 0
    requires IsRun(log, script, start, hour, min, retry) && 2 * k < |log|
    requires IsSlot(slot, hour, min) && start <= slot <= start + k * (if retry < DAY then retry else DAY)
    ensures i <= 2 * k && Seen(log[i]) >= slot
    ensures log[i].start <= slot + Behind(log, script, retry, i) + script[i].late
    ensures forall j :: 0 <= j < i ==> Seen(log[j]) < slot
  {
    Progress(log, script, start, hour, min, retry, k);
    RunIsMonotone(log, script, start, hour, min, retry, 2 * k, 2 * k);
    i := 0;
    while Seen(log[i]) < slot
      invariant i <= 2 * k && forall j :: 0 <= j < i ==> Seen(log[j]) < slot
      decreases 2 * k - i
    {
      i := i + 1;
    }
    Coverage(log, script, start, hour, min, retry, slot, i);
  }
}
