/** The polling thread that launches due tasks, after `task_execution_thread` of `src/erraid.c`. */
module Scheduler {
  import opened Bytes
  import opened Masks
  import Commands
  import Protocol

  type Task = Protocol.Task

  const MAX_ITERATIONS := 1000000
  const RELOAD_PERIOD := 6000
  const NEVER := -1

  // ---------- calendar ----------

  /** The fields of `struct tm`; the year counts from 1900. */
  datatype Tm = Tm(year: int, mon: int, mday: int, hour: int, min: int, sec: int, wday: int)

  datatype Minute = Minute(year: int, mon: int, mday: int, hour: int, min: int)

  function MinuteOf(t: Tm): Minute { Minute(t.year, t.mon, t.mday, t.hour, t.min) }

  predicate IsLeap(year: int) {
    var y := year + 1900;
    y % 4 == 0 && (y % 100 != 0 || y % 400 == 0)
  }

  function DaysInMonth(year: int, mon: int): int {
    if mon == 1 then (if IsLeap(year) then 29 else 28)
    else if mon == 3 || mon == 5 || mon == 8 || mon == 10 then 30
    else 31
  }

  const LAST_YEAR := 4084

  predicate ValidMinute(m: Minute) {
    && 0 <= m.year <= LAST_YEAR && 0 <= m.mon < 12 && 1 <= m.mday <= DaysInMonth(m.year, m.mon)
    && 0 <= m.hour < 24 && 0 <= m.min < 60
  }

  /** What `localtime_r` may return; a leap second makes 60. */
  predicate ValidTm(t: Tm) {
    ValidMinute(MinuteOf(t)) && 0 <= t.sec <= 60 && 0 <= t.wday < 7
  }

  /** The position of a minute in the order of the calendar. */
  function Ordinal(m: Minute): int {
    (((m.year * 12 + m.mon) * 32 + m.mday) * 24 + m.hour) * 60 + m.min
  }

  /** The position of a second. */
  function Instant(t: Tm): int { Ordinal(MinuteOf(t)) * 61 + t.sec }

  lemma SameOrdinal(a: Minute, b: Minute)
    requires ValidMinute(a) && ValidMinute(b)
    requires Ordinal(a) == Ordinal(b)
    ensures a == b
  {
    hide IsLeap;
    var da, db := (a.year * 12 + a.mon) * 32 + a.mday, (b.year * 12 + b.mon) * 32 + b.mday;
    assert da == db;
    assert a.year * 12 + a.mon == b.year * 12 + b.mon;
  }

  lemma LaterMinute(a: Tm, b: Tm)
    requires ValidTm(a) && ValidTm(b) && Instant(a) <= Instant(b)
    ensures Ordinal(MinuteOf(a)) <= Ordinal(MinuteOf(b))
    ensures MinuteOf(a) == MinuteOf(b) ==> a.sec <= b.sec
  {
  }

  /** The identifier the thread computes for a minute. */
  function MinuteId(m: Minute): int {
    m.year * 525600 + m.mon * 43200 + m.mday * 1440 + m.hour * 60 + m.min
  }

  /** `a` is on the 31st and `b` on the 1st of the next month, same year, hour and minute. */
  predicate MonthEnd(a: Minute, b: Minute) {
    a.mday == 31 && b == a.(mon := a.mon + 1, mday := 1)
  }

  /** Months count for 30 days, so identifiers collide exactly across the end of a 31-day month. */
  lemma MinuteIdCollision(a: Minute, b: Minute)
    requires ValidMinute(a) && ValidMinute(b)
    ensures MinuteId(a) == MinuteId(b) <==> a == b || MonthEnd(a, b) || MonthEnd(b, a)
  {
    hide IsLeap;
    if MinuteId(a) == MinuteId(b) {
      var da, db := a.year * 365 + a.mon * 30 + a.mday, b.year * 365 + b.mon * 30 + b.mday;
      assert da * 1440 + (a.hour * 60 + a.min) == db * 1440 + (b.hour * 60 + b.min);
      assert da == db;
      assert a.hour * 60 + a.min == b.hour * 60 + b.min;
      assert a.hour == b.hour && a.min == b.min;
      assert a.year == b.year;
      assert a.mon == b.mon || a.mon + 1 == b.mon || b.mon + 1 == a.mon;
    }
  }

  /** The identifier is positive and fits the C `int` up to the year 5984. */
  lemma MinuteIdFits(m: Minute)
    requires ValidMinute(m)
    ensures 0 < MinuteId(m) <= 0x7fff_ffff
  {
    hide IsLeap;
  }

  // ---------- the state machine ----------

  /** The three mask tests of `should_execute_task_simple`. */
  predicate Due(timing: Commands.Timing, t: Tm)
    requires ValidTm(t)
  {
    Bit(timing.minutes, t.min) && Bit(timing.hours, t.hour) && Bit(timing.days, t.wday)
  }

  predicate ShouldExecute(task: Task, t: Tm)
    requires ValidTm(t)
  {
    t.sec == 0 && Due(task.timing, t)
  }

  type ValidTime = t: Tm | ValidTm(t) witness Tm(0, 0, 1, 0, 0, 0, 0)

  /** A task handed to the executor, with the minuteId noted for it and its execution timestamp. */
  datatype Launch = Launch(task: Task, minuteId: int, at: ValidTime)

  /** `slots` is `last_executed_minute`, `latch` is `last_checked_minute_id`. */
  datatype State = State(
    iteration: nat,
    latch: int,
    cached: seq<Task>,
    slots: Option<seq<int>>,
    stopped: bool,
    launches: seq<Launch>)

  /**
   What the environment provides during one turn of the loop: the clock sample, the outcome of a
   reload, the clock read again for each slot, and the first test of `g_stop` that finds it set.
   The tests are numbered 0 (reload), 1 (load), 2 (after the load) and 3 + i (slot i).
   */
  datatype Tick = Tick(now: ValidTime, load: Option<seq<Task>>, reread: nat -> ValidTime, stop: Option<nat>)

  predicate StopSeen(t: Tick, test: nat) { t.stop.Some? && t.stop.value <= test }

  function Unused(n: nat): (s: seq<int>)
    ensures |s| == n && forall i | 0 <= i < n :: s[i] == NEVER
  {
    seq(n, i => NEVER)
  }

  /** The execution timestamp: the sample itself, or second 0 of its minute. */
  function AtZero(t: ValidTime): ValidTime { t.(sec := 0) }

  predicate ReloadDue(s: State, t: Tick) {
    s.iteration % RELOAD_PERIOD == 0 && t.now.sec != 0 && !StopSeen(t, 0)
  }

  /** A reload keeps the slot array when the number of tasks is unchanged, whatever the tasks are. */
  function Reload(s: State, t: Tick): State {
    if !StopSeen(t, 1) && t.load.Some? then
      s.(cached := t.load.value,
         slots := if StopSeen(t, 2) then None
                  else if |s.cached| == |t.load.value| && s.slots.Some? then s.slots
                  else Some(Unused(|t.load.value|)))
    else s.(cached := [])
  }

  predicate SlotHolds(slots: Option<seq<int>>, i: nat, minuteId: int) {
    slots.Some? && i < |slots.value| && slots.value[i] == minuteId
  }

  /** What happens at slot `i`; at startup there is no test of the slot. */
  predicate Launches(s: State, t: Tick, i: nat, guarded: bool) {
    && i < |s.cached| && !StopSeen(t, 3 + i)
    && !(guarded && SlotHolds(s.slots, i, MinuteId(MinuteOf(t.now))))
    && ShouldExecute(s.cached[i], t.reread(i))
  }

  function LaunchOf(s: State, t: Tick, i: nat): Launch
    requires i < |s.cached|
  {
    Launch(s.cached[i], MinuteId(MinuteOf(t.now)), AtZero(t.now))
  }

  function SetSlot(s: State, i: nat, minuteId: int): State {
    if s.slots.Some? && i < |s.slots.value| then s.(slots := Some(s.slots.value[i := minuteId])) else s
  }

  /** The loop over the slots, from `i` on. */
  function Visit(s: State, t: Tick, i: nat, guarded: bool): State
    decreases |s.cached| - i
  {
    if i >= |s.cached| || StopSeen(t, 3 + i) then s
    else if Launches(s, t, i, guarded) then
      var s' := SetSlot(s, i, MinuteId(MinuteOf(t.now)));
      Visit(s'.(launches := s.launches + [LaunchOf(s, t, i)]), t, i + 1, guarded)
    else Visit(s, t, i + 1, guarded)
  }

  /** The window of seconds 0 and 1, the latch, and its reset. */
  function Check(s: State, t: Tick): State {
    if t.now.sec == 0 || t.now.sec == 1 then
      var minuteId := MinuteId(MinuteOf(t.now));
      if s.latch != minuteId then Visit(s.(latch := minuteId), t, 0, true) else s
    else if s.latch >= 0 && t.now.sec >= 2 then s.(latch := NEVER)
    else s
  }

  /** One turn of the loop. */
  function Step(s: State, t: Tick): State {
    var s1 := s.(iteration := s.iteration + 1);
    var s2 := if ReloadDue(s1, t) then Reload(s1, t) else s1;
    Check(s2, t).(stopped := t.stop.Some?)
  }

  predicate Continues(s: State) { !s.stopped && s.iteration < MAX_ITERATIONS }

  function Run(s: State, ticks: seq<Tick>): State
    decreases |ticks|
  {
    if ticks == [] || !Continues(s) then s else Run(Step(s, ticks[0]), ticks[1..])
  }

  /** The start of the thread; it ends at once when the first load fails. */
  function Startup(t: Tick): Option<State> {
    if t.load.None? then None else
    var tasks := t.load.value;
    var s := State(0, NEVER, tasks, if tasks == [] then None else Some(Unused(|tasks|)), false, []);
    Some((if t.now.sec == 0 || t.now.sec == 1 then Visit(s, t, 0, false) else s).(stopped := t.stop.Some?))
  }

  // ---------- the thread ----------

  class SchedulerThread {
    var iteration: nat
    var lastChecked: int
    var cached: seq<Task>
    var lastExecuted: array?<int>
    var stop: bool
    var launches: seq<Launch>

    function View(): State
      reads this, lastExecuted
    {
      var slots := if lastExecuted == null then None else Some(lastExecuted[..]);
      State(iteration, lastChecked, cached, slots, stop, launches)
    }

    /** The slot array, when there is one, has a slot for each cached task. */
    predicate Valid()
      reads this, lastExecuted
    {
      lastExecuted != null ==> |cached| <= lastExecuted.Length
    }

    constructor ()
      ensures View() == State(0, NEVER, [], None, false, []) && Valid()
    {
      iteration, lastChecked, cached, lastExecuted, stop, launches := 0, NEVER, [], null, false, [];
    }

    /** `calloc` and the loop that fills in -1. */
    method FreshSlots(n: nat) returns (a: array<int>)
      ensures fresh(a) && a[..] == Unused(n)
    {
      a := new int[n](i => 0);
      for i := 0 to n
        invariant forall k | 0 <= k < i :: a[k] == NEVER
      {
        a[i] := NEVER;
      }
    }

    /** The preload, the immediate check, and nothing else if the tasks cannot be loaded. */
    method Start(t: Tick) returns (ok: bool)
      requires View() == State(0, NEVER, [], None, false, [])
      modifies this
      ensures Valid()
      ensures ok <==> Startup(t).Some?
      ensures ok ==> View() == Startup(t).value
    {
      hide Visit, MinuteId, ValidTm, ShouldExecute;
      if t.load.None? { return false; }
      cached := t.load.value;
      if |cached| > 0 {
        lastExecuted := FreshSlots(|cached|);
      }
      if t.now.sec == 0 || t.now.sec == 1 {
        VisitSlots(t, false);
      }
      stop := t.stop.Some?;
      ok := true;
    }

    /** The loop over the cached tasks. */
    method VisitSlots(t: Tick, guarded: bool)
      requires Valid()
      modifies this`launches, lastExecuted
      ensures View() == Visit(old(View()), t, 0, guarded)
    {
      hide MinuteId, ValidTm, ShouldExecute;
      ghost var whole := Visit(View(), t, 0, guarded);
      var minuteId := MinuteId(MinuteOf(t.now));
      var i := 0;
      while i < |cached| && !StopSeen(t, 3 + i)
        invariant whole == Visit(View(), t, i, guarded)
        invariant Valid()
      {
        if guarded && lastExecuted != null && lastExecuted[i] == minuteId {
          i := i + 1;
          continue;
        }
        if ShouldExecute(cached[i], t.reread(i)) {
          launches := launches + [Launch(cached[i], minuteId, AtZero(t.now))];
          if lastExecuted != null {
            ghost var before := lastExecuted[..];
            lastExecuted[i] := minuteId;
            assert lastExecuted[..] == before[i := minuteId];
          }
        }
        i := i + 1;
      }
    }

    method ReloadTasks(t: Tick)
      requires Valid()
      modifies this`cached, this`lastExecuted
      ensures Valid() && View() == Reload(old(View()), t)
      ensures lastExecuted == old(lastExecuted) || lastExecuted == null || fresh(lastExecuted)
    {
      var oldLastExecuted, oldCount := lastExecuted, |cached|;
      cached := [];
      lastExecuted := null;
      if !StopSeen(t, 1) && t.load.Some? {
        cached := t.load.value;
        if !StopSeen(t, 2) {
          if oldCount == |cached| && oldLastExecuted != null {
            lastExecuted := oldLastExecuted;
          } else {
            lastExecuted := FreshSlots(|cached|);
          }
        }
      } else if oldLastExecuted != null {
        lastExecuted := oldLastExecuted;
      }
    }

    /** One turn of the loop. */
    method Iterate(t: Tick)
      requires Valid()
      modifies this, lastExecuted
      ensures Valid() && View() == Step(old(View()), t)
      ensures lastExecuted == old(lastExecuted) || lastExecuted == null || fresh(lastExecuted)
    {
      hide Visit, Check, Reload, MinuteId, ValidTm;
      iteration := iteration + 1;
      if iteration % RELOAD_PERIOD == 0 && t.now.sec != 0 && !StopSeen(t, 0) {
        ReloadTasks(t);
      }
      CheckMinute(t);
      stop := t.stop.Some?;
    }

    method CheckMinute(t: Tick)
      requires Valid()
      modifies this`lastChecked, this`launches, lastExecuted
      ensures Valid() && View() == Check(old(View()), t)
    {
      hide Visit, MinuteId, ValidTm;
      if t.now.sec == 0 || t.now.sec == 1 {
        var minuteId := MinuteId(MinuteOf(t.now));
        if lastChecked != minuteId {
          lastChecked := minuteId;
          VisitSlots(t, true);
        }
      } else {
        if lastChecked >= 0 && t.now.sec >= 2 {
          lastChecked := NEVER;
        }
      }
    }

    /** `task_execution_thread`: it ends when asked to, or after a million turns. */
    method Loop(ticks: seq<Tick>)
      requires Valid()
      modifies this, lastExecuted
      ensures Valid() && View() == Run(old(View()), ticks)
    {
      hide Step;
      ghost var whole := Run(View(), ticks);
      var n := 0;
      assert ticks[0..] == ticks;
      while !stop && iteration < MAX_ITERATIONS && n < |ticks|
        invariant n <= |ticks|
        invariant Valid() && whole == Run(View(), ticks[n..])
        invariant lastExecuted == old(lastExecuted) || lastExecuted == null || fresh(lastExecuted)
        decreases MAX_ITERATIONS - iteration
      {
        StepCounts(View(), ticks[n]);
        Iterate(ticks[n]);
        assert ticks[n..][1..] == ticks[n + 1..];
        n := n + 1;
      }
    }
  }

  lemma {:induction false} VisitKeeps(s: State, t: Tick, i: nat, guarded: bool)
    ensures var v := Visit(s, t, i, guarded);
      v.iteration == s.iteration && v.latch == s.latch && v.cached == s.cached && v.stopped == s.stopped
    ensures s.slots.Some? == Visit(s, t, i, guarded).slots.Some?
    ensures s.slots.Some? ==> |s.slots.value| == |Visit(s, t, i, guarded).slots.value|
    decreases |s.cached| - i
  {
    hide MinuteId, ValidTm, ShouldExecute;
    if i >= |s.cached| || StopSeen(t, 3 + i) {
    } else {
      if Launches(s, t, i, guarded) {
        var s' := SetSlot(s, i, MinuteId(MinuteOf(t.now)));
        VisitKeeps(s'.(launches := s.launches + [LaunchOf(s, t, i)]), t, i + 1, guarded);
      } else {
        VisitKeeps(s, t, i + 1, guarded);
      }
    }
  }

  lemma StepCounts(s: State, t: Tick)
    ensures Step(s, t).iteration == s.iteration + 1
  {
    hide Visit, MinuteId, ValidTm;
    var s1 := s.(iteration := s.iteration + 1);
    var s2 := if ReloadDue(s1, t) then Reload(s1, t) else s1;
    VisitKeeps(s2.(latch := MinuteId(MinuteOf(t.now))), t, 0, true);
  }

  // ---------- what one visit launches ----------

  /** The launches of the loop from slot `i` on, in order. */
  function NewLaunches(s: State, t: Tick, i: nat, guarded: bool): seq<Launch>
    decreases |s.cached| - i
  {
    if i >= |s.cached| || StopSeen(t, 3 + i) then []
    else (if Launches(s, t, i, guarded) then [LaunchOf(s, t, i)] else []) + NewLaunches(s, t, i + 1, guarded)
  }

  /** `s'` is `s` with other launches and other slots below `i`. */
  ghost predicate SameFrom(s: State, s': State, i: nat) {
    && s'.cached == s.cached && s'.slots.Some? == s.slots.Some?
    && (s.slots.Some? ==>
         && |s'.slots.value| == |s.slots.value|
         && forall k | i <= k < |s.slots.value| :: s'.slots.value[k] == s.slots.value[k])
  }

  lemma {:induction false} SameNewLaunches(s: State, s': State, t: Tick, i: nat, guarded: bool)
    requires SameFrom(s, s', i)
    ensures NewLaunches(s, t, i, guarded) == NewLaunches(s', t, i, guarded)
    decreases |s.cached| - i
  {
    hide MinuteId, ValidTm, ShouldExecute;
    if i >= |s.cached| || StopSeen(t, 3 + i) {
    } else {
      SameNewLaunches(s, s', t, i + 1, guarded);
    }
  }

  lemma LaunchAppended(ls: seq<Launch>, l: Launch, rest: seq<Launch>)
    ensures ls + [l] + rest == ls + ([l] + rest)
  {
  }

  /** The loop appends those launches and notes each of them in its slot. */
  lemma {:induction false} VisitResult(s: State, t: Tick, i: nat, guarded: bool)
    ensures Visit(s, t, i, guarded).launches == s.launches + NewLaunches(s, t, i, guarded)
    ensures Visit(s, t, i, guarded).slots.Some? <==> s.slots.Some?
    ensures s.slots.Some? ==>
      && |Visit(s, t, i, guarded).slots.value| == |s.slots.value|
      && forall k | 0 <= k < |s.slots.value| ::
           Visit(s, t, i, guarded).slots.value[k] ==
             if i <= k && Launches(s, t, k, guarded) then MinuteId(MinuteOf(t.now)) else s.slots.value[k]
    decreases |s.cached| - i
  {
    hide MinuteId, ValidTm, ShouldExecute;
    VisitKeeps(s, t, i, guarded);
    if i >= |s.cached| || StopSeen(t, 3 + i) {
    } else {
      if Launches(s, t, i, guarded) {
        var s' := SetSlot(s, i, MinuteId(MinuteOf(t.now))).(launches := s.launches + [LaunchOf(s, t, i)]);
        VisitResult(s', t, i + 1, guarded);
        SameNewLaunches(s, s', t, i + 1, guarded);
        forall k: nat | i < k ensures Launches(s', t, k, guarded) == Launches(s, t, k, guarded) {
        }
        LaunchAppended(s.launches, LaunchOf(s, t, i), NewLaunches(s, t, i + 1, guarded));
      } else {
        VisitResult(s, t, i + 1, guarded);
        assert [] + NewLaunches(s, t, i + 1, guarded) == NewLaunches(s, t, i + 1, guarded);
      }
    }
  }

  /** Exactly the slots that pass all the tests launch their task. */
  lemma {:induction false} NewLaunchesIff(s: State, t: Tick, i: nat, guarded: bool, l: Launch)
    ensures l in NewLaunches(s, t, i, guarded) <==>
      exists k: nat :: i <= k && Launches(s, t, k, guarded) && l == LaunchOf(s, t, k)
    decreases |s.cached| - i
  {
    hide MinuteId, ValidTm, ShouldExecute;
    if i >= |s.cached| || StopSeen(t, 3 + i) {
    } else {
      NewLaunchesIff(s, t, i + 1, guarded, l);
    }
  }

  predicate DistinctTasks(ts: seq<Task>) { forall i, j | 0 <= i < j < |ts| :: ts[i].id != ts[j].id }

  predicate DifferentTasks(ls: seq<Launch>) { forall a, b | 0 <= a < b < |ls| :: ls[a].task.id != ls[b].task.id }

  lemma {:induction false} NewLaunchesDistinct(s: State, t: Tick, i: nat, guarded: bool)
    requires DistinctTasks(s.cached)
    ensures DifferentTasks(NewLaunches(s, t, i, guarded))
    decreases |s.cached| - i
  {
    hide MinuteId, ValidTm, ShouldExecute;
    if i >= |s.cached| || StopSeen(t, 3 + i) {
    } else {
      NewLaunchesDistinct(s, t, i + 1, guarded);
      var rest := NewLaunches(s, t, i + 1, guarded);
      forall b | 0 <= b < |rest| ensures rest[b].task.id != s.cached[i].id {
        NewLaunchesIff(s, t, i + 1, guarded, rest[b]);
      }
      var new' := NewLaunches(s, t, i, guarded);
      forall a, b | 0 <= a < b < |new'| ensures new'[a].task.id != new'[b].task.id {
        if Launches(s, t, i, guarded) {
          assert new' == [LaunchOf(s, t, i)] + rest;
          if a == 0 {
            assert rest[b - 1].task.id != s.cached[i].id;
          } else {
            assert rest[a - 1].task.id != rest[b - 1].task.id;
          }
        } else {
          assert new' == rest;
        }
      }
    }
  }

  // ---------- the invariant of every run ----------

  /** No task is launched twice for the same minute. */
  ghost predicate OncePerMinute(ls: seq<Launch>) {
    forall i, j | 0 <= i < j < |ls| :: ls[i].task.id == ls[j].task.id ==> MinuteOf(ls[i].at) != MinuteOf(ls[j].at)
  }

  ghost predicate Chronological(ls: seq<Launch>) {
    forall i, j | 0 <= i < j < |ls| :: Ordinal(MinuteOf(ls[i].at)) <= Ordinal(MinuteOf(ls[j].at))
  }

  /** Every launch carries the identifier of its minute, and is not after the last sample. */
  ghost predicate Recorded(ls: seq<Launch>, last: ValidTime) {
    forall l | l in ls ::
      l.minuteId == MinuteId(MinuteOf(l.at)) && Ordinal(MinuteOf(l.at)) <= Ordinal(MinuteOf(last))
  }

  /** Some slot remembers the launch of task `id` under `minuteId`. */
  ghost predicate Remembered(cached: seq<Task>, slots: Option<seq<int>>, id: uint64, minuteId: int) {
    exists k: nat :: k < |cached| && cached[k].id == id && SlotHolds(slots, k, minuteId)
  }

  /** A noted identifier comes from a launch. */
  ghost predicate SlotsAreLaunches(slots: Option<seq<int>>, ls: seq<Launch>) {
    slots.Some? ==> forall k | 0 <= k < |slots.value| :: slots.value[k] == NEVER || IsNoted(ls, slots.value[k])
  }

  ghost predicate IsNoted(ls: seq<Launch>, minuteId: int) { exists l | l in ls :: l.minuteId == minuteId }

  /**
   What ties the latch, the slots and the reloads together: a launch for the minute of the last
   sample is guarded by the latch, or by its slot while no turn of the loop has been made, until
   the sample is past the window of two seconds.
   */
  ghost predicate Good(s: State, last: ValidTime) {
    && DistinctTasks(s.cached)
    && Recorded(s.launches, last) && Chronological(s.launches) && OncePerMinute(s.launches)
    && SlotsAreLaunches(s.slots, s.launches)
    && forall l | l in s.launches && MinuteOf(l.at) == MinuteOf(last) ::
         if s.iteration == 0 then Remembered(s.cached, s.slots, l.task.id, l.minuteId)
         else s.latch == l.minuteId || last.sec >= 2
  }

  predicate GoodTick(t: Tick) { t.load.Some? ==> DistinctTasks(t.load.value) }

  /** Before a check: launches for the sampled minute are guarded one way or the other. */
  ghost predicate Guarded(s: State, now: ValidTime) {
    forall l | l in s.launches && MinuteOf(l.at) == MinuteOf(now) ::
      s.latch == l.minuteId || now.sec >= 2 || Remembered(s.cached, s.slots, l.task.id, l.minuteId)
  }

  ghost predicate Ready(s: State, now: ValidTime) {
    && DistinctTasks(s.cached)
    && Recorded(s.launches, now) && Chronological(s.launches) && OncePerMinute(s.launches)
    && SlotsAreLaunches(s.slots, s.launches) && Guarded(s, now)
  }

  lemma TimePasses(s: State, last: ValidTime, t: Tick)
    requires Good(s, last) && Instant(last) <= Instant(t.now) && GoodTick(t)
    ensures var s1 := s.(iteration := s.iteration + 1);
      Ready(if ReloadDue(s1, t) then Reload(s1, t) else s1, t.now)
  {
    hide MinuteId, ValidMinute, Ordinal, OncePerMinute, Chronological, Remembered, IsNoted;
    var s1 := s.(iteration := s.iteration + 1);
    var s2 := if ReloadDue(s1, t) then Reload(s1, t) else s1;
    LaterMinute(last, t.now);
    forall l | l in s.launches && MinuteOf(l.at) == MinuteOf(t.now)
      ensures s2.latch == l.minuteId || t.now.sec >= 2 || Remembered(s2.cached, s2.slots, l.task.id, l.minuteId)
    {
      assert Ordinal(MinuteOf(l.at)) <= Ordinal(MinuteOf(last)) <= Ordinal(MinuteOf(t.now));
      SameOrdinal(MinuteOf(last), MinuteOf(t.now));
      assert s.iteration == 0 ==> s2 == s1;
    }
  }

  /** The launches of one visit fit the history. */
  lemma VisitExtends(s: State, t: Tick, guarded: bool)
    requires DistinctTasks(s.cached)
    requires Recorded(s.launches, t.now) && Chronological(s.launches) && OncePerMinute(s.launches)
    requires forall l | l in s.launches && MinuteOf(l.at) == MinuteOf(t.now) ::
      guarded && Remembered(s.cached, s.slots, l.task.id, l.minuteId)
    ensures var ls := Visit(s, t, 0, guarded).launches;
      Recorded(ls, t.now) && Chronological(ls) && OncePerMinute(ls)
  {
    hide MinuteId, ValidTm, ShouldExecute, Ordinal, Visit;
    var old', new' := s.launches, NewLaunches(s, t, 0, guarded);
    VisitResult(s, t, 0, guarded);
    NewLaunchesDistinct(s, t, 0, guarded);
    var ls := old' + new';
    forall l | l in new' ensures l.minuteId == MinuteId(MinuteOf(l.at)) && MinuteOf(l.at) == MinuteOf(t.now) {
      NewLaunchesIff(s, t, 0, guarded, l);
    }
    forall i, j | 0 <= i < j < |ls|
      ensures Ordinal(MinuteOf(ls[i].at)) <= Ordinal(MinuteOf(ls[j].at))
      ensures ls[i].task.id == ls[j].task.id ==> MinuteOf(ls[i].at) != MinuteOf(ls[j].at)
    {
      if i < |old'| <= j {
        assert ls[i] == old'[i] && old'[i] in old' && ls[j] == new'[j - |old'|];
        NewLaunchesIff(s, t, 0, guarded, ls[j]);
        var k: nat :| Launches(s, t, k, guarded) && ls[j] == LaunchOf(s, t, k);
        if ls[i].task.id == ls[j].task.id && MinuteOf(ls[i].at) == MinuteOf(t.now) {
          assert false;
        }
      } else if j < |old'| {
        assert ls[i] == old'[i] && ls[j] == old'[j];
      } else {
        assert ls[i] == new'[i - |old'|] && ls[j] == new'[j - |old'|];
        NewLaunchesIff(s, t, 0, guarded, ls[i]);
        NewLaunchesIff(s, t, 0, guarded, ls[j]);
      }
    }
  }

  lemma VisitRemembers(s: State, t: Tick, guarded: bool)
    requires SlotsAreLaunches(s.slots, s.launches)
    ensures SlotsAreLaunches(Visit(s, t, 0, guarded).slots, Visit(s, t, 0, guarded).launches)
  {
    hide MinuteId, ValidTm, ShouldExecute, Visit;
    var v := Visit(s, t, 0, guarded);
    VisitResult(s, t, 0, guarded);
    VisitKeeps(s, t, 0, guarded);
    if s.slots.Some? {
      forall k | 0 <= k < |s.slots.value| && v.slots.value[k] != NEVER
        ensures IsNoted(v.launches, v.slots.value[k])
      {
        if Launches(s, t, k, guarded) {
          NewLaunchesIff(s, t, 0, guarded, LaunchOf(s, t, k));
          assert LaunchOf(s, t, k) in v.launches;
        } else {
          var l :| l in s.launches && l.minuteId == s.slots.value[k];
          assert l in v.launches;
        }
      }
    }
  }

  lemma CheckGood(s: State, t: Tick)
    requires Ready(s, t.now) && s.iteration > 0
    ensures Good(Check(s, t).(stopped := t.stop.Some?), t.now)
  {
    hide MinuteId, ValidMinute, Visit, Ordinal, OncePerMinute, Chronological;
    hide DistinctTasks, SlotsAreLaunches, Remembered;
    var minuteId := MinuteId(MinuteOf(t.now));
    if t.now.sec == 0 || t.now.sec == 1 {
      if s.latch != minuteId {
        var s' := s.(latch := minuteId);
        VisitExtends(s', t, true);
        VisitRemembers(s', t, true);
        VisitKeeps(s', t, 0, true);
        var v := Visit(s', t, 0, true);
        assert Check(s, t) == v;
        assert forall l | l in v.launches && MinuteOf(l.at) == MinuteOf(t.now) :: l.minuteId == v.latch;
      } else {
        assert Check(s, t) == s;
      }
    } else {
      assert t.now.sec >= 2;
    }
  }

  lemma StepGood(s: State, last: ValidTime, t: Tick)
    requires Good(s, last) && Instant(last) <= Instant(t.now) && GoodTick(t)
    ensures Good(Step(s, t), t.now)
  {
    hide Good, Ready, Check, Instant;
    TimePasses(s, last, t);
    var s1 := s.(iteration := s.iteration + 1);
    CheckGood(if ReloadDue(s1, t) then Reload(s1, t) else s1, t);
  }

  lemma StartupGood(t: Tick)
    requires GoodTick(t) && Startup(t).Some?
    ensures Good(Startup(t).value, t.now)
  {
    hide MinuteId, ValidTm, ShouldExecute, Visit, Ordinal;
    var tasks := t.load.value;
    var s := State(0, NEVER, tasks, if tasks == [] then None else Some(Unused(|tasks|)), false, []);
    if t.now.sec == 0 || t.now.sec == 1 {
      VisitExtends(s, t, false);
      VisitRemembers(s, t, false);
      VisitKeeps(s, t, 0, false);
      VisitResult(s, t, 0, false);
      var v := Visit(s, t, 0, false);
      forall l | l in v.launches ensures Remembered(v.cached, v.slots, l.task.id, l.minuteId) {
        NewLaunchesIff(s, t, 0, false, l);
        var k: nat :| Launches(s, t, k, false) && l == LaunchOf(s, t, k);
        assert SlotHolds(v.slots, k, l.minuteId);
      }
    }
  }

  /** The samples never go back, from `last` on, and reloads never list a task twice. */
  ghost predicate Orderly(last: ValidTime, ticks: seq<Tick>)
    decreases |ticks|
  {
    ticks == [] || (Instant(last) <= Instant(ticks[0].now) && GoodTick(ticks[0]) && Orderly(ticks[0].now, ticks[1..]))
  }

  /** The last sample that a run from `s` takes, `last` if it takes none. */
  function LastSample(s: State, last: ValidTime, ticks: seq<Tick>): ValidTime
    decreases |ticks|
  {
    if ticks == [] || !Continues(s) then last else LastSample(Step(s, ticks[0]), ticks[0].now, ticks[1..])
  }

  lemma {:induction false} RunGood(s: State, last: ValidTime, ticks: seq<Tick>)
    requires Good(s, last) && Orderly(last, ticks)
    ensures Good(Run(s, ticks), LastSample(s, last, ticks))
    decreases |ticks|
  {
    hide Good, Step, Instant, GoodTick;
    if ticks == [] || !Continues(s) {
    } else {
      StepGood(s, last, ticks[0]);
      RunGood(Step(s, ticks[0]), ticks[0].now, ticks[1..]);
    }
  }

  /**
   Over every run with a clock that does not go back, through the startup check, every turn and
   every reload: no task is launched twice for the same sampled minute; and two launches of a task
   carry the same identifier exactly when the first is for the 31st and the second for the 1st of the
   next month, same year and same time.
   */
  lemma NoDoubleLaunch(first: Tick, ticks: seq<Tick>, i: nat, j: nat)
    requires Startup(first).Some? && GoodTick(first) && Orderly(first.now, ticks)
    requires i < j < |Run(Startup(first).value, ticks).launches|
    ensures var ls := Run(Startup(first).value, ticks).launches;
      ls[i].task.id == ls[j].task.id ==>
        && MinuteOf(ls[i].at) != MinuteOf(ls[j].at)
        && (ls[i].minuteId == ls[j].minuteId <==> MonthEnd(MinuteOf(ls[i].at), MinuteOf(ls[j].at)))
  {
    hide Startup, Run, Orderly, GoodTick, LastSample, MinuteId, ValidMinute;
    StartupGood(first);
    RunGood(Startup(first).value, first.now, ticks);
    var ls := Run(Startup(first).value, ticks).launches;
    assert ls[i] in ls && ls[j] in ls;
    var a, b := MinuteOf(ls[i].at), MinuteOf(ls[j].at);
    MinuteIdMeaning(a, b);
  }

  lemma MinuteIdMeaning(a: Minute, b: Minute)
    requires ValidMinute(a) && ValidMinute(b) && Ordinal(a) <= Ordinal(b)
    ensures MinuteId(a) == MinuteId(b) <==> a == b || MonthEnd(a, b)
  {
    hide ValidMinute, MinuteId;
    MinuteIdCollision(a, b);
  }

  // ---------- which tasks a check launches ----------

  /**
   When a sample falls in second 0, the clock read again gives the same fields, and nobody asks the
   thread to stop, the turn launches exactly the cached tasks whose three bits are set, except those
   whose slot already holds the identifier; and none at all if the latch holds it.
   */
  lemma CheckLaunchesExactly(s: State, t: Tick, l: Launch)
    requires t.now.sec == 0 && t.stop.None? && forall i: nat :: t.reread(i) == t.now
    ensures s.launches <= Step(s, t).launches
    ensures l in Step(s, t).launches[|s.launches|..] <==>
      && s.latch != MinuteId(MinuteOf(t.now))
      && exists k: nat :: k < |s.cached| && Due(s.cached[k].timing, t.now)
           && !SlotHolds(s.slots, k, MinuteId(MinuteOf(t.now))) && l == LaunchOf(s, t, k)
  {
    hide MinuteId, ValidTm, Due, Visit, NewLaunches;
    var minuteId := MinuteId(MinuteOf(t.now));
    var s2 := s.(iteration := s.iteration + 1);
    assert !ReloadDue(s2, t);
    if s.latch != minuteId {
      var s3 := s2.(latch := minuteId);
      VisitResult(s3, t, 0, true);
      NewLaunchesIff(s3, t, 0, true, l);
      assert Step(s, t).launches == s.launches + NewLaunches(s3, t, 0, true);
      assert Step(s, t).launches[|s.launches|..] == NewLaunches(s3, t, 0, true);
      forall k: nat | k < |s.cached|
        ensures Launches(s3, t, k, true) <==> Due(s.cached[k].timing, t.now) && !SlotHolds(s.slots, k, minuteId)
        ensures LaunchOf(s3, t, k) == LaunchOf(s, t, k)
      {
      }
    }
  }

  /** A mask with no bit at all. */
  predicate NeverDue(task: Task) {
    task.timing.minutes == 0 || task.timing.hours == 0 || task.timing.days == 0
  }

  /** A task with an empty mask is launched on no run, whatever the clock does. */
  lemma {:induction false} EmptyMaskNeverLaunched(first: Tick, ticks: seq<Tick>)
    requires Startup(first).Some?
    ensures forall l | l in Run(Startup(first).value, ticks).launches :: !NeverDue(l.task)
  {
    hide Visit, Run, NeverDue;
    var tasks := first.load.value;
    var s := State(0, NEVER, tasks, if tasks == [] then None else Some(Unused(|tasks|)), false, []);
    VisitLaunchesDue(s, first, false);
    RunLaunchesDue(Startup(first).value, ticks);
  }

  lemma VisitLaunchesDue(s: State, t: Tick, guarded: bool)
    requires forall l | l in s.launches :: !NeverDue(l.task)
    ensures forall l | l in Visit(s, t, 0, guarded).launches :: !NeverDue(l.task)
  {
    hide Visit, MinuteId, Bit;
    VisitResult(s, t, 0, guarded);
    forall l | l in NewLaunches(s, t, 0, guarded) ensures !NeverDue(l.task) {
      NewLaunchesIff(s, t, 0, guarded, l);
      var k: nat :| Launches(s, t, k, guarded) && l == LaunchOf(s, t, k);
      var now := t.reread(k);
      ZeroBits(now.min);
      ZeroBits(now.hour);
      ZeroBits(now.wday);
    }
  }

  lemma {:induction false} RunLaunchesDue(s: State, ticks: seq<Tick>)
    requires forall l | l in s.launches :: !NeverDue(l.task)
    ensures forall l | l in Run(s, ticks).launches :: !NeverDue(l.task)
    decreases |ticks|
  {
    hide Visit, NeverDue, MinuteId;
    if ticks == [] || !Continues(s) {
    } else {
      var t := ticks[0];
      var s1 := s.(iteration := s.iteration + 1);
      var s2 := if ReloadDue(s1, t) then Reload(s1, t) else s1;
      VisitLaunchesDue(s2.(latch := MinuteId(MinuteOf(t.now))), t, true);
      RunLaunchesDue(Step(s, t), ticks[1..]);
    }
  }
}
