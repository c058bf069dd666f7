/**
 What the scheduler launches, said with the texts of the timing that the client typed and with the clock,
 and what it never launches.
 */
module Selection {
  import opened Bytes
  import opened Masks
  import opened TimingText
  import opened Scheduler
  import opened Slots

  // ---------- texts and launches ----------

  /** A timing text selects a value: all of them, none, or those of its values and ranges. */
  ghost predicate Selects(s: string, v: nat) { s == "*" || (s != "-" && CoveredBy(Tokens(s), v)) }

  /** Three texts stand for the masks of a task. */
  ghost predicate Denote(a: string, b: string, c: string, task: Task) {
    && IsParse(a, 59, Some(task.timing.minutes))
    && IsParse(b, 23, Some(task.timing.hours))
    && IsParse(c, 6, Some(task.timing.days))
  }

  ghost predicate SelectsNow(a: string, b: string, c: string, now: ValidTime) {
    Selects(a, now.min) && Selects(b, now.hour) && Selects(c, now.wday)
  }

  lemma SelectsBit(s: string, max: nat, m: nat, v: nat)
    requires IsParse(s, max, Some(m)) && v <= max
    ensures Bit(m, v) <==> Selects(s, v)
  {
    hide Tokens, CoveredBy, Bit;
    OnesBits(max + 1, v);
    ZeroBits(v);
  }

  lemma DueIsSelected(a: string, b: string, c: string, task: Task, now: ValidTime)
    requires Denote(a, b, c, task)
    ensures Due(task.timing, now) <==> SelectsNow(a, b, c, now)
  {
    hide IsParse, Selects, Bit;
    SelectsBit(a, 59, task.timing.minutes, now.min);
    SelectsBit(b, 23, task.timing.hours, now.hour);
    SelectsBit(c, 6, task.timing.days, now.wday);
  }

  /** A turn launches the task. */
  ghost predicate LaunchedNow(s: State, t: Tick, task: Task)
    requires s.launches <= Step(s, t).launches
  {
    exists l | l in Step(s, t).launches[|s.launches|..] :: l.task == task
  }

  /**
   In a turn at second 0 with stable readings, with the latch and its slot free, a task is launched exactly
   if its three texts select the minute, the hour and the day of the week.
   */
  lemma LaunchedIffSelected(s: State, t: Tick, k: nat, a: string, b: string, c: string)
    requires t.now.sec == 0 && t.stop.None? && forall i: nat :: t.reread(i) == t.now
    requires k < |s.cached| && Denote(a, b, c, s.cached[k])
    requires s.latch != MinuteId(MinuteOf(t.now)) && !SlotHolds(s.slots, k, MinuteId(MinuteOf(t.now)))
    ensures s.launches <= Step(s, t).launches
    ensures LaunchedNow(s, t, s.cached[k]) <==> SelectsNow(a, b, c, t.now)
  {
    hide Step, Due, MinuteId, ValidMinute, Denote, SelectsNow;
    DueIsSelected(a, b, c, s.cached[k], t.now);
    CheckLaunchesExactly(s, t, LaunchOf(s, t, k));
    var new' := Step(s, t).launches[|s.launches|..];
    if SelectsNow(a, b, c, t.now) {
      assert LaunchOf(s, t, k) in new' && LaunchOf(s, t, k).task == s.cached[k];
    }
    if l :| l in new' && l.task == s.cached[k] {
      CheckLaunchesExactly(s, t, l);
      var i: nat :| i < |s.cached| && Due(s.cached[i].timing, t.now) && l == LaunchOf(s, t, i);
      assert LaunchOf(s, t, i).task == s.cached[i];
    }
  }

  /** Over every run, reloads included, when exactly a cached task is launched. */
  lemma RunLaunchesSelected(first: Tick, ticks: seq<Tick>, t: Tick, k: nat, a: string, b: string, c: string)
    requires RunsUpTo(first, ticks, t.now)
    requires t.now.sec == 0 && t.stop.None? && forall i: nat :: t.reread(i) == t.now
    requires k < |After(first, ticks).cached| && Denote(a, b, c, After(first, ticks).cached[k])
    ensures var s := After(first, ticks);
      && s.launches <= Step(s, t).launches
      && (!KeptBack(s, t, k) <==>
           && SelectsNow(a, b, c, t.now)
           && !LatchBlocks(s, SampleAfter(first, ticks), t.now)
           && !SlotBlocks(s, OwnerAfter(first, ticks, k), t.now))
  {
    hide Startup, Run, RunOwners, StartupOwners, Orderly, GoodTick, LastSample, Due, MinuteId, ValidMinute;
    hide LatchBlocks, SlotBlocks, Step, Denote, SelectsNow, OwnerAfter;
    var s := After(first, ticks);
    DueIsSelected(a, b, c, s.cached[k], t.now);
    if Due(s.cached[k].timing, t.now) {
      KeptBackIff(first, ticks, t, k);
    } else {
      RunInvariants(first, ticks);
      NotDueKeptBack(s, t, k);
    }
  }

  lemma NotDueKeptBack(s: State, t: Tick, k: nat)
    requires t.now.sec == 0 && t.stop.None? && forall i: nat :: t.reread(i) == t.now
    requires DistinctTasks(s.cached) && k < |s.cached| && !Due(s.cached[k].timing, t.now)
    ensures s.launches <= Step(s, t).launches && KeptBack(s, t, k)
  {
    hide Step, Due, MinuteId, ValidMinute;
    CheckLaunchesExactly(s, t, LaunchOf(s, t, k));
    forall l | l in Step(s, t).launches[|s.launches|..] ensures l.task.id != s.cached[k].id {
      CheckLaunchesExactly(s, t, l);
      var i: nat :| i < |s.cached| && Due(s.cached[i].timing, t.now) && l == LaunchOf(s, t, i);
      assert LaunchOf(s, t, i).task == s.cached[i];
    }
  }

  /** The startup check at second 0 launches exactly the tasks whose texts select the time. */
  lemma StartupLaunchesSelected(t: Tick, k: nat, a: string, b: string, c: string)
    requires t.now.sec == 0 && t.stop.None? && forall i: nat :: t.reread(i) == t.now
    requires Startup(t).Some? && k < |t.load.value| && Denote(a, b, c, t.load.value[k])
    ensures (exists l | l in Startup(t).value.launches :: l.task == t.load.value[k]) <==> SelectsNow(a, b, c, t.now)
  {
    hide Due, Visit, NewLaunches, MinuteId, ValidMinute, Denote, SelectsNow;
    var s := Initial(t.load.value);
    DueIsSelected(a, b, c, s.cached[k], t.now);
    VisitResult(s, t, 0, false);
    var new' := NewLaunches(s, t, 0, false);
    assert Startup(t).value.launches == [] + new' == new';
    if SelectsNow(a, b, c, t.now) {
      NewLaunchesIff(s, t, 0, false, LaunchOf(s, t, k));
      assert Launches(s, t, k, false);
    }
    if l :| l in new' && l.task == s.cached[k] {
      NewLaunchesIff(s, t, 0, false, l);
    }
  }

  // ---------- one turn ----------

  /** The state in which a turn that checks the tasks begins with them. */
  function AtCheck(s: State, t: Tick): State {
    var s1 := s.(iteration := s.iteration + 1);
    (if ReloadDue(s1, t) then Reload(s1, t) else s1).(latch := MinuteId(MinuteOf(t.now)))
  }

  lemma TurnLaunches(s: State, t: Tick)
    ensures s.launches <= Step(s, t).launches
    ensures var new' := Step(s, t).launches[|s.launches|..];
      new' == [] || new' == NewLaunches(AtCheck(s, t), t, 0, true)
  {
    hide Visit, NewLaunches, MinuteId, ValidMinute;
    var new' := NewLaunches(AtCheck(s, t), t, 0, true);
    VisitResult(AtCheck(s, t), t, 0, true);
    assert (s.launches + new')[|s.launches|..] == new' && s.launches[|s.launches|..] == [];
  }

  // ---------- second 1 ----------

  /**
   The window includes second 1 in order to catch up on a second 0 that was missed. It never does: a turn
   that samples second 1, and reads the clock again in the same minute, launches nothing, but takes the
   minute for checked.
   */
  lemma SecondOneCatchesNothing(s: State, t: Tick)
    requires t.now.sec == 1
    requires forall i: nat :: MinuteOf(t.reread(i)) == MinuteOf(t.now) && t.reread(i).sec >= t.now.sec
    ensures Step(s, t).launches == s.launches
    ensures Step(s, t).latch == MinuteId(MinuteOf(t.now))
  {
    hide Visit, NewLaunches, MinuteId, ValidMinute;
    var s1 := s.(iteration := s.iteration + 1);
    var s2 := if ReloadDue(s1, t) then Reload(s1, t) else s1;
    var s3 := s2.(latch := MinuteId(MinuteOf(t.now)));
    VisitResult(s3, t, 0, true);
    VisitKeeps(s3, t, 0, true);
    if NewLaunches(s3, t, 0, true) != [] {
      NewLaunchesIff(s3, t, 0, true, NewLaunches(s3, t, 0, true)[0]);
    }
    assert s.launches + [] == s.launches;
  }

  // ---------- what is cached ----------

  /** The tasks after a turn: read again in every 6000th turn, unless that falls in second 0. */
  function Refreshed(tasks: seq<Task>, turn: nat, t: Tick): seq<Task> {
    if turn % 6000 != 0 || t.now.sec == 0 then tasks else if t.load.Some? then t.load.value else []
  }

  lemma TurnRefreshes(s: State, t: Tick)
    requires t.stop.None?
    ensures Step(s, t).cached == Refreshed(s.cached, s.iteration + 1, t)
  {
    hide Visit, MinuteId, ValidMinute;
    VisitKeeps(AtCheck(s, t), t, 0, true);
  }

  /** The slots are kept when the number of tasks is the same, or the tasks cannot be read; else all are -1. */
  lemma SlotsAfterReload(s: State, t: Tick)
    requires t.stop.None? && t.now.sec >= 2 && (s.iteration + 1) % 6000 == 0
    ensures Step(s, t).slots ==
      if t.load.None? || (s.slots.Some? && |t.load.value| == |s.cached|) then s.slots
      else Some(seq(|t.load.value|, i => -1))
  {
    hide Visit, MinuteId, ValidMinute;
    if t.load.Some? {
      assert Unused(|t.load.value|) == seq(|t.load.value|, i => -1);
    }
  }

  function RefreshedAlong(tasks: seq<Task>, turns: nat, ticks: seq<Tick>): seq<Task>
    decreases |ticks|
  {
    if ticks == [] then tasks
    else RefreshedAlong(Refreshed(tasks, turns + 1, ticks[0]), turns + 1, ticks[1..])
  }

  /** Over every run of at most a million turns that nobody stops. */
  lemma {:induction false} RunRefreshes(s: State, ticks: seq<Tick>)
    requires !s.stopped && s.iteration + |ticks| <= 1000000 && forall t | t in ticks :: t.stop.None?
    ensures Run(s, ticks).cached == RefreshedAlong(s.cached, s.iteration, ticks)
    decreases |ticks|
  {
    hide Refreshed;
    if ticks == [] {
    } else {
      TurnRefreshes(s, ticks[0]);
      StepCounts(s, ticks[0]);
      Stopped(s, ticks[0]);
      hide Step;
      RunRefreshes(Step(s, ticks[0]), ticks[1..]);
    }
  }

  /** Each launch of a turn carries second 0 of the sampled minute, and is noted under that minute. */
  lemma LaunchCarriesSample(s: State, t: Tick, l: Launch)
    requires s.launches <= Step(s, t).launches && l in Step(s, t).launches[|s.launches|..]
    ensures MinuteOf(l.at) == MinuteOf(t.now) && l.at.sec == 0
    ensures var m := MinuteOf(t.now);
      l.minuteId == m.year * 525600 + m.mon * 43200 + m.mday * 1440 + m.hour * 60 + m.min
  {
    hide Step, Visit, NewLaunches, ValidMinute, ShouldExecute, AtCheck;
    TurnLaunches(s, t);
    NewLaunchesIff(AtCheck(s, t), t, 0, true, l);
  }

  // ---------- what no run does ----------

  ghost predicate AtSecondZero(ls: seq<Launch>) { forall l | l in ls :: l.at.sec == 0 }

  lemma VisitAtSecondZero(s: State, t: Tick, guarded: bool)
    requires AtSecondZero(s.launches)
    ensures AtSecondZero(Visit(s, t, 0, guarded).launches)
  {
    hide Visit, NewLaunches, MinuteId, ValidMinute, ShouldExecute;
    VisitResult(s, t, 0, guarded);
    forall l | l in NewLaunches(s, t, 0, guarded) ensures l.at.sec == 0 {
      NewLaunchesIff(s, t, 0, guarded, l);
    }
  }

  lemma {:induction false} RunAtSecondZero(s: State, ticks: seq<Tick>)
    requires AtSecondZero(s.launches)
    ensures AtSecondZero(Run(s, ticks).launches)
    decreases |ticks|
  {
    hide Visit, MinuteId, ValidMinute, AtSecondZero;
    if ticks == [] || !Continues(s) {
    } else {
      var t := ticks[0];
      var s1 := s.(iteration := s.iteration + 1);
      var s2 := if ReloadDue(s1, t) then Reload(s1, t) else s1;
      VisitAtSecondZero(s2.(latch := MinuteId(MinuteOf(t.now))), t, true);
      RunAtSecondZero(Step(s, t), ticks[1..]);
    }
  }

  /** Every launch of every run carries a timestamp in second 0. */
  lemma LaunchesAtSecondZero(first: Tick, ticks: seq<Tick>)
    requires Startup(first).Some?
    ensures AtSecondZero(Run(Startup(first).value, ticks).launches)
  {
    hide Visit, Run, AtSecondZero;
    var s := Initial(first.load.value);
    assert AtSecondZero(s.launches) by { NothingAtAll(); }
    VisitAtSecondZero(s, first, false);
    RunAtSecondZero(Startup(first).value, ticks);
  }

  lemma NothingAtAll()
    ensures AtSecondZero([])
  {
  }

  /** The tasks that a turn looks at, after its reload if it makes one. */
  function TasksOf(s: State, t: Tick): seq<Task> {
    var s1 := s.(iteration := s.iteration + 1);
    if ReloadDue(s1, t) then Reload(s1, t).cached else s1.cached
  }

  /** The launch is of one of the first `n` tasks. */
  predicate OfTheFirst(l: Launch, tasks: seq<Task>, n: int) {
    exists k :: 0 <= k < |tasks| && k < n && l.task == tasks[k]
  }

  /** Once the request to stop is seen, at the test number `n`, no later slot is launched, and no later turn made. */
  lemma StopEndsLaunches(s: State, t: Tick, rest: seq<Tick>)
    requires t.stop.Some?
    ensures s.launches <= Step(s, t).launches
    ensures forall l | l in Step(s, t).launches[|s.launches|..] :: OfTheFirst(l, TasksOf(s, t), t.stop.value - 3)
    ensures Run(Step(s, t), rest) == Step(s, t)
  {
    hide Step, Visit, NewLaunches, MinuteId, ValidMinute, ShouldExecute, OfTheFirst, AtCheck, TasksOf;
    TurnLaunches(s, t);
    var new' := NewLaunches(AtCheck(s, t), t, 0, true);
    forall l | l in new' ensures OfTheFirst(l, TasksOf(s, t), t.stop.value - 3) {
      assert AtCheck(s, t).cached == TasksOf(s, t) by { SameTasks(s, t); }
      StoppedLaunch(AtCheck(s, t), t, l);
    }
    assert Step(s, t).stopped by { Stopped(s, t); }
  }

  lemma SameTasks(s: State, t: Tick)
    ensures AtCheck(s, t).cached == TasksOf(s, t)
  {
  }

  lemma Stopped(s: State, t: Tick)
    ensures Step(s, t).stopped <==> t.stop.Some?
  {
  }

  lemma StoppedLaunch(s: State, t: Tick, l: Launch)
    requires l in NewLaunches(s, t, 0, true) && t.stop.Some?
    ensures OfTheFirst(l, s.cached, t.stop.value - 3)
  {
    hide NewLaunches, MinuteId, ValidMinute, ShouldExecute;
    NewLaunchesIff(s, t, 0, true, l);
    var k: nat :| Launches(s, t, k, true) && l == LaunchOf(s, t, k);
    assert l.task == s.cached[k];
  }

  /** The thread makes at most a million turns, and one turn for each sample until then. */
  lemma {:induction false} RunIsBounded(s: State, ticks: seq<Tick>)
    requires s.iteration <= MAX_ITERATIONS
    ensures Run(s, ticks).iteration <= 1000000
    ensures !Run(s, ticks).stopped && Run(s, ticks).iteration < 1000000 ==>
      Run(s, ticks).iteration == s.iteration + |ticks|
    decreases |ticks|
  {
    hide Step;
    if ticks == [] || !Continues(s) {
    } else {
      StepCounts(s, ticks[0]);
      RunIsBounded(Step(s, ticks[0]), ticks[1..]);
    }
  }

  /** After a reload that failed, nothing is launched until another reload. */
  lemma FailedReloadLaunchesNothing(s: State, t: Tick, rest: seq<Tick>)
    requires Reloads(s, t) && t.load.None? && NoReload(Step(s, t), rest)
    ensures Run(Step(s, t), rest).launches == s.launches
  {
    hide MinuteId, ValidMinute, Visit, Run, NoReload;
    var s1 := s.(iteration := s.iteration + 1);
    NothingToVisit(Reload(s1, t).(latch := MinuteId(MinuteOf(t.now))), t);
    NothingCachedNothingLaunched(Step(s, t), rest);
  }

  lemma NothingToVisit(s: State, t: Tick)
    requires s.cached == []
    ensures Visit(s, t, 0, true) == s
  {
  }

  lemma {:induction false} NothingCachedNothingLaunched(s: State, ticks: seq<Tick>)
    requires s.cached == [] && NoReload(s, ticks)
    ensures Run(s, ticks).launches == s.launches
    decreases |ticks|
  {
    hide MinuteId, ValidMinute, Visit;
    if ticks == [] || !Continues(s) {
    } else {
      var t := ticks[0];
      NothingToVisit(s.(iteration := s.iteration + 1, latch := MinuteId(MinuteOf(t.now))), t);
      NothingCachedNothingLaunched(Step(s, t), ticks[1..]);
    }
  }
}
