/** Which launches the runs of the scheduler make, and which they miss. */
module Launches {
  import opened Bytes
  import opened Masks
  import Commands
  import Protocol
  import opened Scheduler
  import opened Slots

  // ---------- launches for minutes that the masks select ----------

  ghost predicate AllDue(ls: seq<Launch>) { forall l | l in ls :: Due(l.task.timing, l.at) }

  predicate SameFields(a: ValidTime, b: ValidTime) { a.min == b.min && a.hour == b.hour && a.wday == b.wday }

  /** In a turn that looks at the tasks, a clock read again in a second 0 still agrees with the sample. */
  ghost predicate Faithful(t: Tick) {
    t.now.sec <= 1 ==>
      forall i: nat | !StopSeen(t, 3 + i) && t.reread(i).sec == 0 :: SameFields(t.reread(i), t.now)
  }

  lemma VisitAllDue(s: State, t: Tick, guarded: bool)
    requires AllDue(s.launches) && Faithful(t) && t.now.sec <= 1
    ensures AllDue(Visit(s, t, 0, guarded).launches)
  {
    hide Visit, NewLaunches, MinuteId, Bit, ValidMinute;
    VisitResult(s, t, 0, guarded);
    forall l | l in NewLaunches(s, t, 0, guarded) ensures Due(l.task.timing, l.at) {
      NewLaunchesIff(s, t, 0, guarded, l);
      var k: nat :| Launches(s, t, k, guarded) && l == LaunchOf(s, t, k);
      assert SameFields(t.reread(k), t.now);
    }
  }

  lemma StartupAllDue(t: Tick)
    requires Startup(t).Some? && Faithful(t)
    ensures AllDue(Startup(t).value.launches)
  {
    hide Visit, Due;
    var tasks := t.load.value;
    var s := State(0, NEVER, tasks, if tasks == [] then None else Some(Unused(|tasks|)), false, []);
    if t.now.sec <= 1 {
      VisitAllDue(s, t, false);
    }
  }

  lemma StepAllDue(s: State, t: Tick)
    requires AllDue(s.launches) && Faithful(t)
    ensures AllDue(Step(s, t).launches)
  {
    hide Visit, Due, MinuteId, Faithful;
    if t.now.sec <= 1 {
      var s1 := s.(iteration := s.iteration + 1);
      var s2 := if ReloadDue(s1, t) then Reload(s1, t) else s1;
      VisitAllDue(s2.(latch := MinuteId(MinuteOf(t.now))), t, true);
    }
  }

  lemma {:induction false} RunAllDue(s: State, ticks: seq<Tick>)
    requires AllDue(s.launches) && forall t | t in ticks :: Faithful(t)
    ensures AllDue(Run(s, ticks).launches)
    decreases |ticks|
  {
    hide Step, Faithful, AllDue;
    if ticks == [] || !Continues(s) {
    } else {
      StepAllDue(s, ticks[0]);
      RunAllDue(Step(s, ticks[0]), ticks[1..]);
    }
  }

  /**
   Over every run whose readings agree, each launch is for a minute, hour and day of the week that the
   masks of its task select.
   */
  lemma LaunchesAreDue(first: Tick, ticks: seq<Tick>)
    requires Startup(first).Some? && Faithful(first) && forall t | t in ticks :: Faithful(t)
    ensures AllDue(Run(Startup(first).value, ticks).launches)
  {
    hide Startup, Run, Faithful, AllDue;
    StartupAllDue(first);
    RunAllDue(Startup(first).value, ticks);
  }

  /** The masks that select the fields of `r` and nothing else. */
  function Exactly(r: ValidTime): Commands.Timing {
    PowersMonotone(r.min, 59);
    PowersMonotone(r.hour, 23);
    PowersMonotone(r.wday, 6);
    FieldPowers();
    Commands.Timing(Pow2(r.min), Pow2(r.hour), Pow2(r.wday))
  }

  lemma FieldPowers()
    ensures Pow2(6) == 0x40 && Pow2(23) == 0x80_0000 && Pow2(59) == 0x800_0000_0000_0000
  {
    assert Pow2(12) == 0x1000;
    assert Pow2(18) == 0x4_0000;
    assert Pow2(30) == 0x4000_0000;
    assert Pow2(36) == 0x10_0000_0000;
    assert Pow2(42) == 0x400_0000_0000;
    assert Pow2(48) == 0x1_0000_0000_0000;
    assert Pow2(54) == 0x40_0000_0000_0000;
  }

  lemma ExactlyDue(r: ValidTime, t: ValidTime)
    ensures Due(Exactly(r), t) <==> SameFields(r, t)
  {
    PowerBits(r.min, t.min);
    PowerBits(r.hour, t.hour);
    PowerBits(r.wday, t.wday);
  }

  /** The state of the loop before its first turn, with some tasks loaded and none launched. */
  function Loaded(tasks: seq<Task>): State { State(0, NEVER, tasks, Some(Unused(|tasks|)), false, []) }

  function OnlyTask(i: nat, timing: Commands.Timing, j: nat): Task {
    Protocol.Task(j % 0x1_0000_0000_0000_0000, if j == i then timing else Commands.Timing(0, 0, 0),
                  Commands.Command(Commands.SI, [[0x61]], []))
  }

  /** Tasks of which only the one in slot `i` can be due, under the given masks. */
  function OnlySlot(i: nat, timing: Commands.Timing): (tasks: seq<Task>)
    ensures |tasks| == i + 1 && tasks[i].timing == timing
  {
    seq(i + 1, j requires 0 <= j <= i => OnlyTask(i, timing, j))
  }

  /** A reading that disagrees launches a task with the right masks for a minute they do not select. */
  lemma UnfaithfulVisit(s: State, t: Tick, i: nat, guarded: bool)
    requires t.now.sec <= 1 && !StopSeen(t, 3 + i) && t.reread(i).sec == 0
    requires !SameFields(t.reread(i), t.now)
    requires s.cached == OnlySlot(i, Exactly(t.reread(i))) && !SlotHolds(s.slots, i, MinuteId(MinuteOf(t.now)))
    ensures !AllDue(Visit(s, t, 0, guarded).launches)
  {
    hide Visit, Due, Exactly, MinuteId, NewLaunches, OnlySlot;
    VisitResult(s, t, 0, guarded);
    var l := LaunchOf(s, t, i);
    ExactlyDue(t.reread(i), t.reread(i));
    assert Launches(s, t, i, guarded);
    NewLaunchesIff(s, t, 0, guarded, l);
    assert l in Visit(s, t, 0, guarded).launches;
    ExactlyDue(t.reread(i), l.at);
  }

  /** For the startup check, no weaker condition on the readings would do. */
  lemma StartupDueIff(t: Tick)
    ensures Faithful(t) <==>
      forall tasks: seq<Task> :: AllDue(Startup(t.(load := Some(tasks))).value.launches)
  {
    hide Visit, AllDue, Exactly, OnlySlot, MinuteId;
    if Faithful(t) {
      forall tasks: seq<Task> ensures AllDue(Startup(t.(load := Some(tasks))).value.launches) {
        assert Faithful(t.(load := Some(tasks))) by { LoadIsIrrelevant(t, tasks); }
        StartupAllDue(t.(load := Some(tasks)));
      }
    } else {
      var i: nat :| !StopSeen(t, 3 + i) && t.reread(i).sec == 0 && !SameFields(t.reread(i), t.now);
      var tasks := OnlySlot(i, Exactly(t.reread(i)));
      MinuteIdFits(MinuteOf(t.now));
      UnfaithfulVisit(Loaded(tasks), t.(load := Some(tasks)), i, false);
      assert !AllDue(Startup(t.(load := Some(tasks))).value.launches);
    }
  }

  lemma LoadIsIrrelevant(t: Tick, tasks: seq<Task>)
    ensures Faithful(t) <==> Faithful(t.(load := Some(tasks)))
  {
    var t' := t.(load := Some(tasks));
    assert t'.reread == t.reread && t'.now == t.now && t'.stop == t.stop;
  }

  /** Nor for a turn of the loop. */
  lemma StepDueIff(t: Tick)
    ensures Faithful(t) <==> forall tasks: seq<Task> :: AllDue(Step(Loaded(tasks), t).launches)
  {
    hide Visit, AllDue, Exactly, OnlySlot, MinuteId;
    if Faithful(t) {
      forall tasks: seq<Task> ensures AllDue(Step(Loaded(tasks), t).launches) {
        assert AllDue([]) by { NothingDue(); }
        StepAllDue(Loaded(tasks), t);
      }
    } else {
      var i: nat :| !StopSeen(t, 3 + i) && t.reread(i).sec == 0 && !SameFields(t.reread(i), t.now);
      var tasks := OnlySlot(i, Exactly(t.reread(i)));
      MinuteIdFits(MinuteOf(t.now));
      UnfaithfulVisit(Loaded(tasks).(iteration := 1, latch := MinuteId(MinuteOf(t.now))), t, i, true);
      assert !AllDue(Step(Loaded(tasks), t).launches);
    }
  }

  lemma NothingDue()
    ensures AllDue([])
  {
  }

  /** A turn that samples `now` and then reads `seen` for every slot. */
  function TickShowing(now: ValidTime, seen: ValidTime, load: Option<seq<Task>>): Tick {
    Tick(now, load, i => seen, None)
  }

  function TickAt(now: ValidTime, load: Option<seq<Task>>): Tick { TickShowing(now, now, load) }

  const NOON: ValidTime := Tm(125, 0, 1, 12, 0, 0, 3)
  const ONE_PAST_NOON: ValidTime := Tm(125, 0, 1, 12, 1, 0, 3)

  /** A task for 12:01 only. */
  const AT_ONE_PAST_NOON := Commands.Timing(2, 0x1000, 127)

  /**
   The startup check samples 12:00:00, the clock read again shows 12:01:00, and the first turn of the
   loop samples 12:01:00. A task for 12:01 only is launched twice at that moment, the first time for
   12:00.
   */
  lemma LaunchedForAnUnselectedMinute(task: Task)
    requires task.timing == AT_ONE_PAST_NOON
    ensures var first, t := TickShowing(NOON, ONE_PAST_NOON, Some([task])), TickAt(ONE_PAST_NOON, None);
      var id0, id1 := MinuteId(MinuteOf(NOON)), MinuteId(MinuteOf(ONE_PAST_NOON));
      && Orderly(first.now, [t]) && !Due(task.timing, NOON)
      && Run(Startup(first).value, [t]).launches == [Launch(task, id0, NOON), Launch(task, id1, ONE_PAST_NOON)]
  {
    hide Due, MinuteId;
    OnePastNoonBits();
    var id0, id1 := MinuteId(MinuteOf(NOON)), MinuteId(MinuteOf(ONE_PAST_NOON));
    MinuteIdFits(MinuteOf(NOON));
    MinuteIdFits(MinuteOf(ONE_PAST_NOON));
    assert id0 != id1 by { MinuteIdMeaning(MinuteOf(NOON), MinuteOf(ONE_PAST_NOON)); }
    var first, t := TickShowing(NOON, ONE_PAST_NOON, Some([task])), TickAt(ONE_PAST_NOON, None);
    var s0 := State(0, NEVER, [task], Some(Unused(1)), false, []);
    assert Launches(s0, first, 0, false);
    var s1 := State(0, NEVER, [task], Some([id0]), false, [Launch(task, id0, NOON)]);
    assert Unused(1)[0 := id0] == [id0];
    assert Visit(s1, first, 1, false) == s1;
    assert Visit(s0, first, 0, false) == s1;
    assert Startup(first).value == s1;
    var checking := s1.(iteration := 1, latch := id1);
    assert Launches(checking, t, 0, true);
    var s2 := checking.(slots := Some([id0][0 := id1]), launches := s1.launches + [Launch(task, id1, ONE_PAST_NOON)]);
    assert Visit(s2, t, 1, true) == s2;
    assert Visit(checking, t, 0, true) == s2;
    assert Step(s1, t) == s2;
    RunOne(s1, t);
    assert [t][1..] == [];
  }

  lemma OnePastNoonBits()
    ensures Due(AT_ONE_PAST_NOON, ONE_PAST_NOON) && !Due(AT_ONE_PAST_NOON, NOON)
  {
    assert Pow2(1) == 2;
    assert Pow2(12) == 0x1000 by { assert Pow2(6) == 0x40; }
    PowerBits(1, 1);
    PowerBits(1, 0);
    PowerBits(12, 12);
    OnesBits(7, 3);
    assert Ones(7) == 127;
  }

  // ---------- the collision at work ----------

  lemma {:induction false} RunConcat(s: State, a: seq<Tick>, b: seq<Tick>)
    ensures Run(s, a + b) == Run(Run(s, a), b)
    decreases |a|
  {
    hide Step;
    if a == [] {
      assert a + b == b;
    } else {
      assert (a + b)[1..] == a[1..] + b;
      if Continues(s) {
        RunConcat(Step(s, a[0]), a[1..], b);
      }
    }
  }

  lemma RunOne(s: State, t: Tick)
    requires Continues(s)
    ensures Run(s, [t]) == Step(s, t)
  {
    hide Step;
    assert [t][1..] == [];
    assert Run(Step(s, t), []) == Step(s, t);
  }

  function Repeat(t: Tick, n: nat): (r: seq<Tick>)
    ensures |r| == n
  {
    if n == 0 then [] else [t] + Repeat(t, n - 1)
  }

  /** Turns outside the window, without a reload, only count. */
  lemma {:induction false} IdleRun(s: State, t: Tick, n: nat)
    requires t.now.sec >= 2 && t.stop.None? && s.latch == NEVER && !s.stopped
    requires s.iteration % RELOAD_PERIOD + n < RELOAD_PERIOD && s.iteration + n <= MAX_ITERATIONS
    ensures Run(s, Repeat(t, n)) == s.(iteration := s.iteration + n)
    decreases n
  {
    if n == 0 {
    } else {
      assert Repeat(t, n)[0] == t && Repeat(t, n)[1..] == Repeat(t, n - 1);
      assert (s.iteration + 1) % RELOAD_PERIOD == s.iteration % RELOAD_PERIOD + 1;
      assert Step(s, t) == s.(iteration := s.iteration + 1);
      IdleRun(s.(iteration := s.iteration + 1), t, n - 1);
    }
  }

  // A task that is due every day at midnight, the end of a January, and the turns of the loop there.

  const EVERY_MIDNIGHT := Commands.Timing(1, 1, 127)

  const BEFORE: ValidTime := Tm(125, 0, 30, 23, 59, 30, 4)
  const JANUARY_31: ValidTime := Tm(125, 0, 31, 0, 0, 0, 5)
  const LATER: ValidTime := Tm(125, 0, 31, 0, 0, 5, 5)
  const FEBRUARY_1: ValidTime := Tm(125, 1, 1, 0, 0, 0, 6)

  lemma MidnightIsDue(t: ValidTime)
    requires t.hour == 0 && t.min == 0
    ensures Due(EVERY_MIDNIGHT, t)
  {
    OnesBits(7, t.wday);
    assert Ones(7) == 127;
  }

  /** A turn that launches the only task, and one that releases the latch. */
  lemma LaunchTurns(s: State, task: Task, now: ValidTime, later: ValidTime)
    requires s.cached == [task] && s.latch == NEVER && !s.stopped && s.iteration + 2 < RELOAD_PERIOD
    requires s.slots.Some? && |s.slots.value| == 1 && s.slots.value[0] != MinuteId(MinuteOf(now))
    requires now.sec == 0 && later.sec >= 2 && Due(task.timing, now)
    ensures var id := MinuteId(MinuteOf(now));
      Run(s, [TickAt(now, None), TickAt(later, None)]) ==
        State(s.iteration + 2, NEVER, [task], Some([id]), false, s.launches + [Launch(task, id, now)])
  {
    hide Due, MinuteId;
    var id := MinuteId(MinuteOf(now));
    MinuteIdFits(MinuteOf(now));
    var t1, t2 := TickAt(now, None), TickAt(later, None);
    var s1 := State(s.iteration + 1, id, [task], Some([id]), false, s.launches + [Launch(task, id, now)]);
    assert s.slots.value[0 := id] == [id];
    var checking := s.(iteration := s.iteration + 1, latch := id);
    assert Launches(checking, t1, 0, true);
    assert Visit(s1, t1, 1, true) == s1;
    assert Visit(checking, t1, 0, true) == s1;
    assert Step(s, t1) == s1;
    assert Step(s1, t2) == s1.(iteration := s.iteration + 2, latch := NEVER);
    RunOne(s, t1);
    RunOne(s1, t2);
    assert [t1, t2] == [t1] + [t2];
    RunConcat(s, [t1], [t2]);
  }

  /** The first two turns: the task is launched on January 31st, and the latch is released. */
  lemma MidnightLaunch(task: Task)
    requires Due(task.timing, JANUARY_31)
    ensures var start := Startup(TickAt(BEFORE, Some([task]))).value;
      Run(start, [TickAt(JANUARY_31, None), TickAt(LATER, None)]) ==
        State(2, NEVER, [task], Some([MinuteId(MinuteOf(JANUARY_31))]), false,
              [Launch(task, MinuteId(MinuteOf(JANUARY_31)), JANUARY_31)])
  {
    hide Due, MinuteId;
    MinuteIdFits(MinuteOf(JANUARY_31));
    var s0 := Startup(TickAt(BEFORE, Some([task]))).value;
    assert s0 == State(0, NEVER, [task], Some(Unused(1)), false, []);
    LaunchTurns(s0, task, JANUARY_31, LATER);
  }

  lemma OrderlyThree(t1: Tick, t2: Tick, t3: Tick)
    requires t1.now == JANUARY_31 && t2.now == LATER && t3.now == FEBRUARY_1
    requires GoodTick(t1) && GoodTick(t2) && GoodTick(t3)
    ensures Orderly(BEFORE, [t1, t2, t3])
  {
    assert [t3][1..] == [] && [t1, t2, t3][1..] == [t2, t3] && [t2, t3][1..] == [t3];
    assert Orderly(LATER, [t3]);
    assert Orderly(JANUARY_31, [t2, t3]);
  }

  /**
   A task that is due every midnight and ran on January 31st is not launched at midnight on
   February 1st, because its slot still holds the same identifier.
   */
  lemma DailyTaskSkipped(task: Task)
    requires task.timing == EVERY_MIDNIGHT
    ensures var start := Startup(TickAt(BEFORE, Some([task]))).value;
      var ticks := [TickAt(JANUARY_31, None), TickAt(LATER, None), TickAt(FEBRUARY_1, None)];
      && Due(task.timing, FEBRUARY_1)
      && Orderly(BEFORE, ticks)
      && Run(start, ticks).launches == [Launch(task, MinuteId(MinuteOf(JANUARY_31)), JANUARY_31)]
  {
    hide Due, MinuteId;
    MidnightIsDue(JANUARY_31);
    MidnightIsDue(FEBRUARY_1);
    MidnightLaunch(task);
    var id := MinuteId(MinuteOf(JANUARY_31));
    MinuteIdFits(MinuteOf(FEBRUARY_1));
    MinuteIdMeaning(MinuteOf(JANUARY_31), MinuteOf(FEBRUARY_1));
    assert MonthEnd(MinuteOf(JANUARY_31), MinuteOf(FEBRUARY_1));
    var t1, t2, t3 := TickAt(JANUARY_31, None), TickAt(LATER, None), TickAt(FEBRUARY_1, None);
    var start := Startup(TickAt(BEFORE, Some([task]))).value;
    assert [t1, t2, t3] == [t1, t2] + [t3];
    RunConcat(start, [t1, t2], [t3]);
    var s2 := Run(start, [t1, t2]);
    var s3 := s2.(iteration := 3, latch := id);
    assert !Launches(s3, t3, 0, true);
    assert Visit(s3, t3, 0, true) == s3;
    assert Step(s2, t3) == s3;
    RunOne(s2, t3);
    OrderlyThree(t1, t2, t3);
  }

  /** Midnight on Saturdays. */
  const SATURDAY_MIDNIGHT := Commands.Timing(1, 1, 0x40)

  lemma SaturdayIsDue()
    ensures Due(SATURDAY_MIDNIGHT, FEBRUARY_1) && !Due(SATURDAY_MIDNIGHT, JANUARY_31)
  {
    assert Pow2(0) == 1;
    assert Pow2(6) == 0x40;
    PowerBits(0, 0);
    PowerBits(6, 6);
    PowerBits(6, 5);
  }

  /**
   The latch alone can lose a launch. With samples at midnight on Friday, January 31st, and at the next
   midnight, and none outside the window in between, a task for Saturdays was never launched, is due on
   February 1st, and is not launched: that minute is taken for the one checked the day before.
   */
  lemma LatchLosesLaunch(task: Task)
    requires task.timing == SATURDAY_MIDNIGHT
    ensures var first := TickAt(BEFORE, Some([task]));
      var ticks := [TickAt(JANUARY_31, None), TickAt(FEBRUARY_1, None)];
      && RunsUpTo(first, ticks, FEBRUARY_1) && NoReload(Startup(first).value, ticks)
      && Due(task.timing, FEBRUARY_1) && Run(Startup(first).value, ticks).launches == []
  {
    hide Due, MinuteId;
    SaturdayIsDue();
    var id := MinuteId(MinuteOf(JANUARY_31));
    MinuteIdMeaning(MinuteOf(JANUARY_31), MinuteOf(FEBRUARY_1));
    assert MonthEnd(MinuteOf(JANUARY_31), MinuteOf(FEBRUARY_1));
    MinuteIdFits(MinuteOf(JANUARY_31));
    var first := TickAt(BEFORE, Some([task]));
    var t1, t2 := TickAt(JANUARY_31, None), TickAt(FEBRUARY_1, None);
    var start := Startup(first).value;
    var checking := start.(iteration := 1, latch := id);
    assert !Launches(checking, t1, 0, true);
    assert Visit(checking, t1, 0, true) == checking;
    assert Step(start, t1) == checking;
    assert Step(checking, t2) == checking.(iteration := 2);
    assert [t1, t2][1..] == [t2] && [t2][1..] == [];
    assert Run(checking.(iteration := 2), []) == checking.(iteration := 2);
    assert Run(checking, [t2]) == checking.(iteration := 2);
    assert LastSample(checking.(iteration := 2), FEBRUARY_1, []) == FEBRUARY_1;
    assert LastSample(checking, JANUARY_31, [t2]) == FEBRUARY_1;
    FewTurns(start, [t1, t2]);
    assert Orderly(FEBRUARY_1, []) && Orderly(JANUARY_31, [t2]);
  }

  const EVERY_HOUR := Commands.Timing(1, 0xff_ffff, 127)
  const ONE_O_CLOCK: ValidTime := Tm(125, 0, 31, 1, 0, 0, 5)

  lemma HourIsDue(t: ValidTime)
    requires t.min == 0
    ensures Due(EVERY_HOUR, t)
  {
    OnesBits(7, t.wday);
    OnesBits(24, t.hour);
    assert Ones(7) == 127;
    assert Pow2(12) == 0x1000 && Pow2(18) == 0x4_0000;
    assert Ones(24) == 0xff_ffff;
  }

  lemma {:induction false} FewTurns(s: State, ticks: seq<Tick>)
    requires s.iteration + |ticks| < RELOAD_PERIOD
    ensures NoReload(s, ticks)
    decreases |ticks|
  {
    hide Step;
    if ticks == [] {
    } else {
      StepCounts(s, ticks[0]);
      FewTurns(Step(s, ticks[0]), ticks[1..]);
    }
  }

  /** The startup check on its own launches the only task, if it is due. */
  lemma StartupLaunch(task: Task, now: ValidTime)
    requires now.sec == 0 && Due(task.timing, now)
    ensures Startup(TickAt(now, Some([task]))).Some?
    ensures Startup(TickAt(now, Some([task]))).value ==
      State(0, NEVER, [task], Some([MinuteId(MinuteOf(now))]), false, [Launch(task, MinuteId(MinuteOf(now)), now)])
  {
    hide Due, MinuteId;
    var id, t := MinuteId(MinuteOf(now)), TickAt(now, Some([task]));
    var s0 := State(0, NEVER, [task], Some(Unused(1)), false, []);
    assert Launches(s0, t, 0, false);
    var s1 := State(0, NEVER, [task], Some([id]), false, [Launch(task, id, now)]);
    assert Unused(1)[0 := id] == [id];
    assert Visit(s1, t, 1, false) == s1;
    assert Visit(s0, t, 0, false) == s1;
  }

  function FiveSecondsLater(t: ValidTime): ValidTime
    requires t.sec == 0
  {
    t.(sec := 5)
  }

  /**
   "Once per identifier" does not hold on every run, and no reload is needed: whenever a task is due at
   some time on a 31st, at any minute after that, and at the same time on the 1st, a run launches it three
   times, and the first and the last launch carry the same identifier, because the slot was overwritten in
   between.
   */
  lemma RepeatedAcrossMonthEnd(task: Task, a: ValidTime, m: ValidTime, b: ValidTime)
    requires a.sec == m.sec == b.sec == 0 && MonthEnd(MinuteOf(a), MinuteOf(b))
    requires Ordinal(MinuteOf(a)) < Ordinal(MinuteOf(m)) < Ordinal(MinuteOf(b))
    requires Due(task.timing, a) && Due(task.timing, m) && Due(task.timing, b)
    ensures var first := TickAt(a, Some([task]));
      var ticks := [TickAt(m, None), TickAt(FiveSecondsLater(m), None),
                    TickAt(b, None), TickAt(FiveSecondsLater(b), None)];
      var id, id1 := MinuteId(MinuteOf(a)), MinuteId(MinuteOf(m));
      && Orderly(a, ticks) && NoReload(Startup(first).value, ticks)
      && Run(Startup(first).value, ticks).launches ==
           [Launch(task, id, a), Launch(task, id1, m), Launch(task, id, b)]
  {
    hide Due, MinuteId, Run, Step, NoReload, Startup;
    var first := TickAt(a, Some([task]));
    StartupLaunch(task, a);
    var start := Startup(first).value;
    MinuteIdMeaning(MinuteOf(a), MinuteOf(m));
    MinuteIdMeaning(MinuteOf(a), MinuteOf(b));
    MinuteIdMeaning(MinuteOf(m), MinuteOf(b));
    var one := [TickAt(m, None), TickAt(FiveSecondsLater(m), None)];
    var two := [TickAt(b, None), TickAt(FiveSecondsLater(b), None)];
    assert !MonthEnd(MinuteOf(a), MinuteOf(m)) && !MonthEnd(MinuteOf(m), MinuteOf(b)) by {
      OnlyOneMonthEnd(MinuteOf(a), MinuteOf(m), MinuteOf(b));
    }
    LaunchTurns(start, task, m, FiveSecondsLater(m));
    LaunchTurns(Run(start, one), task, b, FiveSecondsLater(b));
    RunConcat(start, one, two);
    FewTurns(start, one + two);
    FourInOrder(a, m, b);
    assert one + two == [TickAt(m, None), TickAt(FiveSecondsLater(m), None),
                         TickAt(b, None), TickAt(FiveSecondsLater(b), None)];
  }

  lemma OnlyOneMonthEnd(a: Minute, m: Minute, b: Minute)
    requires MonthEnd(a, b) && Ordinal(a) < Ordinal(m) < Ordinal(b)
    ensures !MonthEnd(a, m) && !MonthEnd(m, b)
  {
  }

  lemma FourInOrder(a: ValidTime, m: ValidTime, b: ValidTime)
    requires a.sec == m.sec == b.sec == 0
    requires Ordinal(MinuteOf(a)) < Ordinal(MinuteOf(m)) < Ordinal(MinuteOf(b))
    ensures Orderly(a, [TickAt(m, None), TickAt(FiveSecondsLater(m), None),
                        TickAt(b, None), TickAt(FiveSecondsLater(b), None)])
  {
    hide Ordinal;
    var t1, t2 := TickAt(m, None), TickAt(FiveSecondsLater(m), None);
    var t3, t4 := TickAt(b, None), TickAt(FiveSecondsLater(b), None);
    assert [t4][1..] == [] && [t3, t4][1..] == [t4] && [t2, t3, t4][1..] == [t3, t4];
    assert [t1, t2, t3, t4][1..] == [t2, t3, t4];
    assert Orderly(b, [t4]);
    assert Orderly(FiveSecondsLater(m), [t3, t4]);
    assert Orderly(m, [t2, t3, t4]);
  }

  /** For instance an hourly task, at midnight on January 31st and on February 1st. */
  lemma HourlyTaskRepeatsIdentifier(task: Task)
    requires task.timing == EVERY_HOUR
    ensures exists ticks ::
      var id, id1 := MinuteId(MinuteOf(JANUARY_31)), MinuteId(MinuteOf(ONE_O_CLOCK));
      var start := Startup(TickAt(JANUARY_31, Some([task]))).value;
      && Orderly(JANUARY_31, ticks) && NoReload(start, ticks)
      && Run(start, ticks).launches ==
           [Launch(task, id, JANUARY_31), Launch(task, id1, ONE_O_CLOCK), Launch(task, id, FEBRUARY_1)]
  {
    hide Due, MinuteId, Run, NoReload, Orderly, Startup;
    HourIsDue(JANUARY_31);
    HourIsDue(ONE_O_CLOCK);
    HourIsDue(FEBRUARY_1);
    RepeatedAcrossMonthEnd(task, JANUARY_31, ONE_O_CLOCK, FEBRUARY_1);
  }

  // ---------- clocks that never repeat an identifier ----------

  /** The thread looks at the tasks at this minute. */
  ghost predicate Sampled(samples: seq<Tick>, m: Minute) {
    exists t | t in samples :: t.now.sec <= 1 && MinuteOf(t.now) == m
  }

  ghost predicate LaunchesSampled(ls: seq<Launch>, samples: seq<Tick>) {
    forall l | l in ls :: Sampled(samples, MinuteOf(l.at))
  }

  lemma VisitSampled(s: State, t: Tick, guarded: bool, samples: seq<Tick>)
    requires LaunchesSampled(s.launches, samples) && t in samples && t.now.sec <= 1
    ensures LaunchesSampled(Visit(s, t, 0, guarded).launches, samples)
  {
    hide Visit, NewLaunches, MinuteId, ValidMinute, ShouldExecute;
    VisitResult(s, t, 0, guarded);
    forall l | l in NewLaunches(s, t, 0, guarded) ensures Sampled(samples, MinuteOf(l.at)) {
      NewLaunchesIff(s, t, 0, guarded, l);
    }
  }

  lemma StepSampled(s: State, t: Tick, samples: seq<Tick>)
    requires LaunchesSampled(s.launches, samples) && t in samples
    ensures LaunchesSampled(Step(s, t).launches, samples)
  {
    hide Visit, MinuteId, Sampled;
    if t.now.sec <= 1 {
      var s1 := s.(iteration := s.iteration + 1);
      var s2 := if ReloadDue(s1, t) then Reload(s1, t) else s1;
      VisitSampled(s2.(latch := MinuteId(MinuteOf(t.now))), t, true, samples);
    }
  }

  lemma {:induction false} RunSampled(s: State, ticks: seq<Tick>, samples: seq<Tick>)
    requires LaunchesSampled(s.launches, samples) && forall t | t in ticks :: t in samples
    ensures LaunchesSampled(Run(s, ticks).launches, samples)
    decreases |ticks|
  {
    hide Step, LaunchesSampled;
    if ticks == [] || !Continues(s) {
    } else {
      StepSampled(s, ticks[0], samples);
      RunSampled(Step(s, ticks[0]), ticks[1..], samples);
    }
  }

  lemma StartupSampled(t: Tick, samples: seq<Tick>)
    requires Startup(t).Some? && t in samples
    ensures LaunchesSampled(Startup(t).value.launches, samples)
  {
    hide Visit, Sampled;
    if t.now.sec <= 1 {
      VisitSampled(Initial(t.load.value), t, false, samples);
    }
  }

  /**
   A condition on the clock alone: a run that does not sample, in the window, both a time on a 31st and
   the same time on the 1st after it never launches a task twice under one identifier, whatever tasks are
   loaded and reloaded.
   */
  lemma NoMonthEndNoRepeat(first: Tick, ticks: seq<Tick>, i: nat, j: nat)
    requires Startup(first).Some? && GoodTick(first) && Orderly(first.now, ticks)
    requires forall a: Minute, b: Minute ::
      Sampled([first] + ticks, a) && Sampled([first] + ticks, b) ==> !MonthEnd(a, b)
    requires i < j < |Run(Startup(first).value, ticks).launches|
    ensures var ls := Run(Startup(first).value, ticks).launches;
      ls[i].task.id == ls[j].task.id ==> ls[i].minuteId != ls[j].minuteId
  {
    hide Startup, Run, Orderly, GoodTick, MinuteId, MonthEnd, Sampled;
    var samples := [first] + ticks;
    StartupSampled(first, samples);
    RunSampled(Startup(first).value, ticks, samples);
    NoDoubleLaunch(first, ticks, i, j);
    var ls := Run(Startup(first).value, ticks).launches;
    assert ls[i] in ls && ls[j] in ls;
  }

  /** With a reload that changes the number of tasks in between, it happens to a daily task too. */
  lemma IdentifierLaunchedTwice(task: Task, other: Task)
    requires task.timing == EVERY_MIDNIGHT && other.timing == Commands.Timing(0, 0, 0) && other.id != task.id
    ensures exists ticks ::
      && Orderly(BEFORE, ticks)
      && var id := MinuteId(MinuteOf(JANUARY_31));
      Run(Startup(TickAt(BEFORE, Some([task]))).value, ticks).launches ==
        [Launch(task, id, JANUARY_31), Launch(task, id, FEBRUARY_1)]
  {
    hide Due, MinuteId, Step, Run, Orderly, Repeat, Visit;
    var id := MinuteId(MinuteOf(JANUARY_31));
    var start := Startup(TickAt(BEFORE, Some([task]))).value;
    var t1, t2, t3 := TickAt(JANUARY_31, None), TickAt(LATER, None), TickAt(FEBRUARY_1, None);
    var reload := TickAt(LATER, Some([task, other]));
    MidnightIsDue(JANUARY_31);
    MidnightLaunch(task);
    var s2 := Run(start, [t1, t2]);
    IdleRun(s2, t2, 5997);
    var s3 := s2.(iteration := 5999);
    var s4 := State(6000, NEVER, [task, other], Some(Unused(2)), false, s2.launches);
    ReloadResets(s3, task, other);
    RunOne(s3, reload);
    var idle, end := Repeat(t2, 5997), [reload] + [t3];
    var ticks := [t1, t2] + (idle + end);
    RunConcat(start, [t1, t2], idle + end);
    RunConcat(s2, idle, end);
    RunConcat(s3, [reload], [t3]);
    LastMidnight(task, other, s4);
    OrderlyIdle(t2, 5997, reload, t3);
    OrderlyStart(t1, t2, idle + end);
    assert s2.launches + [Launch(task, id, FEBRUARY_1)] == [Launch(task, id, JANUARY_31), Launch(task, id, FEBRUARY_1)];
    assert Orderly(BEFORE, ticks);
  }

  lemma ReloadResets(s: State, task: Task, other: Task)
    requires s.iteration == 5999 && s.latch == NEVER && s.cached == [task] && !s.stopped
    ensures Step(s, TickAt(LATER, Some([task, other]))) ==
      State(6000, NEVER, [task, other], Some(Unused(2)), false, s.launches)
  {
  }

  lemma OrderlyStart(t1: Tick, t2: Tick, rest: seq<Tick>)
    requires t1.now == JANUARY_31 && t2.now == LATER && GoodTick(t1) && GoodTick(t2)
    requires Orderly(LATER, rest)
    ensures Orderly(BEFORE, [t1, t2] + rest)
  {
    assert ([t1, t2] + rest)[1..] == [t2] + rest && ([t2] + rest)[1..] == rest;
    assert Orderly(JANUARY_31, [t2] + rest);
  }

  lemma LastMidnight(task: Task, other: Task, s: State)
    requires task.timing == EVERY_MIDNIGHT && other.timing == Commands.Timing(0, 0, 0)
    requires s.cached == [task, other] && s.slots == Some(Unused(2))
    requires s.latch == NEVER && s.iteration == 6000 && !s.stopped
    ensures var id := MinuteId(MinuteOf(JANUARY_31));
      Run(s, [TickAt(FEBRUARY_1, None)]).launches == s.launches + [Launch(task, id, FEBRUARY_1)]
  {
    hide MinuteId;
    var id := MinuteId(MinuteOf(JANUARY_31));
    MidnightIsDue(FEBRUARY_1);
    MinuteIdFits(MinuteOf(FEBRUARY_1));
    MinuteIdMeaning(MinuteOf(JANUARY_31), MinuteOf(FEBRUARY_1));
    assert MonthEnd(MinuteOf(JANUARY_31), MinuteOf(FEBRUARY_1));
    var t := TickAt(FEBRUARY_1, None);
    var checking := s.(iteration := 6001, latch := id);
    assert Launches(checking, t, 0, true);
    var after := SetSlot(checking, 0, id).(launches := s.launches + [Launch(task, id, FEBRUARY_1)]);
    assert !Launches(after, t, 1, true);
    assert Visit(after, t, 1, true) == Visit(after, t, 2, true) == after;
    assert Visit(checking, t, 0, true) == after;
    assert Step(s, t) == after;
    RunOne(s, t);
  }

  lemma {:induction false} OrderlyIdle(t: Tick, n: nat, reload: Tick, last: Tick)
    requires t.now == LATER && GoodTick(t) && reload.now == LATER && GoodTick(reload)
    requires last.now == FEBRUARY_1 && GoodTick(last)
    ensures Orderly(LATER, Repeat(t, n) + ([reload] + [last]))
    decreases n
  {
    if n == 0 {
      assert Repeat(t, 0) + ([reload] + [last]) == [reload, last];
      assert [reload, last][1..] == [last] && [last][1..] == [];
    } else {
      OrderlyIdle(t, n - 1, reload, last);
      assert (Repeat(t, n) + ([reload] + [last]))[1..] == Repeat(t, n - 1) + ([reload] + [last]);
    }
  }
}
