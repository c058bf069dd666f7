/** The guards of the scheduler over whole runs: what the latch and the slots hold, and what they keep back. */
module Slots {
  import opened Bytes
  import opened Scheduler

  // ---------- the latch ----------

  /** The latch holds the identifier of the last sample if that fell in the window, and nothing otherwise. */
  ghost predicate LatchFollows(s: State, last: ValidTime) {
    s.latch == if s.iteration > 0 && last.sec <= 1 then MinuteId(MinuteOf(last)) else NEVER
  }

  lemma StepLatch(s: State, last: ValidTime, t: Tick)
    requires LatchFollows(s, last)
    ensures LatchFollows(Step(s, t), t.now)
  {
    hide MinuteId, ValidMinute, Visit;
    var s1 := s.(iteration := s.iteration + 1);
    var s2 := if ReloadDue(s1, t) then Reload(s1, t) else s1;
    VisitKeeps(s2.(latch := MinuteId(MinuteOf(t.now))), t, 0, true);
    MinuteIdFits(MinuteOf(last));
    MinuteIdFits(MinuteOf(t.now));
  }

  lemma {:induction false} RunLatch(s: State, last: ValidTime, ticks: seq<Tick>)
    requires LatchFollows(s, last)
    ensures LatchFollows(Run(s, ticks), LastSample(s, last, ticks))
    decreases |ticks|
  {
    hide LatchFollows, Step;
    if ticks == [] || !Continues(s) {
    } else {
      StepLatch(s, last, ticks[0]);
      RunLatch(Step(s, ticks[0]), ticks[0].now, ticks[1..]);
    }
  }

  lemma StartupLatch(t: Tick)
    requires Startup(t).Some?
    ensures LatchFollows(Startup(t).value, t.now)
  {
    hide MinuteId, ValidMinute, Visit;
    var tasks := t.load.value;
    VisitKeeps(State(0, NEVER, tasks, if tasks == [] then None else Some(Unused(|tasks|)), false, []), t, 0, false);
  }

  // ---------- the slots ----------

  /** What is remembered of a slot: the launch that wrote it last, since the array was last reset. */
  type Owners = seq<Option<Launch>>

  function Nobody(n: nat): (r: Owners)
    ensures |r| == n && forall k | 0 <= k < n :: r[k] == None
  {
    seq(n, k => None)
  }

  function VisitOwners(s: State, t: Tick, guarded: bool, owners: Owners): (r: Owners)
    ensures |r| == |owners|
  {
    seq(|owners|, k requires 0 <= k < |owners| =>
      if Launches(s, t, k, guarded) then Some(LaunchOf(s, t, k)) else owners[k])
  }

  function Initial(tasks: seq<Task>): State {
    State(0, NEVER, tasks, if tasks == [] then None else Some(Unused(|tasks|)), false, [])
  }

  function StartupOwners(t: Tick): Owners
    requires Startup(t).Some?
  {
    var none := Nobody(|t.load.value|);
    if t.now.sec <= 1 then VisitOwners(Initial(t.load.value), t, false, none) else none
  }

  /** A reload that keeps the slot array keeps them, even if the slots now belong to other tasks. */
  function ReloadOwners(s: State, t: Tick, owners: Owners): Owners {
    if StopSeen(t, 1) || t.load.None? then owners
    else if StopSeen(t, 2) then []
    else if |s.cached| == |t.load.value| && s.slots.Some? then owners
    else Nobody(|t.load.value|)
  }

  function CheckOwners(s: State, t: Tick, owners: Owners): Owners {
    var minuteId := MinuteId(MinuteOf(t.now));
    if t.now.sec <= 1 && s.latch != minuteId then VisitOwners(s.(latch := minuteId), t, true, owners) else owners
  }

  function StepOwners(s: State, t: Tick, owners: Owners): Owners {
    var s1 := s.(iteration := s.iteration + 1);
    if ReloadDue(s1, t) then CheckOwners(Reload(s1, t), t, ReloadOwners(s1, t, owners))
    else CheckOwners(s1, t, owners)
  }

  function RunOwners(s: State, owners: Owners, ticks: seq<Tick>): Owners
    decreases |ticks|
  {
    if ticks == [] || !Continues(s) then owners
    else RunOwners(Step(s, ticks[0]), StepOwners(s, ticks[0], owners), ticks[1..])
  }

  /** The last launch of a task. */
  function LastLaunch(ls: seq<Launch>, id: uint64): (r: Option<Launch>)
    ensures r.Some? ==> r.value in ls && r.value.task.id == id
    ensures r.None? ==> forall l | l in ls :: l.task.id != id
  {
    if ls == [] then None
    else if ls[|ls| - 1].task.id == id then Some(ls[|ls| - 1])
    else LastLaunch(ls[..|ls| - 1], id)
  }

  lemma {:induction false} LastLaunchOfBoth(old': seq<Launch>, new': seq<Launch>, id: uint64)
    ensures LastLaunch(old' + new', id) ==
      if LastLaunch(new', id).Some? then LastLaunch(new', id) else LastLaunch(old', id)
  {
    if new' == [] {
      assert old' + new' == old';
    } else {
      var n := |new'| - 1;
      assert (old' + new')[..|old' + new'| - 1] == old' + new'[..n];
      LastLaunchOfBoth(old', new'[..n], id);
    }
  }

  function Noted(l: Option<Launch>): int { if l.None? then NEVER else l.value.minuteId }

  /** Each slot holds the identifier of the launch that owns it. */
  ghost predicate Owned(s: State, owners: Owners) {
    if s.slots.None? then owners == []
    else
      && |s.cached| <= |s.slots.value| == |owners|
      && forall k | 0 <= k < |owners| ::
           && s.slots.value[k] == Noted(owners[k])
           && (owners[k].Some? ==> owners[k].value in s.launches)
  }

  lemma VisitOwned(s: State, t: Tick, guarded: bool, owners: Owners)
    requires Owned(s, owners)
    ensures Owned(Visit(s, t, 0, guarded), VisitOwners(s, t, guarded, owners))
  {
    hide MinuteId, ValidTm, ShouldExecute, Visit, NewLaunches;
    var v, new' := Visit(s, t, 0, guarded), NewLaunches(s, t, 0, guarded);
    VisitKeeps(s, t, 0, guarded);
    VisitResult(s, t, 0, guarded);
    forall k | 0 <= k < |owners| && Launches(s, t, k, guarded) ensures LaunchOf(s, t, k) in v.launches {
      NewLaunchesIff(s, t, 0, guarded, LaunchOf(s, t, k));
    }
  }

  lemma StartupOwned(t: Tick)
    requires Startup(t).Some?
    ensures Owned(Startup(t).value, StartupOwners(t))
  {
    hide MinuteId, ValidMinute, Visit, VisitOwners;
    var tasks := t.load.value;
    VisitOwned(Initial(tasks), t, false, Nobody(|tasks|));
  }

  lemma CheckOwned(s: State, t: Tick, owners: Owners)
    requires Owned(s, owners)
    ensures Owned(Check(s, t), CheckOwners(s, t, owners))
  {
    hide MinuteId, ValidMinute, Visit, VisitOwners;
    VisitOwned(s.(latch := MinuteId(MinuteOf(t.now))), t, true, owners);
  }

  lemma StepOwned(s: State, t: Tick, owners: Owners)
    requires Owned(s, owners)
    ensures Owned(Step(s, t), StepOwners(s, t, owners))
  {
    hide Check, CheckOwners, MinuteId, ValidMinute;
    var s1 := s.(iteration := s.iteration + 1);
    if ReloadDue(s1, t) {
      CheckOwned(Reload(s1, t), t, ReloadOwners(s1, t, owners));
    } else {
      CheckOwned(s1, t, owners);
    }
  }

  lemma {:induction false} RunOwned(s: State, owners: Owners, ticks: seq<Tick>)
    requires Owned(s, owners)
    ensures Owned(Run(s, ticks), RunOwners(s, owners, ticks))
    decreases |ticks|
  {
    hide Owned, Step, StepOwners;
    if ticks == [] || !Continues(s) {
    } else {
      StepOwned(s, ticks[0], owners);
      RunOwned(Step(s, ticks[0]), StepOwners(s, ticks[0], owners), ticks[1..]);
    }
  }

  // ---------- what is kept back ----------

  /** The launch that owns slot `k` at the end of a run, if any. */
  function OwnerAfter(first: Tick, ticks: seq<Tick>, k: nat): Option<Launch>
    requires Startup(first).Some?
  {
    var owners := RunOwners(Startup(first).value, StartupOwners(first), ticks);
    if k < |owners| then owners[k] else None
  }

  function After(first: Tick, ticks: seq<Tick>): State
    requires Startup(first).Some?
  {
    Run(Startup(first).value, ticks)
  }

  function SampleAfter(first: Tick, ticks: seq<Tick>): ValidTime
    requires Startup(first).Some?
  {
    LastSample(Startup(first).value, first.now, ticks)
  }

  /** A run from the start of the thread, with a clock that does not go back, up to `now`. */
  ghost predicate RunsUpTo(first: Tick, ticks: seq<Tick>, now: ValidTime) {
    && Startup(first).Some? && GoodTick(first) && Orderly(first.now, ticks)
    && Instant(SampleAfter(first, ticks)) <= Instant(now)
  }

  /** `a` is `b`, or shares its identifier from the last day of the month before. */
  predicate SameOrMonthEnd(a: Minute, b: Minute) { a == b || MonthEnd(a, b) }

  /** A turn does not launch the task of slot `k`. */
  ghost predicate KeptBack(s: State, t: Tick, k: nat)
    requires k < |s.cached|
    requires s.launches <= Step(s, t).launches
  {
    forall l | l in Step(s, t).launches[|s.launches|..] :: l.task.id != s.cached[k].id
  }

  /** The last sample, in the window of a turn of the loop, has the identifier of `now`. */
  predicate LatchBlocks(s: State, sample: ValidTime, now: ValidTime) {
    s.iteration > 0 && sample.sec <= 1 && SameOrMonthEnd(MinuteOf(sample), MinuteOf(now))
  }

  /** The launch that owns a slot has the identifier of `now`; for this very minute only before the first turn. */
  predicate SlotBlocks(s: State, owner: Option<Launch>, now: ValidTime) {
    && owner.Some?
    && (|| MonthEnd(MinuteOf(owner.value.at), MinuteOf(now))
        || (s.iteration == 0 && MinuteOf(owner.value.at) == MinuteOf(now)))
  }

  /**
   Over every run, reloads included, at a sample in second 0 when the clock read again gives the same
   fields: a due task is kept back exactly in two cases. Either the sample before, in the window, is of
   this minute or of the 31st while this is the 1st of the next month at the same time: the latch. Or the
   launch that wrote the slot last, since the slots were last reset, is of the 31st in that way, or is the
   startup launch for this very minute. That launch may be of another task, if a reload kept the slots.
   */
  lemma KeptBackIff(first: Tick, ticks: seq<Tick>, t: Tick, k: nat)
    requires RunsUpTo(first, ticks, t.now)
    requires t.now.sec == 0 && t.stop.None? && forall i: nat :: t.reread(i) == t.now
    requires k < |After(first, ticks).cached| && Due(After(first, ticks).cached[k].timing, t.now)
    ensures var s := After(first, ticks);
      && s.launches <= Step(s, t).launches
      && (KeptBack(s, t, k) <==>
           LatchBlocks(s, SampleAfter(first, ticks), t.now) || SlotBlocks(s, OwnerAfter(first, ticks, k), t.now))
  {
    hide Startup, Run, RunOwners, StartupOwners, Orderly, GoodTick, LastSample, Due, MinuteId, ValidMinute;
    hide LatchFollows, Owned, LatchBlocks, SlotBlocks, KeptBack, Step;
    var s, sample := After(first, ticks), SampleAfter(first, ticks);
    RunInvariants(first, ticks);
    LatchHoldsIff(s, sample, t.now);
    if s.latch == MinuteId(MinuteOf(t.now)) {
      KeptBackByLatch(s, t, k);
    } else {
      HeldIff(s, sample, t.now, RunOwners(Startup(first).value, StartupOwners(first), ticks), k);
      KeptBackBySlot(s, t, k);
    }
  }

  lemma RunInvariants(first: Tick, ticks: seq<Tick>)
    requires Startup(first).Some? && GoodTick(first) && Orderly(first.now, ticks)
    ensures Good(After(first, ticks), SampleAfter(first, ticks))
    ensures LatchFollows(After(first, ticks), SampleAfter(first, ticks))
    ensures Owned(After(first, ticks), RunOwners(Startup(first).value, StartupOwners(first), ticks))
  {
    hide Startup, Run, RunOwners, StartupOwners, Orderly, GoodTick, LastSample, Good, LatchFollows, Owned;
    var start := Startup(first).value;
    StartupGood(first);
    RunGood(start, first.now, ticks);
    StartupLatch(first);
    RunLatch(start, first.now, ticks);
    StartupOwned(first);
    RunOwned(start, StartupOwners(first), ticks);
  }

  lemma LatchHoldsIff(s: State, sample: ValidTime, now: ValidTime)
    requires LatchFollows(s, sample) && Instant(sample) <= Instant(now)
    ensures s.latch == MinuteId(MinuteOf(now)) <==> LatchBlocks(s, sample, now)
  {
    hide MinuteId, ValidMinute;
    LaterMinute(sample, now);
    MinuteIdMeaning(MinuteOf(sample), MinuteOf(now));
    MinuteIdFits(MinuteOf(now));
  }

  lemma KeptBackByLatch(s: State, t: Tick, k: nat)
    requires t.now.sec == 0 && t.stop.None? && forall i: nat :: t.reread(i) == t.now
    requires s.latch == MinuteId(MinuteOf(t.now)) && k < |s.cached|
    ensures s.launches <= Step(s, t).launches && KeptBack(s, t, k)
  {
    hide Step, Due, MinuteId, ValidTm;
    CheckLaunchesExactly(s, t, LaunchOf(s, t, k));
    forall l ensures l !in Step(s, t).launches[|s.launches|..] {
      CheckLaunchesExactly(s, t, l);
    }
  }

  lemma KeptBackBySlot(s: State, t: Tick, k: nat)
    requires t.now.sec == 0 && t.stop.None? && forall i: nat :: t.reread(i) == t.now
    requires s.latch != MinuteId(MinuteOf(t.now)) && DistinctTasks(s.cached)
    requires k < |s.cached| && Due(s.cached[k].timing, t.now)
    ensures s.launches <= Step(s, t).launches
    ensures KeptBack(s, t, k) <==> SlotHolds(s.slots, k, MinuteId(MinuteOf(t.now)))
  {
    hide Step, Due, MinuteId;
    CheckLaunchesExactly(s, t, LaunchOf(s, t, k));
    var new' := Step(s, t).launches[|s.launches|..];
    if !KeptBack(s, t, k) {
      var l :| l in new' && l.task.id == s.cached[k].id;
      CheckLaunchesExactly(s, t, l);
      var i: nat :| i < |s.cached| && !SlotHolds(s.slots, i, MinuteId(MinuteOf(t.now))) && l == LaunchOf(s, t, i);
      assert LaunchOf(s, t, i).task == s.cached[i];
      assert i == k;
    }
  }

  /** When a slot holds the identifier of a minute that the latch does not hold. */
  lemma HeldIff(s: State, last: ValidTime, now: ValidTime, owners: Owners, k: nat)
    requires Good(s, last) && Owned(s, owners) && Instant(last) <= Instant(now)
    requires now.sec == 0 && s.latch != MinuteId(MinuteOf(now))
    ensures SlotHolds(s.slots, k, MinuteId(MinuteOf(now))) <==>
      SlotBlocks(s, if k < |owners| then owners[k] else None, now)
  {
    hide MinuteId, ValidMinute, Ordinal, Remembered, OncePerMinute, Chronological, SlotsAreLaunches;
    MinuteIdFits(MinuteOf(now));
    if k < |owners| && owners[k].Some? {
      var l := owners[k].value;
      LaterMinute(last, now);
      MinuteIdMeaning(MinuteOf(l.at), MinuteOf(now));
      if MinuteOf(l.at) == MinuteOf(now) {
        SameOrdinal(MinuteOf(last), MinuteOf(now));
        assert last.sec <= now.sec;
      }
    }
  }

  /** Over every run, a slot holds the identifier of the launch that owns it, or -1. */
  lemma SlotIsOwned(first: Tick, ticks: seq<Tick>, k: nat)
    requires Startup(first).Some?
    requires After(first, ticks).slots.Some? && k < |After(first, ticks).slots.value|
    ensures After(first, ticks).slots.value[k] == Noted(OwnerAfter(first, ticks, k))
    ensures OwnerAfter(first, ticks, k).Some? ==> OwnerAfter(first, ticks, k).value in After(first, ticks).launches
  {
    hide Startup, Run, RunOwners, StartupOwners;
    StartupOwned(first);
    RunOwned(Startup(first).value, StartupOwners(first), ticks);
  }

  // ---------- without a reload ----------

  /** What a visit launches for the task of slot `k`. */
  lemma NewLaunchOfSlot(s: State, t: Tick, k: nat, guarded: bool)
    requires DistinctTasks(s.cached) && k < |s.cached|
    ensures var l := LastLaunch(NewLaunches(s, t, 0, guarded), s.cached[k].id);
      && (l.Some? <==> Launches(s, t, k, guarded))
      && (l.Some? ==> l.value == LaunchOf(s, t, k))
  {
    hide MinuteId, ValidTm, ShouldExecute, NewLaunches;
    var new' := NewLaunches(s, t, 0, guarded);
    var last := LastLaunch(new', s.cached[k].id);
    NewLaunchesIff(s, t, 0, guarded, LaunchOf(s, t, k));
    if last.Some? {
      NewLaunchesIff(s, t, 0, guarded, last.value);
      var i: nat :| Launches(s, t, i, guarded) && last.value == LaunchOf(s, t, i);
      assert i == k;
    }
  }

  /** Each slot is owned by the last launch of its own task. */
  ghost predicate Tracked(s: State, owners: Owners) {
    && DistinctTasks(s.cached) && |owners| == |s.cached|
    && forall k | 0 <= k < |s.cached| :: owners[k] == LastLaunch(s.launches, s.cached[k].id)
  }

  lemma VisitTracked(s: State, t: Tick, guarded: bool, owners: Owners)
    requires Tracked(s, owners)
    ensures Tracked(Visit(s, t, 0, guarded), VisitOwners(s, t, guarded, owners))
  {
    hide MinuteId, ValidTm, ShouldExecute, Visit, Launches, NewLaunches, LastLaunch;
    var v, new' := Visit(s, t, 0, guarded), NewLaunches(s, t, 0, guarded);
    VisitKeeps(s, t, 0, guarded);
    VisitResult(s, t, 0, guarded);
    forall k | 0 <= k < |s.cached|
      ensures VisitOwners(s, t, guarded, owners)[k] == LastLaunch(v.launches, s.cached[k].id)
    {
      NewLaunchOfSlot(s, t, k, guarded);
      LastLaunchOfBoth(s.launches, new', s.cached[k].id);
    }
  }

  lemma StartupTracked(t: Tick)
    requires Startup(t).Some? && GoodTick(t)
    ensures Tracked(Startup(t).value, StartupOwners(t))
  {
    hide MinuteId, ValidMinute, Visit, VisitOwners;
    VisitTracked(Initial(t.load.value), t, false, Nobody(|t.load.value|));
  }

  predicate Reloads(s: State, t: Tick) { ReloadDue(s.(iteration := s.iteration + 1), t) }

  lemma StepTracked(s: State, t: Tick, owners: Owners)
    requires Tracked(s, owners) && !Reloads(s, t)
    ensures Tracked(Step(s, t), StepOwners(s, t, owners))
  {
    hide MinuteId, ValidMinute, Visit, VisitOwners;
    VisitTracked(s.(iteration := s.iteration + 1, latch := MinuteId(MinuteOf(t.now))), t, true, owners);
  }

  /** No turn of the run reloads the tasks. */
  predicate NoReload(s: State, ticks: seq<Tick>)
    decreases |ticks|
  {
    ticks == [] || !Continues(s) || (!Reloads(s, ticks[0]) && NoReload(Step(s, ticks[0]), ticks[1..]))
  }

  lemma {:induction false} RunTracked(s: State, ticks: seq<Tick>, owners: Owners)
    requires Tracked(s, owners) && NoReload(s, ticks)
    ensures Tracked(Run(s, ticks), RunOwners(s, owners, ticks))
    decreases |ticks|
  {
    hide Tracked, Step, Reloads, StepOwners;
    if ticks == [] || !Continues(s) {
    } else {
      StepTracked(s, ticks[0], owners);
      RunTracked(Step(s, ticks[0]), ticks[1..], StepOwners(s, ticks[0], owners));
    }
  }

  /** Over every run without a reload, a slot is owned by the last launch of its own task, if there was one. */
  lemma OwnerIsLastLaunch(first: Tick, ticks: seq<Tick>, k: nat)
    requires Startup(first).Some? && GoodTick(first) && NoReload(Startup(first).value, ticks)
    requires k < |After(first, ticks).cached|
    ensures OwnerAfter(first, ticks, k) == LastLaunch(After(first, ticks).launches, After(first, ticks).cached[k].id)
  {
    hide Startup, Run, NoReload, RunOwners, StartupOwners;
    StartupTracked(first);
    RunTracked(Startup(first).value, ticks, StartupOwners(first));
  }

  /** So without a reload it is the task's own last launch that keeps it back, or the latch. */
  lemma KeptBackByOwnLaunchIff(first: Tick, ticks: seq<Tick>, t: Tick, k: nat)
    requires RunsUpTo(first, ticks, t.now) && NoReload(Startup(first).value, ticks)
    requires t.now.sec == 0 && t.stop.None? && forall i: nat :: t.reread(i) == t.now
    requires k < |After(first, ticks).cached| && Due(After(first, ticks).cached[k].timing, t.now)
    ensures var s := After(first, ticks);
      && s.launches <= Step(s, t).launches
      && (KeptBack(s, t, k) <==>
           || LatchBlocks(s, SampleAfter(first, ticks), t.now)
           || SlotBlocks(s, LastLaunch(s.launches, s.cached[k].id), t.now))
  {
    hide Startup, Run, NoReload, Orderly, GoodTick, LastSample, Due, LatchBlocks, SlotBlocks, KeptBack, Step;
    hide OwnerAfter, LastLaunch;
    KeptBackIff(first, ticks, t, k);
    OwnerIsLastLaunch(first, ticks, k);
  }

  /**
   With reloads as well: once the loop runs, a slot holds the identifier of a minute that the latch does
   not hold exactly if its owner is a launch of the 31st and this is the 1st of the next month at the same
   time.
   */
  lemma SlotBlocksOnlyAtMonthEnd(first: Tick, ticks: seq<Tick>, now: ValidTime, k: nat)
    requires RunsUpTo(first, ticks, now) && now.sec == 0 && After(first, ticks).iteration > 0
    requires !LatchBlocks(After(first, ticks), SampleAfter(first, ticks), now)
    ensures SlotHolds(After(first, ticks).slots, k, MinuteId(MinuteOf(now))) <==>
      var owner := OwnerAfter(first, ticks, k);
      owner.Some? && MonthEnd(MinuteOf(owner.value.at), MinuteOf(now))
  {
    hide Startup, Run, RunOwners, StartupOwners, Orderly, GoodTick, LastSample;
    hide MinuteId, ValidMinute, LatchFollows, Owned;
    var s, sample := After(first, ticks), SampleAfter(first, ticks);
    RunInvariants(first, ticks);
    LatchHoldsIff(s, sample, now);
    HeldIff(s, sample, now, RunOwners(Startup(first).value, StartupOwners(first), ticks), k);
  }
}
