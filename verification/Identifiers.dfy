/** The ids of new tasks over whole runs of the daemon: when they are fresh, and when one is used again. */
module Identifiers {
  import opened Bytes
  import opened Commands
  import opened Protocol
  import opened Store
  import opened TaskTree
  import opened Daemon

  /** The request writes a new task directory. A COMBINE that fails on a repeated id has done so too. */
  ghost predicate Creates(w: World, s: Step) {
    s.Asked? &&
    match s.req
    case Create(_, argv) => ValidArguments(argv)
    case Combine(_, _, ids) => ids != [] && forall id | id in ids :: id in w.tasks
    case _ => false
  }

  ghost predicate RemovesMaximum(w: World, s: Step) {
    s.Asked? && s.req.Remove? && s.req.id in w.tasks && IsMaxKey(w.tasks.Keys, s.req.id)
  }

  /** The ids given to new tasks, in the order of their creation. */
  ghost function Issued(w: World, steps: seq<Step>): seq<uint64>
    decreases |steps|
  {
    if steps == [] then [] else
    (if Creates(w, steps[0]) then [NextId(w)] else []) + Issued(Next(w, steps[0]), steps[1..])
  }

  /** The state that the step number `i` finds. */
  ghost function Before(w: World, steps: seq<Step>, i: nat): World
    requires i <= |steps|
  {
    NextAll(w, steps[..i])
  }

  // ---------- the counter does not overflow ----------

  /** There is room for `n` more tasks below the largest 64-bit id. */
  ghost predicate RoomFor(w: World, n: nat) { forall id | id in w.tasks :: id + n < ID_LIMIT }

  /** Every step of the run finds an id counter that can still be incremented. */
  ghost predicate RoomAlong(w: World, steps: seq<Step>)
    decreases |steps|
  {
    steps == [] || (HasRoom(w) && RoomAlong(Next(w, steps[0]), steps[1..]))
  }

  /** A step takes at most one place. */
  lemma StepTakesRoom(w: World, s: Step, n: nat)
    requires RoomFor(w, n + 1) && n + 1 < ID_LIMIT
    ensures HasRoom(w) && RoomFor(Next(w, s), n)
  {
    hide NextId, Combined, FirstRepeat, ValidArguments;
    NextIdIsSmall(w, n);
  }

  lemma NextIdIsSmall(w: World, n: nat)
    requires RoomFor(w, n + 1) && n + 1 < ID_LIMIT
    ensures NextId(w) + n < ID_LIMIT
  {
    assert IsNextId(w, NextId(w));
    if w.dir {
      var m: nat :| IsMaxKey(w.tasks.Keys, m) && NextId(w) == (m + 1) % ID_LIMIT;
      assert m + n + 1 < ID_LIMIT;
    }
  }

  /** So fewer than 2^64 steps always find room, from an empty installation in particular. */
  lemma {:induction false} RoomForAll(w: World, steps: seq<Step>)
    requires RoomFor(w, |steps|) && |steps| < ID_LIMIT
    ensures RoomAlong(w, steps)
    decreases |steps|
  {
    hide Next, HasRoom, RoomFor;
    if steps == [] {
    } else {
      StepTakesRoom(w, steps[0], |steps| - 1);
      RoomForAll(Next(w, steps[0]), steps[1..]);
    }
  }

  // ---------- ids above a bound ----------

  /** No step removes the current maximum. */
  ghost predicate Quiet(w: World, steps: seq<Step>)
    decreases |steps|
  {
    steps == [] || (!RemovesMaximum(w, steps[0]) && Quiet(Next(w, steps[0]), steps[1..]))
  }

  ghost predicate Reaches(w: World, bound: nat) {
    w.dir && exists k | k in w.tasks :: bound <= k
  }

  /** Without removing the maximum, the largest live id never goes down, and a new task raises it. */
  lemma StepReaches(w: World, s: Step, bound: nat)
    requires Reaches(w, bound)
    requires HasRoom(w) && !RemovesMaximum(w, s)
    ensures Reaches(Next(w, s), bound)
    ensures NextId(w) > bound
  {
    hide NextId, Combined, FirstRepeat, ValidArguments;
    NextIdIsFresh(w);
    var k :| k in w.tasks && bound <= k;
    var w' := Next(w, s);
    if s.Asked? && s.req.Remove? && s.req.id == k {
      var larger :| larger in w.tasks && larger > k;
      assert larger in w'.tasks;
    } else if Creates(w, s) {
      assert NextId(w) in w'.tasks;
    } else {
      assert k in w'.tasks;
    }
  }

  lemma CreationReaches(w: World, s: Step)
    requires Creates(w, s)
    ensures Reaches(Next(w, s), NextId(w))
  {
    hide NextId, Combined, FirstRepeat, ValidArguments;
    assert NextId(w) in Next(w, s).tasks;
  }

  /** From any store, also one left by an earlier daemon, a quiet run issues increasing ids above it. */
  lemma {:induction false} IssuedAbove(w: World, steps: seq<Step>, bound: nat)
    requires Reaches(w, bound) && Quiet(w, steps) && RoomAlong(w, steps)
    ensures forall i | 0 <= i < |Issued(w, steps)| :: Issued(w, steps)[i] > bound
    ensures forall i, j | 0 <= i < j < |Issued(w, steps)| :: Issued(w, steps)[i] < Issued(w, steps)[j]
    decreases |steps|
  {
    hide NextId, Next, Creates, Reaches, HasRoom, RemovesMaximum;
    if steps == [] {
    } else {
      StepReaches(w, steps[0], bound);
      IssuedAbove(Next(w, steps[0]), steps[1..], bound);
      if Creates(w, steps[0]) {
        CreationReaches(w, steps[0]);
        IssuedAbove(Next(w, steps[0]), steps[1..], NextId(w));
      }
    }
  }

  // ---------- ids used again ----------

  /** A REMOVE of the largest live id, unless that is 0. */
  ghost predicate RemovesTop(w: World, s: Step) { RemovesMaximum(w, s) && s.req.id > 0 }

  /**
   The ids issued so far are 0 to `top`, none if `top` is -1, and the largest live id is `top`; only
   the id 0 may be gone.
   */
  ghost predicate Topped(w: World, top: int) {
    if top < 0 then top == -1 && w == START
    else w.dir && IsMaxKey(w.tasks.Keys, top) && (top > 0 ==> top in w.tasks)
  }

  lemma ToppedNextId(w: World, top: int)
    requires Topped(w, top) && HasRoom(w)
    ensures NextId(w) == top + 1
  {
    if top >= 0 {
      assert top + 1 < ID_LIMIT by {
        if top > 0 {
          assert top in w.tasks;
        }
      }
      NextIdIsUnique(w, top + 1);
    }
  }

  /** A new task raises the top by one, and nothing else changes it but a removal of the top. */
  lemma StepTopped(w: World, top: int, s: Step)
    requires Topped(w, top) && HasRoom(w) && !RemovesTop(w, s)
    ensures Topped(Next(w, s), if Creates(w, s) then top + 1 else top)
  {
    hide NextId, Combined, FirstRepeat, ValidArguments;
    ToppedNextId(w, top);
    var w' := Next(w, s);
    if Creates(w, s) {
      assert top + 1 in w'.tasks;
      assert forall k | k in w'.tasks :: k == top + 1 || k in w.tasks;
    } else if top < 0 {
      NothingCreated(s);
    } else {
      assert w'.dir;
      assert forall k | k in w'.tasks :: k in w.tasks;
      if top > 0 {
        assert s.Asked? && s.req.Remove? ==> s.req.id != top;
        assert top in w'.tasks;
      }
    }
  }

  lemma NothingCreated(s: Step)
    requires !Creates(START, s)
    ensures Next(START, s) == START
  {
    hide NextId, Combined;
    if s.Asked? && s.req.Remove? {
      assert START.tasks - {s.req.id} == map[];
    }
  }

  /** What the removal of the top leaves: room below it for the next id. */
  ghost predicate Sunk(w: World, top: int) {
    w.dir && forall k | k in w.tasks :: k < top
  }

  lemma RemovalSinks(w: World, top: int, s: Step)
    requires Topped(w, top) && RemovesTop(w, s)
    ensures top > 0 && Sunk(Next(w, s), top)
  {
  }

  lemma SunkNextId(w: World, top: int)
    requires Sunk(w, top) && HasRoom(w) && top > 0
    ensures NextId(w) <= top
  {
    assert IsNextId(w, NextId(w));
    var m: nat :| IsMaxKey(w.tasks.Keys, m) && NextId(w) == (m + 1) % ID_LIMIT;
  }

  lemma StepSunk(w: World, top: int, s: Step)
    requires Sunk(w, top) && !Creates(w, s)
    ensures Sunk(Next(w, s), top)
  {
    hide NextId, Combined, FirstRepeat, ValidArguments;
  }

  /** Then the next new task, however late, gets an id that was issued before. */
  lemma {:induction false} FirstIssuedBelow(w: World, top: int, steps: seq<Step>)
    requires Sunk(w, top) && top > 0 && RoomAlong(w, steps) && Issued(w, steps) != []
    ensures Issued(w, steps)[0] <= top
    decreases |steps|
  {
    hide NextId, Next, Creates, Sunk, HasRoom;
    if Creates(w, steps[0]) {
      SunkNextId(w, top);
    } else {
      StepSunk(w, top, steps[0]);
      FirstIssuedBelow(Next(w, steps[0]), top, steps[1..]);
    }
  }

  /** Somewhere in the run the top is removed, and a task is created later. */
  ghost predicate Loses(w: World, steps: seq<Step>)
    decreases |steps|
  {
    && steps != []
    && var (next, rest) := (Next(w, steps[0]), steps[1..]);
       Loses(next, rest) || (RemovesTop(w, steps[0]) && Issued(next, rest) != [])
  }

  lemma {:induction false} LosesCreates(w: World, steps: seq<Step>)
    requires Loses(w, steps)
    ensures Issued(w, steps) != []
    decreases |steps|
  {
    hide NextId, Next, Creates, RemovesTop;
    if Loses(Next(w, steps[0]), steps[1..]) {
      LosesCreates(Next(w, steps[0]), steps[1..]);
    }
  }

  /** A run that loses no id numbers its tasks consecutively. */
  lemma {:induction false} IssuedInOrder(w: World, top: int, steps: seq<Step>)
    requires Topped(w, top) && RoomAlong(w, steps) && !Loses(w, steps)
    ensures forall i | 0 <= i < |Issued(w, steps)| :: Issued(w, steps)[i] == top + 1 + i
    decreases |steps|
  {
    hide NextId, Next, Creates, RemovesTop, Topped, HasRoom;
    if steps == [] || RemovesTop(w, steps[0]) {
      if steps != [] {
        RemovalCreatesNothing(w, steps[0]);
      }
    } else {
      StepTopped(w, top, steps[0]);
      ToppedNextId(w, top);
      IssuedInOrder(Next(w, steps[0]), if Creates(w, steps[0]) then top + 1 else top, steps[1..]);
    }
  }

  lemma RemovalCreatesNothing(w: World, s: Step)
    requires RemovesTop(w, s)
    ensures !Creates(w, s)
  {
  }

  /** A run that loses an id issues one that was issued before, after numbering consecutively so far. */
  lemma {:induction false} IssuedAgain(w: World, top: int, steps: seq<Step>) returns (j: nat)
    requires Topped(w, top) && RoomAlong(w, steps) && Loses(w, steps)
    ensures j < |Issued(w, steps)| && Issued(w, steps)[j] <= top + j
    ensures forall i | 0 <= i < j :: Issued(w, steps)[i] == top + 1 + i
    decreases |steps|
  {
    hide NextId, Next, Creates, RemovesTop, Topped, Sunk, HasRoom;
    var s, next, rest := steps[0], Next(w, steps[0]), steps[1..];
    if RemovesTop(w, s) {
      RemovalCreatesNothing(w, s);
      RemovalSinks(w, top, s);
      if Loses(next, rest) {
        LosesCreates(next, rest);
      }
      FirstIssuedBelow(next, top, rest);
      j := 0;
    } else {
      StepTopped(w, top, s);
      ToppedNextId(w, top);
      if Creates(w, s) {
        var k := IssuedAgain(next, top + 1, rest);
        j := k + 1;
      } else {
        j := IssuedAgain(next, top, rest);
      }
    }
  }

  /** The step number `i` removes the top, and the step number `j`, later, creates a task. */
  ghost predicate LosesAt(w: World, steps: seq<Step>, i: nat, j: nat) {
    && i < j < |steps|
    && RemovesTop(Before(w, steps, i), steps[i])
    && Creates(Before(w, steps, j), steps[j])
  }

  lemma BeforeRest(w: World, steps: seq<Step>, i: nat)
    requires 0 < i <= |steps|
    ensures Before(w, steps, i) == Before(Next(w, steps[0]), steps[1..], i - 1)
  {
    hide Next;
    assert steps[..i][1..] == steps[1..][..i - 1];
  }

  lemma {:induction false} CreatesSomewhere(w: World, steps: seq<Step>)
    ensures Issued(w, steps) != [] <==> exists j: nat :: j < |steps| && Creates(Before(w, steps, j), steps[j])
    decreases |steps|
  {
    hide NextId, Next, Creates, Before;
    if steps == [] {
    } else {
      var next, rest := Next(w, steps[0]), steps[1..];
      CreatesSomewhere(next, rest);
      assert Before(w, steps, 0) == w by { BeforeNothing(w, steps); }
      if j: nat :| j < |rest| && Creates(Before(next, rest, j), rest[j]) {
        BeforeRest(w, steps, j + 1);
        assert Creates(Before(w, steps, j + 1), steps[j + 1]);
      }
      if j: nat :| 0 < j < |steps| && Creates(Before(w, steps, j), steps[j]) {
        BeforeRest(w, steps, j);
        assert Creates(Before(next, rest, j - 1), rest[j - 1]);
      }
    }
  }

  lemma BeforeNothing(w: World, steps: seq<Step>)
    ensures Before(w, steps, 0) == w
  {
    assert steps[..0] == [];
  }

  lemma {:induction false} LosesSomewhere(w: World, steps: seq<Step>)
    ensures Loses(w, steps) <==> exists i: nat, j: nat :: LosesAt(w, steps, i, j)
    decreases |steps|
  {
    hide NextId, Next, Creates, RemovesTop, Before;
    if steps == [] {
    } else {
      var next, rest := Next(w, steps[0]), steps[1..];
      LosesSomewhere(next, rest);
      CreatesSomewhere(next, rest);
      BeforeNothing(w, steps);
      if i: nat, j: nat :| LosesAt(next, rest, i, j) {
        BeforeRest(w, steps, i + 1);
        BeforeRest(w, steps, j + 1);
        assert LosesAt(w, steps, i + 1, j + 1);
      }
      if j: nat :| RemovesTop(w, steps[0]) && j < |rest| && Creates(Before(next, rest, j), rest[j]) {
        BeforeRest(w, steps, j + 1);
        assert LosesAt(w, steps, 0, j + 1);
      }
      if i: nat, j: nat :| LosesAt(w, steps, i, j) {
        BeforeRest(w, steps, j);
        if i == 0 {
          assert Creates(Before(next, rest, j - 1), rest[j - 1]);
        } else {
          BeforeRest(w, steps, i);
          assert LosesAt(next, rest, i - 1, j - 1);
        }
      }
    }
  }

  ghost predicate IssuesTwice(ids: seq<uint64>) { exists i, j :: 0 <= i < j < |ids| && ids[i] == ids[j] }

  ghost predicate IssuesIncreasing(ids: seq<uint64>) { forall i, j | 0 <= i < j < |ids| :: ids[i] < ids[j] }

  /**
   The documentation says that ids are never used again. Over every run from an empty installation,
   an id is issued twice exactly when some step removes the largest live id, other than 0, and some
   later step creates a task. Without that the tasks are numbered 0, 1, 2 and so on.
   */
  lemma ReuseIff(steps: seq<Step>)
    requires RoomAlong(START, steps)
    ensures IssuesTwice(Issued(START, steps)) <==> exists i: nat, j: nat :: LosesAt(START, steps, i, j)
    ensures !IssuesTwice(Issued(START, steps)) ==>
      forall i | 0 <= i < |Issued(START, steps)| :: Issued(START, steps)[i] == i
  {
    hide LosesAt, Issued, Loses, RoomAlong;
    LosesSomewhere(START, steps);
    var ids := Issued(START, steps);
    if Loses(START, steps) {
      var j := IssuedAgain(START, -1, steps);
      assert ids[ids[j]] == ids[j];
    } else {
      IssuedInOrder(START, -1, steps);
    }
  }

  /** The ids strictly increase over exactly the same runs. */
  lemma IdsIncrease(steps: seq<Step>)
    requires RoomAlong(START, steps)
    ensures IssuesIncreasing(Issued(START, steps)) <==> !exists i: nat, j: nat :: LosesAt(START, steps, i, j)
  {
    hide LosesAt, Issued, RoomAlong;
    ReuseIff(steps);
  }

  /** A run of fewer than 2^64 steps needs no assumption about the counter. */
  lemma StartHasRoom(steps: seq<Step>)
    requires |steps| < ID_LIMIT
    ensures RoomAlong(START, steps)
  {
    RoomForAll(START, steps);
  }

  /**
   One step: once the current maximum m is removed, the next task gets an id that is not above m,
   except when m is 0.
   */
  lemma ReissueIff(w: World, m: uint64)
    requires w.dir && HasRoom(w)
    requires m in w.tasks && IsMaxKey(w.tasks.Keys, m)
    ensures NextId(After(w, Remove(m))) <= m <==> m > 0
  {
    var w' := After(w, Remove(m));
    assert IsNextId(w', NextId(w'));
    var m': nat :| IsMaxKey(w'.tasks.Keys, m') && NextId(w') == (m' + 1) % ID_LIMIT;
    assert forall k | k in w'.tasks.Keys :: k < m;
    assert m' < m || m' == 0;
  }

  /** CREATE, CREATE, REMOVE 1, CREATE issues the ids 0, 1 and 1. */
  lemma IdIssuedTwice(timing: Timing, argv: seq<CString>)
    requires ValidArguments(argv)
    ensures var create := Asked(Create(timing, argv));
      Issued(START, [create, create, Asked(Remove(1)), create]) == [0, 1, 1]
  {
    hide NextId, ValidArguments;
    var create := Asked(Create(timing, argv));
    var record := NewRecord(timing, Some(SimpleCommand(argv)));
    var w1 := World(true, map[0 := record]);
    var w2 := World(true, map[0 := record, 1 := record]);
    NextIdIsUnique(START, 0);
    assert Next(START, create) == w1;
    assert IsMaxKey(w1.tasks.Keys, 0);
    NextIdIsUnique(w1, 1);
    assert Next(w1, create) == w2;
    assert w2.tasks - {1} == w1.tasks;
    assert Next(w2, Asked(Remove(1))) == w1;
    var s3 := [create];
    var s2 := [Asked(Remove(1)), create];
    var s1 := [create, Asked(Remove(1)), create];
    var s0 := [create, create, Asked(Remove(1)), create];
    assert s0[1..] == s1 && s1[1..] == s2 && s2[1..] == s3 && s3[1..] == [];
    assert Issued(w1, s3) == [1] + [];
    assert Issued(w2, s2) == [] + Issued(w1, s3);
    assert Issued(w1, s1) == [1] + Issued(w2, s2);
  }
}
