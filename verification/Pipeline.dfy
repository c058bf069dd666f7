/** Descriptors and processes of `execute_pipeline_command` in `src/execution.c`. */
module Pipeline {

  /** What a descriptor refers to: an end of the i-th pipe, or something the daemon had open before. */
  datatype End = ReadEnd(pipe: nat) | WriteEnd(pipe: nat) | Other(what: nat)

  /** The open descriptors of one process. */
  type Table = map<nat, End>

  const STDIN: nat := 0
  const STDOUT: nat := 1

  function ToSet(fds: seq<nat>): set<nat> { set fd | fd in fds }

  ghost predicate Distinct(xs: seq<nat>) { forall i, j | 0 <= i < j < |xs| :: xs[i] != xs[j] }

  /** The table of stage `i` of `n` when it calls `execvp`: `dup2`, then every pipe descriptor closed. */
  function StageTable(t: Table, fds: seq<nat>, i: nat, n: nat): Table
    requires i < n && |fds| == 2 * (n - 1)
    requires forall fd | fd in fds :: fd in t
  {
    var t1 := if i > 0 then t[STDIN := t[fds[2 * (i - 1)]]] else t;
    var t2 := if i < n - 1 then t1[STDOUT := t[fds[2 * i + 1]]] else t1;
    t2 - ToSet(fds)
  }

  /** The pipes are wired: stage i alone can write to pipe i, and only the parent and stage i+1 can read it. */
  ghost predicate Wired(parent: Table, stages: seq<Table>) {
    && |stages| >= 2
    && (forall fd | fd in parent :: !parent[fd].WriteEnd? && (parent[fd].ReadEnd? ==> parent[fd].pipe == |stages| - 2))
    && (exists fd :: fd in parent && parent[fd] == ReadEnd(|stages| - 2))
    && (forall i, fd | 0 <= i < |stages| && fd in stages[i] ::
          && (stages[i][fd].WriteEnd? ==> stages[i][fd].pipe == i < |stages| - 1 && fd == STDOUT)
          && (stages[i][fd].ReadEnd? ==> stages[i][fd].pipe == i - 1 && fd == STDIN))
    && (forall i | 0 <= i < |stages| - 1 :: STDOUT in stages[i] && stages[i][STDOUT] == WriteEnd(i))
    && (forall i | 1 <= i < |stages| :: STDIN in stages[i] && stages[i][STDIN] == ReadEnd(i - 1))
  }

  /** Descriptors 0 and 1 are open and nothing is a pipe of this pipeline yet. */
  predicate Usual(t: Table) { STDIN in t && STDOUT in t && forall fd | fd in t :: t[fd].Other? }

  class Process {
    var table: Table
    /** Histories: descriptors obtained from `pipe` and closed, children forked and waited for. */
    var obtained: seq<nat>
    var closed: seq<nat>
    var forked: seq<nat>
    var waited: seq<nat>
    /** The tables of the children, and a picture of all tables when the parent starts to read. */
    var stages: seq<Table>
    ghost var picture: seq<(Table, seq<Table>)>

    constructor (table: Table)
      ensures this.table == table
      ensures obtained == closed == forked == waited == [] && stages == [] && picture == []
    {
      this.table := table;
      obtained, closed, forked, waited, stages, picture := [], [], [], [], [], [];
    }

    /** `pipe`: two descriptors that were free, or a failure. */
    method Pipe(i: nat) returns (ok: bool, r: nat, w: nat)
      modifies `table, `obtained
      ensures !ok ==> table == old(table) && obtained == old(obtained)
      ensures ok ==> r != w && r !in old(table) && w !in old(table)
      ensures ok ==> table == old(table)[r := ReadEnd(i)][w := WriteEnd(i)] && obtained == old(obtained) + [r, w]
    {
      SomeNumberIsFree(table.Keys);
      r :| r !in table.Keys;
      SomeNumberIsFree(table.Keys + {r});
      w :| w !in table.Keys + {r};
      ok := *;
      if ok {
        table := table[r := ReadEnd(i)][w := WriteEnd(i)];
        obtained := obtained + [r, w];
      }
    }

    /** `close`, never called on a descriptor that is not open. */
    method Close(fd: nat)
      requires fd in table
      modifies `table, `closed
      ensures table == old(table) - {fd} && closed == old(closed) + [fd]
    {
      table := table - {fd};
      closed := closed + [fd];
    }

    /** `fork`: the child's table when it is ready to run its stage. */
    method Fork(stage: Table) returns (ok: bool, pid: nat)
      modifies `forked, `stages
      ensures !ok ==> forked == old(forked) && stages == old(stages)
      ensures ok ==> pid > 0 && pid !in old(forked) && forked == old(forked) + [pid] && stages == old(stages) + [stage]
    {
      SomeNumberIsFree(ToSet(forked) + {0});
      pid :| pid !in ToSet(forked) + {0};
      ok := *;
      if ok {
        forked := forked + [pid];
        stages := stages + [stage];
      }
    }

    /** `waitpid`, repeated while it is interrupted. */
    method Wait(pid: nat)
      requires pid in forked && pid !in waited
      modifies `waited
      ensures waited == old(waited) + [pid]
    {
      waited := waited + [pid];
    }
  }

  lemma SomeNumberIsFree(used: set<nat>)
    ensures exists x: nat :: x !in used
  {
    var bound := SomeBound(used);
    assert bound !in used;
  }

  lemma {:induction false} SomeBound(used: set<nat>) returns (bound: nat)
    ensures forall x | x in used :: x < bound
    decreases |used|
  {
    if used == {} {
      bound := 0;
    } else {
      var x :| x in used;
      var rest := SomeBound(used - {x});
      bound := if x < rest then rest else x + 1;
      forall y | y in used ensures y < bound {
        assert y == x || y in used - {x};
      }
    }
  }

  // ---------- the pipes ----------

  /** The table `t0` extended with `k` pipes whose descriptors are listed in `fds`. */
  ghost predicate Connected(t: Table, t0: Table, fds: seq<nat>, k: nat) {
    && |fds| == 2 * k && Distinct(fds)
    && (forall fd | fd in fds :: fd !in t0)
    && t.Keys == t0.Keys + ToSet(fds)
    && (forall i: nat | i < k :: t[fds[2 * i]] == ReadEnd(i) && t[fds[2 * i + 1]] == WriteEnd(i))
    && (forall fd | fd in t0 :: t[fd] == t0[fd])
  }

  lemma OneMorePipe(t: Table, t0: Table, fds: seq<nat>, k: nat, r: nat, w: nat)
    requires Connected(t, t0, fds, k)
    requires r != w && r !in t && w !in t
    ensures Connected(t[r := ReadEnd(k)][w := WriteEnd(k)], t0, fds + [r, w], k + 1)
  {
    var fds' := fds + [r, w];
    assert forall fd | fd in fds :: fd in t;
    assert ToSet(fds') == ToSet(fds) + {r, w};
    forall i, j | 0 <= i < j < |fds'| ensures fds'[i] != fds'[j] {
      assert i < |fds| ==> fds'[i] == fds[i] && fds[i] in fds;
      assert j < |fds| ==> fds'[j] == fds[j];
    }
    forall i: nat | i < k ensures fds'[2 * i] == fds[2 * i] && fds'[2 * i + 1] == fds[2 * i + 1] {
      assert fds[2 * i] in fds && fds[2 * i + 1] in fds;
    }
  }

  /** What remains open once the descriptors `gone` have been closed. */
  lemma RemoveOne(t: Table, gone: seq<nat>, fd: nat)
    ensures t - ToSet(gone) - {fd} == t - ToSet(gone + [fd])
  {
    assert ToSet(gone + [fd]) == ToSet(gone) + {fd};
  }

  lemma AllRemoved(t: Table, t0: Table, fds: seq<nat>, k: nat, gone: seq<nat>)
    requires Connected(t, t0, fds, k)
    requires ToSet(gone) == ToSet(fds)
    ensures t - ToSet(gone) == t0
  {
  }

  lemma NextInPrefix(fds: seq<nat>, j: nat)
    requires Distinct(fds) && j < |fds|
    ensures fds[j] in fds && fds[j] !in fds[..j]
    ensures fds[..j + 1] == fds[..j] + [fds[j]]
  {
  }

  /** The cleanup loops of the error paths: both ends of the first `k` pipes, in order. */
  method ClosePairs(p: Process, pipes: array<nat>, k: nat, ghost t0: Table)
    requires 2 * k <= pipes.Length
    requires Connected(p.table, t0, pipes[..2 * k], k)
    modifies p`table, p`closed
    ensures p.table == t0 && p.closed == old(p.closed) + pipes[..2 * k]
  {
    hide Connected, Distinct;
    ghost var fds := pipes[..2 * k];
    ghost var full := p.table;
    ConnectedOpen(full, t0, fds, k);
    ConnectedDistinct(full, t0, fds, k);
    assert full - ToSet([]) == full;
    for j := 0 to k
      invariant p.table == full - ToSet(fds[..2 * j])
      invariant p.closed == old(p.closed) + fds[..2 * j]
      invariant pipes[..2 * k] == fds
    {
      NextInPrefix(fds, 2 * j);
      NextInPrefix(fds, 2 * j + 1);
      RemoveOne(full, fds[..2 * j], fds[2 * j]);
      RemoveOne(full, fds[..2 * j + 1], fds[2 * j + 1]);
      p.Close(pipes[2 * j]);
      p.Close(pipes[2 * j + 1]);
    }
    assert fds[..2 * k] == fds;
    AllRemoved(full, t0, fds, k, fds);
  }

  /** Creating the pipes; a failure at any of them closes those made before. */
  method OpenPipes(p: Process, pipes: array<nat>, n: nat) returns (ok: bool)
    requires n >= 1 && pipes.Length == 2 * (n - 1)
    requires p.obtained == [] && p.closed == []
    modifies p`table, p`obtained, p`closed, pipes
    ensures ok ==> Connected(p.table, old(p.table), pipes[..], n - 1) && p.obtained == pipes[..] && p.closed == []
    ensures !ok ==> p.table == old(p.table) && p.closed == p.obtained && Distinct(p.closed)
  {
    hide Connected, Distinct;
    ghost var t0 := p.table;
    assert Connected(t0, t0, [], 0) by { NoPipes(t0); }
    for i := 0 to n - 1
      invariant Connected(p.table, t0, pipes[..2 * i], i)
      invariant p.obtained == pipes[..2 * i] && p.closed == []
    {
      ghost var before := p.table;
      ghost var fds := pipes[..2 * i];
      var made, r, w := p.Pipe(i);
      if !made {
        ConnectedDistinct(before, t0, fds, i);
        ClosePairs(p, pipes, i, t0);
        assert [] + fds == fds;
        return false;
      }
      OneMorePipe(before, t0, fds, i, r, w);
      pipes[2 * i] := r;
      pipes[2 * i + 1] := w;
      assert pipes[..2 * (i + 1)] == fds + [r, w];
    }
    assert pipes[..2 * (n - 1)] == pipes[..];
    ok := true;
  }

  lemma NoPipes(t: Table)
    ensures Connected(t, t, [], 0)
  {
  }

  lemma ConnectedDistinct(t: Table, t0: Table, fds: seq<nat>, k: nat)
    requires Connected(t, t0, fds, k)
    ensures Distinct(fds) && |fds| == 2 * k
  {
  }

  // ---------- the processes ----------

  /** The children started so far are waited for, one by one. */
  method WaitAll(p: Process, pids: seq<nat>)
    requires pids == p.forked && p.waited == [] && Distinct(pids)
    modifies p`waited
    ensures p.waited == p.forked
  {
    for j := 0 to |pids|
      invariant p.waited == pids[..j]
    {
      p.Wait(pids[j]);
    }
    assert pids[..|pids|] == pids;
  }

  method ForkStages(p: Process, fds: seq<nat>, n: nat) returns (ok: bool, pids: seq<nat>)
    requires n >= 2 && |fds| == 2 * (n - 1)
    requires forall fd | fd in fds :: fd in p.table
    requires p.forked == [] && p.stages == []
    modifies p`forked, p`stages
    ensures pids == p.forked && Distinct(pids)
    ensures ok ==> |p.stages| == |pids| == n && forall i: nat | i < n :: p.stages[i] == StageTable(p.table, fds, i, n)
  {
    pids := [];
    for i := 0 to n
      invariant pids == p.forked && |p.stages| == i == |pids|
      invariant Distinct(pids)
      invariant forall k: nat | k < i :: p.stages[k] == StageTable(p.table, fds, k, n)
    {
      var forked, pid := p.Fork(StageTable(p.table, fds, i, n));
      if !forked { return false, pids; }
      assert forall k | 0 <= k < |pids| :: pids[k] in pids;
      pids := pids + [pid];
    }
    ok := true;
  }

  // ---------- closing in the parent ----------

  /** The order of `close` in the parent: write end i, then read end i-1. */
  function ParentCloses(fds: seq<nat>, i: nat): seq<nat>
    requires 2 * i <= |fds|
  {
    if i == 0 then []
    else ParentCloses(fds, i - 1) + [fds[2 * i - 1]] + (if i >= 2 then [fds[2 * i - 4]] else [])
  }

  lemma {:induction false} ParentClosesWhich(fds: seq<nat>, i: nat, fd: nat)
    requires 2 * i <= |fds| && Distinct(fds)
    ensures fd in ParentCloses(fds, i) <==>
      (exists k: nat :: k < i && fd == fds[2 * k + 1]) || (exists k: nat :: k + 1 < i && fd == fds[2 * k])
  {
    if i == 0 {
    } else {
      ParentClosesWhich(fds, i - 1, fd);
      assert fds[2 * (i - 1) + 1] == fds[2 * i - 1];
      if i >= 2 {
        assert fds[2 * (i - 2)] == fds[2 * i - 4];
      }
    }
  }

  lemma NotYetClosed(fds: seq<nat>, i: nat)
    requires Distinct(fds) && 2 * (i + 1) <= |fds|
    ensures fds[2 * i + 1] !in ParentCloses(fds, i)
    ensures i >= 1 ==> fds[2 * i - 2] !in ParentCloses(fds, i) + [fds[2 * i + 1]]
  {
    ParentClosesWhich(fds, i, fds[2 * i + 1]);
    if i >= 1 {
      ParentClosesWhich(fds, i, fds[2 * (i - 1)]);
    }
  }

  lemma {:induction false} ParentClosesDistinct(fds: seq<nat>, i: nat)
    requires 2 * i <= |fds| && Distinct(fds)
    ensures Distinct(ParentCloses(fds, i))
  {
    hide ParentCloses;
    if i == 0 {
      NothingClosed(fds);
    } else {
      ParentClosesDistinct(fds, i - 1);
      NotYetClosed(fds, i - 1);
      NextClosed(fds, i - 1);
      DistinctSnoc(ParentCloses(fds, i - 1), fds[2 * i - 1]);
      if i >= 2 {
        DistinctSnoc(ParentCloses(fds, i - 1) + [fds[2 * i - 1]], fds[2 * i - 4]);
      }
    }
  }

  lemma DistinctSnoc(xs: seq<nat>, x: nat)
    requires Distinct(xs) && x !in xs
    ensures Distinct(xs + [x])
  {
  }

  method CloseInParent(p: Process, pipes: array<nat>, n: nat, ghost t0: Table)
    requires n >= 2 && pipes.Length == 2 * (n - 1)
    requires Connected(p.table, t0, pipes[..], n - 1) && p.closed == []
    modifies p`table, p`closed
    ensures p.closed == ParentCloses(pipes[..], n - 1)
    ensures p.table == old(p.table) - ToSet(p.closed)
  {
    hide Connected, Distinct, ParentCloses;
    ghost var fds := pipes[..];
    ghost var full := p.table;
    assert full - ToSet([]) == full;
    assert ParentCloses(fds, 0) == [] by { NothingClosed(fds); }
    ConnectedDistinct(full, t0, fds, n - 1);
    ConnectedOpen(full, t0, fds, n - 1);
    for i := 0 to n - 1
      invariant p.closed == ParentCloses(fds, i)
      invariant p.table == full - ToSet(p.closed)
      invariant pipes[..] == fds
    {
      ghost var gone := p.closed;
      NotYetClosed(fds, i);
      NextClosed(fds, i);
      assert fds[2 * i + 1] in fds;
      p.Close(pipes[2 * i + 1]);
      RemoveOne(full, gone, fds[2 * i + 1]);
      if i > 0 {
        assert fds[2 * (i - 1)] in fds;
        p.Close(pipes[2 * (i - 1)]);
        RemoveOne(full, gone + [fds[2 * i + 1]], fds[2 * (i - 1)]);
      }
    }
  }

  lemma NothingClosed(fds: seq<nat>)
    ensures ParentCloses(fds, 0) == []
  {
  }

  lemma NextClosed(fds: seq<nat>, i: nat)
    requires 2 * (i + 1) <= |fds|
    ensures ParentCloses(fds, i + 1) ==
      ParentCloses(fds, i) + [fds[2 * i + 1]] + (if i > 0 then [fds[2 * (i - 1)]] else [])
  {
    assert 2 * (i + 1) - 4 == 2 * (i - 1);
  }

  lemma ConnectedOpen(t: Table, t0: Table, fds: seq<nat>, k: nat)
    requires Connected(t, t0, fds, k)
    ensures forall fd | fd in fds :: fd in t
  {
  }

  // ---------- the whole pipeline ----------

  lemma SetupIsWired(t: Table, t0: Table, fds: seq<nat>, n: nat, parent: Table, stages: seq<Table>)
    requires n >= 2 && Connected(t, t0, fds, n - 1)
    requires Usual(t0)
    requires forall fd | fd in fds :: fd in t
    requires |stages| == n && forall i: nat | i < n :: stages[i] == StageTable(t, fds, i, n)
    requires parent == t - ToSet(ParentCloses(fds, n - 1))
    ensures Wired(parent, stages)
  {
    hide Connected, StageTable, ParentCloses;
    ParentWired(t, t0, fds, n);
    forall i: nat | i < n
      ensures i < n - 1 ==> STDOUT in stages[i] && stages[i][STDOUT] == WriteEnd(i)
      ensures 1 <= i ==> STDIN in stages[i] && stages[i][STDIN] == ReadEnd(i - 1)
      ensures forall fd | fd in stages[i] ::
        && (stages[i][fd].WriteEnd? ==> stages[i][fd].pipe == i < n - 1 && fd == STDOUT)
        && (stages[i][fd].ReadEnd? ==> stages[i][fd].pipe == i - 1 && fd == STDIN)
    {
      StageWired(t, t0, fds, i, n);
    }
  }

  /** Of the pipes' descriptors, the parent keeps the last read end only. */
  lemma ParentKeeps(fds: seq<nat>, n: nat, j: nat)
    requires n >= 2 && |fds| == 2 * (n - 1) && Distinct(fds)
    requires j < |fds|
    ensures fds[j] !in ParentCloses(fds, n - 1) <==> j == 2 * (n - 2)
  {
    hide ParentCloses, Distinct;
    ParentClosesWhich(fds, n - 1, fds[j]);
    var k := j / 2;
    if j % 2 == 1 {
      assert fds[j] == fds[2 * k + 1] && k < n - 1;
    } else if k + 1 < n - 1 {
      assert fds[j] == fds[2 * k];
    } else {
      LastNotYetClosed(fds, n);
    }
  }

  lemma ParentWired(t: Table, t0: Table, fds: seq<nat>, n: nat)
    requires n >= 2 && Connected(t, t0, fds, n - 1)
    requires forall fd | fd in t0 :: t0[fd].Other?
    ensures var parent := t - ToSet(ParentCloses(fds, n - 1));
      && (forall fd | fd in parent :: !parent[fd].WriteEnd? && (parent[fd].ReadEnd? ==> parent[fd].pipe == n - 2))
      && fds[2 * (n - 2)] in parent && parent[fds[2 * (n - 2)]] == ReadEnd(n - 2)
  {
    hide ParentCloses, Distinct;
    var parent := t - ToSet(ParentCloses(fds, n - 1));
    forall fd | fd in parent ensures !parent[fd].WriteEnd? && (parent[fd].ReadEnd? ==> parent[fd].pipe == n - 2) {
      if fd in fds {
        var j :| 0 <= j < |fds| && fds[j] == fd;
        ParentKeeps(fds, n, j);
      }
    }
    LastNotYetClosed(fds, n);
    assert fds[2 * (n - 2)] in fds;
  }

  lemma StageWired(t: Table, t0: Table, fds: seq<nat>, i: nat, n: nat)
    requires i < n && n >= 2 && Connected(t, t0, fds, n - 1)
    requires Usual(t0)
    requires forall fd | fd in fds :: fd in t
    ensures var s := StageTable(t, fds, i, n);
      && (i < n - 1 ==> STDOUT in s && s[STDOUT] == WriteEnd(i))
      && (1 <= i ==> STDIN in s && s[STDIN] == ReadEnd(i - 1))
      && forall fd | fd in s ::
        && (s[fd].WriteEnd? ==> s[fd].pipe == i < n - 1 && fd == STDOUT)
        && (s[fd].ReadEnd? ==> s[fd].pipe == i - 1 && fd == STDIN)
  {
    if i > 0 {
      assert fds[2 * (i - 1)] in fds;
    }
    if i < n - 1 {
      assert fds[2 * i + 1] in fds;
    }
  }

  lemma EachClosed(fds: seq<nat>, n: nat, j: nat)
    requires n >= 2 && |fds| == 2 * (n - 1) && Distinct(fds)
    requires j < |fds|
    ensures fds[j] in ParentCloses(fds, n - 1) + [fds[2 * (n - 2)]]
  {
    hide ParentCloses, Distinct;
    var k := j / 2;
    ParentClosesWhich(fds, n - 1, fds[j]);
    if j % 2 == 1 {
      assert fds[j] == fds[2 * k + 1] && k < n - 1;
    } else {
      assert fds[j] == fds[2 * k] && k < n - 1;
    }
  }

  lemma OnlyDescriptorsClosed(fds: seq<nat>, n: nat, fd: nat)
    requires n >= 2 && |fds| == 2 * (n - 1) && Distinct(fds)
    requires fd in ParentCloses(fds, n - 1)
    ensures fd in fds
  {
    hide ParentCloses, Distinct;
    ParentClosesWhich(fds, n - 1, fd);
  }

  lemma LastNotYetClosed(fds: seq<nat>, n: nat)
    requires n >= 2 && |fds| == 2 * (n - 1) && Distinct(fds)
    ensures fds[2 * (n - 2)] !in ParentCloses(fds, n - 1)
  {
    hide ParentCloses;
    ParentClosesWhich(fds, n - 1, fds[2 * (n - 2)]);
  }

  lemma LastStillOpen(t: Table, fds: seq<nat>, n: nat)
    requires n >= 2 && |fds| == 2 * (n - 1) && Distinct(fds)
    requires forall fd | fd in fds :: fd in t
    ensures fds[2 * (n - 2)] in t - ToSet(ParentCloses(fds, n - 1))
  {
    LastNotYetClosed(fds, n);
    assert fds[2 * (n - 2)] in fds;
  }

  /** With the last read end, the parent's closes cover every descriptor once. */
  lemma ClosedEverything(t: Table, t0: Table, fds: seq<nat>, n: nat)
    requires n >= 2 && Connected(t, t0, fds, n - 1)
    ensures var closed := ParentCloses(fds, n - 1) + [fds[2 * (n - 2)]];
      ToSet(closed) == ToSet(fds) && Distinct(closed) && t - ToSet(closed) == t0
  {
    hide ParentCloses, Distinct, Connected;
    ConnectedDistinct(t, t0, fds, n - 1);
    var last := fds[2 * (n - 2)];
    var closed := ParentCloses(fds, n - 1) + [last];
    LastNotYetClosed(fds, n);
    ParentClosesDistinct(fds, n - 1);
    DistinctSnoc(ParentCloses(fds, n - 1), last);
    forall j | 0 <= j < |fds| ensures fds[j] in closed {
      EachClosed(fds, n, j);
    }
    forall fd | fd in closed ensures fd in fds {
      if fd != last {
        OnlyDescriptorsClosed(fds, n, fd);
      }
    }
    AllRemoved(t, t0, fds, n - 1, closed);
  }

  /** Reading to the end, closing and waiting, in the order that the outcome of the reading selects. */
  method Collect(p: Process, pids: seq<nat>, lastReadFd: nat) returns (ok: bool)
    requires pids == p.forked && p.waited == [] && Distinct(pids) && lastReadFd in p.table
    modifies p`table, p`closed, p`waited
    ensures p.table == old(p.table) - {lastReadFd} && p.closed == old(p.closed) + [lastReadFd]
    ensures p.waited == p.forked
  {
    ok := *;
    if !ok {
      WaitAll(p, pids);
      p.Close(lastReadFd);
      return;
    }
    p.Close(lastReadFd);
    WaitAll(p, pids);
  }

  /**
   `execute_pipeline_command` on `n` stages, with failures of `pipe`, `fork` and `read` anywhere. On
   every path the parent closes each descriptor it obtained exactly once, ends with the descriptors
   it started with, and waits exactly once for each child it forked. When it starts to read, the
   pipes are wired, provided that the descriptors 0 and 1 were open.
   */
  method ExecutePipeline(p: Process, n: nat) returns (ok: bool)
    requires p.obtained == p.closed == p.forked == p.waited == [] && p.stages == [] && p.picture == []
    modifies p
    ensures ToSet(p.closed) == ToSet(p.obtained) && Distinct(p.closed)
    ensures p.table == old(p.table)
    ensures p.waited == p.forked && Distinct(p.forked)
    ensures ok ==> |p.forked| == n && |p.picture| == 1
    ensures forall picture | picture in p.picture ::
      |picture.1| == n && (Usual(old(p.table)) ==> Wired(picture.0, picture.1))
  {
    hide Connected, ParentCloses, StageTable, Wired, Usual;
    if n < 2 { return false; }
    ghost var t0 := p.table;
    var pipes := new nat[2 * (n - 1)](i => 0);
    var connected := OpenPipes(p, pipes, n);
    if !connected { return false; }
    ghost var full, fds := p.table, pipes[..];
    ConnectedOpen(full, t0, fds, n - 1);
    ConnectedDistinct(full, t0, fds, n - 1);
    var forked, pids := ForkStages(p, pipes[..], n);
    if !forked {
      WaitAll(p, pids);
      assert pipes[..2 * (n - 1)] == fds;
      ClosePairs(p, pipes, n - 1, t0);
      assert [] + fds == fds;
      return false;
    }
    CloseInParent(p, pipes, n, t0);
    LastStillOpen(full, fds, n);
    if Usual(t0) {
      SetupIsWired(full, t0, fds, n, p.table, p.stages);
    }
    p.picture := [(p.table, p.stages)];
    ClosedEverything(full, t0, fds, n);
    RemoveOne(full, p.closed, fds[2 * (n - 2)]);
    var lastReadFd := pipes[2 * (n - 2)];
    ok := Collect(p, pids, lastReadFd);
  }
}
