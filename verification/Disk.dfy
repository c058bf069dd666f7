/** Command trees stored as directories, after `src/task_tree.c`. */
module Disk {
  import opened Bytes
  import opened Commands
  import opened Serialization
  import opened Text

  /** A file system subtree. The entries `.` and `..` are left implicit. */
  datatype Node = File(data: seq<byte>) | Dir(entries: map<string, Node>)

  type Entries = map<string, Node>

  // ---------- saving ----------

  /** `open(path, O_CREAT | O_WRONLY | O_TRUNC)` succeeds. */
  predicate FileSlot(dir: Entries, name: string) { name in dir ==> dir[name].File? }

  /** `ensure_directory_exists` followed by writing inside succeeds. */
  predicate DirSlot(dir: Entries, name: string) { name in dir ==> dir[name].Dir? }

  function SubEntries(dir: Entries, name: string): Entries {
    if name in dir && dir[name].Dir? then dir[name].entries else map[]
  }

  /** The contents of a directory after `save_command_to_dir`, when it succeeds. */
  function SaveInto(dir: Entries, c: Command): Option<Entries>
    decreases c, 1
  {
    if !FileSlot(dir, "type") then None else
    var dir1 := dir["type" := File(BE(c.ty, 2))];
    if c.ty == SI then
      if FileSlot(dir1, "argv") && ValidArguments(c.argv) then Some(dir1["argv" := File(EncodeArguments(c.argv))])
      else None
    else SaveChildren(dir1, c.cmds, 0)
  }

  function SaveChildren(dir: Entries, cs: seq<Command>, i: nat): Option<Entries>
    requires i <= |cs|
    decreases cs, 0, |cs| - i
  {
    if i == |cs| then Some(dir) else
    var name := Decimal(i);
    if !DirSlot(dir, name) then None else
    var child := SaveInto(SubEntries(dir, name), cs[i]);
    if child.None? then None else SaveChildren(dir[name := Dir(child.value)], cs, i + 1)
  }

  method SaveCommandToDir(dir: Entries, c: Command) returns (r: Option<Entries>)
    requires Representable(c)
    ensures r == SaveInto(dir, c)
    decreases c
  {
    if !FileSlot(dir, "type") { return None; }
    var typeFile := new Stream([]);
    typeFile.WriteUint16(c.ty);
    var entries := dir["type" := File(typeFile.data)];
    assert typeFile.data == BE(c.ty, 2);
    if c.ty == SI {
      if !FileSlot(entries, "argv") { return None; }
      var argvFile := new Stream([]);
      var written := WriteArguments(argvFile, c.argv);
      if !written { return None; }
      assert argvFile.data == EncodeArguments(c.argv);
      return Some(entries["argv" := File(argvFile.data)]);
    }
    for i := 0 to |c.cmds|
      invariant SaveInto(dir, c) == SaveChildren(entries, c.cmds, i)
    {
      var name := Decimal(i);
      if !DirSlot(entries, name) { return None; }
      var child := SaveCommandToDir(SubEntries(entries, name), c.cmds[i]);
      if child.None? { return None; }
      entries := entries[name := Dir(child.value)];
    }
    r := Some(entries);
  }

  // ---------- loading ----------

  /** `strtoull(name, NULL, 10)` for a numeric name, which saturates at 64 bits; 0 for other names. */
  function NameValue(name: string): (v: nat)
    ensures v < 0x1_0000_0000_0000_0000
  {
    if !IsNumber(name) then 0 else
    var v := DecimalValue(name);
    if v < 0x1_0000_0000_0000_0000 then v else 0xffff_ffff_ffff_ffff
  }

  /** `(uint32_t)strtoul(name, NULL, 10)`. */
  function Index(name: string): (i: nat)
    ensures Fits32(i)
  {
    NameValue(name) % 0x1_0000_0000
  }

  /** The outcome of a scan that keeps a running maximum starting at 0, in any order. */
  ghost predicate IsMax(names: set<string>, key: string -> nat, m: nat) {
    && (forall name | name in names :: key(name) <= m)
    && (m == 0 || exists name | name in names :: key(name) == m)
  }

  ghost function MaxOf(names: set<string>, key: string -> nat): (m: nat)
    ensures IsMax(names, key, m)
  {
    if names == {} then 0 else
    var name :| name in names;
    var rest := MaxOf(names - {name}, key);
    assert forall x | x in names :: x == name || x in names - {name};
    if key(name) > rest then key(name) else rest
  }

  lemma MaxIsUnique(names: set<string>, key: string -> nat, m: nat)
    requires IsMax(names, key, m)
    ensures m == MaxOf(names, key)
  {
  }

  method ScanMax(names: set<string>, key: string -> nat) returns (max: nat)
    ensures max == MaxOf(names, key)
  {
    var todo := names;
    max := 0;
    while todo != {}
      invariant todo <= names
      invariant IsMax(names - todo, key, max)
    {
      var name :| name in todo;
      ghost var seen := names - todo;
      todo := todo - {name};
      assert forall x :: x in names - todo <==> x == name || x in seen;
      if key(name) > max {
        max := key(name);
      }
    }
    assert names - todo == names;
    MaxIsUnique(names, key, max);
  }

  /** One more than the largest index, in 32-bit arithmetic. */
  ghost function ChildCount(dir: Entries): uint32 {
    (MaxOf(dir.Keys, Index) + 1) % 0x1_0000_0000
  }

  function ReadType(dir: Entries): Option<uint16> {
    if "type" in dir && dir["type"].File? && DecodeUint16(dir["type"].data).Got?
    then Some(DecodeUint16(dir["type"].data).value) else None
  }

  function ReadArgv(dir: Entries): Option<seq<CString>> {
    if "argv" in dir && dir["argv"].File? && DecodeArguments(dir["argv"].data).Got?
    then Some(DecodeArguments(dir["argv"].data).value) else None
  }

  /** `load_command_from_dir`. */
  ghost function Load(node: Node): Option<Command>
    decreases node, 1
  {
    if node.File? then None else
    var ty := ReadType(node.entries);
    if ty.None? then None
    else if ty.value == SI then
      var argv := ReadArgv(node.entries);
      if argv.None? then None else Some(Command(SI, argv.value, []))
    else
      var cmds := LoadChildren(node, 0, ChildCount(node.entries));
      if cmds.None? then None else Some(Command(ty.value, [], cmds.value))
  }

  ghost function LoadChildren(node: Node, i: nat, count: nat): (r: Option<seq<Command>>)
    requires node.Dir? && i <= count
    ensures r.Some? ==> |r.value| == count - i
    decreases node, 0, count - i
  {
    if i == count then Some([]) else
    var name := Decimal(i);
    if name !in node.entries || node.entries[name].File? then None else
    var c := Load(node.entries[name]);
    if c.None? then None else
    var cs := LoadChildren(node, i + 1, count);
    if cs.None? then None else Some([c.value] + cs.value)
  }

  /**
   The scan for the largest index visits the entries in whatever order the directory lists them,
   then the children are loaded in numeric order.
   */
  method LoadCommandFromDir(node: Node) returns (r: Option<Command>)
    ensures r == Load(node)
    decreases node, 1
  {
    hide ReadType, ReadArgv, MaxOf;
    if node.File? { return None; }
    var dir := node.entries;
    var ty := ReadType(dir);
    if ty.None? { return None; }
    if ty.value == SI {
      var argv := ReadArgv(dir);
      if argv.None? { return None; }
      return Some(Command(SI, argv.value, []));
    }
    var max := ScanMax(dir.Keys, Index);
    var cmds := LoadChildrenFromDir(node, (max + 1) % 0x1_0000_0000);
    if cmds.None? { return None; }
    r := Some(Command(ty.value, [], cmds.value));
  }

  method LoadChildrenFromDir(node: Node, count: nat) returns (r: Option<seq<Command>>)
    requires node.Dir?
    ensures r == LoadChildren(node, 0, count)
    decreases node, 0
  {
    hide Load, Decimal;
    var cmds: seq<Command> := [];
    assert forall cs: seq<Command> :: [] + cs == cs;
    for i := 0 to count
      invariant |cmds| == i
      invariant LoadChildren(node, 0, count) == Appended(cmds, LoadChildren(node, i, count))
    {
      var name := Decimal(i);
      if name !in node.entries || node.entries[name].File? { return None; }
      var c := LoadCommandFromDir(node.entries[name]);
      if c.None? { return None; }
      ghost var rest := LoadChildren(node, i + 1, count);
      assert rest.Some? ==> cmds + ([c.value] + rest.value) == cmds + [c.value] + rest.value;
      cmds := cmds + [c.value];
    }
    assert cmds + [] == cmds;
    r := Some(cmds);
  }

  function Appended(cmds: seq<Command>, rest: Option<seq<Command>>): Option<seq<Command>> {
    if rest.None? then None else Some(cmds + rest.value)
  }

  // ---------- loading what was saved ----------

  /** The trees that `save_command_to_dir` can write completely into a fresh directory. */
  predicate Storable(c: Command) {
    if c.ty == SI then ValidArguments(c.argv) else forall d | d in c.cmds :: Storable(d)
  }

  /** What the loop over the sub-commands leaves behind, name by name. */
  lemma {:induction false} SavedChildren(dir: Entries, cs: seq<Command>, i: nat)
    requires i <= |cs|
    requires SaveChildren(dir, cs, i).Some?
    ensures var saved := SaveChildren(dir, cs, i).value;
      && (forall k: nat | i <= k < |cs| ::
            && Decimal(k) in saved && saved[Decimal(k)].Dir?
            && SaveInto(SubEntries(dir, Decimal(k)), cs[k]) == Some(saved[Decimal(k)].entries))
      && (forall name | (forall k: nat | i <= k < |cs| :: name != Decimal(k)) ::
            (name in saved <==> name in dir) && (name in dir ==> saved[name] == dir[name]))
    decreases |cs| - i
  {
    hide SaveInto, Decimal;
    if i == |cs| {
    } else {
      var name := Decimal(i);
      var next := dir[name := Dir(SaveInto(SubEntries(dir, name), cs[i]).value)];
      SavedChildren(next, cs, i + 1);
      forall k: nat | i < k < |cs|
        ensures Decimal(k) != name && SubEntries(next, Decimal(k)) == SubEntries(dir, Decimal(k))
      {
        DistinctNames(k, i);
      }
    }
  }

  lemma DistinctNames(k: nat, i: nat)
    requires k != i
    ensures Decimal(k) != Decimal(i)
  {
    if Decimal(k) == Decimal(i) {
      DecimalInjective(k, i);
    }
  }

  lemma {:induction false} SaveSucceeds(c: Command)
    ensures SaveInto(map[], c).Some? <==> Storable(c)
    decreases c, 1
  {
    if c.ty != SI {
      var dir: Entries := map["type" := File(BE(c.ty, 2))];
      forall k: nat ensures Decimal(k) !in dir {
        DecimalRoundTrip(k);
        assert !IsDigit("type"[0]);
      }
      SaveChildrenSucceeds(dir, c.cmds, 0);
    }
  }

  lemma {:induction false} SaveChildrenSucceeds(dir: Entries, cs: seq<Command>, i: nat)
    requires i <= |cs|
    requires forall k: nat | i <= k :: Decimal(k) !in dir
    ensures SaveChildren(dir, cs, i).Some? <==> forall k | i <= k < |cs| :: Storable(cs[k])
    decreases cs, 0, |cs| - i
  {
    hide SaveInto, Decimal, Storable;
    if i == |cs| {
    } else {
      SaveSucceeds(cs[i]);
      var child := SaveInto(map[], cs[i]);
      if child.Some? {
        var next := dir[Decimal(i) := Dir(child.value)];
        forall k: nat | i + 1 <= k ensures Decimal(k) !in next {
          DistinctNames(k, i);
        }
        SaveChildrenSucceeds(next, cs, i + 1);
      }
    }
  }

  /** A directory whose numeric names are exactly 0 to n-1. */
  ghost predicate NumberedUpTo(dir: Entries, n: nat) {
    && (forall k: nat | k < n :: Decimal(k) in dir)
    && (forall name | name in dir && AllDigits(name) :: exists k: nat | k < n :: name == Decimal(k))
  }

  lemma CountNumbered(dir: Entries, n: nat)
    requires NumberedUpTo(dir, n) && 0 < n && Fits32(n)
    ensures ChildCount(dir) == n
  {
    hide Decimal, MaxOf;
    forall k: nat | k < n ensures AllDigits(Decimal(k)) && Index(Decimal(k)) == k {
      DecimalRoundTrip(k);
    }
    assert Decimal(n - 1) in dir.Keys;
    MaxIsUnique(dir.Keys, Index, n - 1);
  }

  /** Loading the numbered children gives the commands they hold, in numeric order. */
  lemma {:induction false} LoadNumbered(node: Node, cmds: seq<Command>, i: nat)
    requires node.Dir? && i <= |cmds|
    requires forall k: nat | i <= k < |cmds| ::
      Decimal(k) in node.entries && node.entries[Decimal(k)].Dir? && Load(node.entries[Decimal(k)]) == Some(cmds[k])
    ensures LoadChildren(node, i, |cmds|) == Some(cmds[i..])
    decreases |cmds| - i
  {
    hide Load, Decimal;
    if i == |cmds| {
    } else {
      LoadNumbered(node, cmds, i + 1);
      assert cmds[i..] == [cmds[i]] + cmds[i + 1..];
    }
  }

  lemma TypeReadsBack(ty: uint16)
    ensures DecodeUint16(BE(ty, 2)) == Got(ty, [])
  {
    Limits();
    UintRoundTrip(ty, 2, []);
    assert BE(ty, 2) + [] == BE(ty, 2);
  }

  lemma ArgvReadsBack(argv: seq<CString>)
    requires ValidArguments(argv)
    ensures DecodeArguments(EncodeArguments(argv)) == Got(argv, [])
  {
    ArgumentsRoundTrip(argv, []);
    assert EncodeArguments(argv) + [] == EncodeArguments(argv);
  }

  /** The shape of a freshly saved combination. */
  lemma FreshCombination(c: Command)
    requires c.ty != SI && SaveInto(map[], c).Some?
    ensures var saved := SaveInto(map[], c).value;
      && ReadType(saved) == Some(c.ty)
      && NumberedUpTo(saved, |c.cmds|)
      && forall k: nat | k < |c.cmds| ::
           saved[Decimal(k)].Dir? && SaveInto(map[], c.cmds[k]) == Some(saved[Decimal(k)].entries)
  {
    hide Decimal, BE, DecodeUint16, SubEntries, SaveChildren;
    var dir: Entries := map["type" := File(BE(c.ty, 2))];
    assert FileSlot(map[], "type");
    assert SaveInto(map[], c) == SaveChildren(dir, c.cmds, 0);
    SavedChildren(dir, c.cmds, 0);
    TypeReadsBack(c.ty);
    forall k: nat ensures Decimal(k) != "type" && SubEntries(dir, Decimal(k)) == map[] {
      NumeralsAreNotType(dir, k);
    }
    assert !AllDigits("type") by {
      assert !IsDigit("type"[0]);
    }
  }

  lemma NumeralsAreNotType(dir: Entries, k: nat)
    requires dir.Keys == {"type"}
    ensures Decimal(k) != "type" && SubEntries(dir, Decimal(k)) == map[]
  {
    DecimalRoundTrip(k);
    assert !IsDigit("type"[0]);
  }

  /**
   A tree saved into a fresh directory is loaded back unchanged exactly when it is well-formed:
   whatever the order of the directory, and among all the trees that can be saved at all.
   */
  lemma {:induction false} SaveLoadRoundTrip(c: Command)
    requires Storable(c) && Representable(c)
    ensures SaveInto(map[], c).Some?
    ensures Load(Dir(SaveInto(map[], c).value)) == Some(c) <==> WellFormed(OnDisk, c)
    decreases c
  {
    hide Decimal, BE, DecodeUint16, DecodeArguments, EncodeArguments, ChildCount, SaveChildren;
    SaveSucceeds(c);
    var saved := SaveInto(map[], c).value;
    if c.ty == SI {
      TypeReadsBack(SI);
      ArgvReadsBack(c.argv);
    } else {
      FreshCombination(c);
      if c.cmds == [] {
        NothingToLoad(saved);
      } else {
        CountNumbered(saved, |c.cmds|);
        forall k: nat | k < |c.cmds|
          ensures Load(saved[Decimal(k)]) == Some(c.cmds[k]) <==> WellFormed(OnDisk, c.cmds[k])
        {
          SaveLoadRoundTrip(c.cmds[k]);
        }
        SavedChildrenLoad(c, saved);
      }
    }
  }

  /** With no numbered entry the loader still looks for entry 0, and fails. */
  lemma NothingToLoad(dir: Entries)
    requires NumberedUpTo(dir, 0)
    ensures ChildCount(dir) == 1
    ensures LoadChildren(Dir(dir), 0, 1) == None
  {
    MaxIsUnique(dir.Keys, Index, 0);
    DecimalRoundTrip(0);
    assert Decimal(0) !in dir;
  }

  lemma SavedChildrenLoad(c: Command, saved: Entries)
    requires NumberedUpTo(saved, |c.cmds|)
    requires forall k: nat | k < |c.cmds| ::
      saved[Decimal(k)].Dir? && (Load(saved[Decimal(k)]) == Some(c.cmds[k]) <==> WellFormed(OnDisk, c.cmds[k]))
    ensures LoadChildren(Dir(saved), 0, |c.cmds|) == Some(c.cmds)
       <==> forall d | d in c.cmds :: WellFormed(OnDisk, d)
  {
    hide Decimal, Load, WellFormed, LoadChildren, NumberedUpTo;
    if forall d | d in c.cmds :: WellFormed(OnDisk, d) {
      assert forall k: nat | k < |c.cmds| :: Decimal(k) in saved by { NumberedNames(saved, |c.cmds|); }
      LoadNumbered(Dir(saved), c.cmds, 0);
      assert c.cmds[0..] == c.cmds;
    } else {
      var k: nat :| k < |c.cmds| && !WellFormed(OnDisk, c.cmds[k]);
      if LoadChildren(Dir(saved), 0, |c.cmds|).Some? {
        LoadedChild(Dir(saved), 0, |c.cmds|, k);
      }
    }
  }

  lemma NumberedNames(dir: Entries, n: nat)
    requires NumberedUpTo(dir, n)
    ensures forall k: nat | k < n :: Decimal(k) in dir
  {
  }

  lemma {:induction false} LoadedChild(node: Node, i: nat, count: nat, k: nat)
    requires node.Dir? && i <= k < count
    requires LoadChildren(node, i, count).Some?
    ensures Decimal(k) in node.entries && node.entries[Decimal(k)].Dir?
    ensures Load(node.entries[Decimal(k)]) == Some(LoadChildren(node, i, count).value[k - i])
    decreases count - i
  {
    hide Decimal, Load;
    if i == k {
    } else {
      LoadedChild(node, i + 1, count, k);
    }
  }

  /** Entries that are neither numeric nor read by name, like `nbcmds`, change nothing. */
  lemma {:induction false} OtherEntriesIgnored(dir: Entries, name: string, extra: Node)
    requires !AllDigits(name) && name != "type" && name != "argv"
    ensures Load(Dir(dir[name := extra])) == Load(Dir(dir))
  {
    hide Decimal, DecodeUint16, DecodeArguments, MaxOf, LoadChildren, DecimalValue;
    var more := dir[name := extra];
    assert ChildCount(more) == ChildCount(dir) by {
      assert more.Keys == dir.Keys + {name};
      MaxIsUnique(more.Keys, Index, MaxOf(dir.Keys, Index));
    }
    SameChildren(dir, name, extra, 0, ChildCount(dir));
  }

  lemma {:induction false} SameChildren(dir: Entries, name: string, extra: Node, i: nat, count: nat)
    requires !AllDigits(name) && i <= count
    ensures LoadChildren(Dir(dir[name := extra]), i, count) == LoadChildren(Dir(dir), i, count)
    decreases count - i
  {
    hide Decimal, Load;
    if i == count {
    } else {
      SameChildren(dir, name, extra, i + 1, count);
      DecimalRoundTrip(i);
    }
  }
}
