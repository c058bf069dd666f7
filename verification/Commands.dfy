/**
 Timings and command trees, and their two wire formats: the one of `src/serialization.c`, whose
 nodes carry a kind byte, and the one of LIST replies in `src/protocol.c`, which has none and lets
 the reader decide by the type.
 */
module Commands {
  import opened Bytes

  datatype Timing = Timing(minutes: uint64, hours: uint32, days: byte)

  /** `command_t`: a simple command has arguments, a combination has sub-commands. */
  datatype Command = Command(ty: uint16, argv: seq<CString>, cmds: seq<Command>)

  // The two-letter types, as `type_from_str` packs them.
  const SI: uint16 := 0x5349
  const SQ: uint16 := 0x5351
  const PL: uint16 := 0x504c
  const IF: uint16 := 0x4946

  const KIND_SIMPLE: byte := 0
  const KIND_SEQUENCE: byte := 1
  const MAX_LISTED_CHILDREN := 10000

  /** Kinded: `write_command`; Listed: `write_command_list_format`; OnDisk: the `cmd` directory. */
  datatype Format = Kinded | Listed | OnDisk

  predicate Fits32(n: nat) { n < 0x1_0000_0000 }

  /** What `write_arguments` and `create_simple_command` insist on. */
  predicate ValidArguments(argv: seq<CString>) {
    && 1 <= |argv| && Fits32(|argv|)
    && argv[0] != []
    && forall s | s in argv :: Fits32(|s|)
  }

  /** The trees the writer of a wire format accepts. The `argc` and `nb_cmds` of the C struct fit 32 bits. */
  predicate Writable(f: Format, c: Command)
  {
    && (f.Kinded? ==> c.argv == [] || c.cmds == [])
    && if c.argv != [] then ValidArguments(c.argv)
       else c.cmds != [] && Fits32(|c.cmds|) && forall d | d in c.cmds :: Writable(f, d)
  }

  /**
   Well-formed trees: every node is either simple, with usable arguments, or a combination of at
   least one sub-command. The formats without a kind byte also need the type SI to mark exactly the
   simple commands, and the LIST reader caps the number of children.
   */
  predicate WellFormed(f: Format, c: Command)
  {
    && (f.Kinded? || (c.ty == SI <==> c.argv != []))
    && if c.argv != [] then c.cmds == [] && ValidArguments(c.argv)
       else
         && c.cmds != [] && Fits32(|c.cmds|)
         && (f.Listed? ==> |c.cmds| <= MAX_LISTED_CHILDREN)
         && forall d | d in c.cmds :: WellFormed(f, d)
  }

  lemma {:induction false} WellFormedIsWritable(f: Format, c: Command)
    requires WellFormed(f, c)
    ensures Writable(f, c)
  {
    forall d | d in c.cmds ensures c.argv == [] ==> Writable(f, d) {
      if c.argv == [] {
        WellFormedIsWritable(f, d);
      }
    }
  }

  // ---------- encoding ----------

  function EncodeTiming(t: Timing): (bs: seq<byte>)
    ensures |bs| == 13
  {
    BE(t.minutes, 8) + BE(t.hours, 4) + [t.days]
  }

  function EncodeString(s: CString): seq<byte> {
    BE(|s|, 4) + s
  }

  function EncodeArguments(argv: seq<CString>): seq<byte> {
    BE(|argv|, 4) + EncodeMany(EncodeString, argv)
  }

  function EncodeKind(f: Format, c: Command): seq<byte> {
    if f.Kinded? then [if c.cmds != [] then KIND_SEQUENCE else KIND_SIMPLE] else []
  }

  function Encode(f: Format, c: Command): seq<byte>
    decreases c, 2
  {
    BE(c.ty, 2) + EncodeKind(f, c) + EncodeBody(f, c)
  }

  function EncodeBody(f: Format, c: Command): seq<byte>
    decreases c, 1
  {
    if c.argv != [] then EncodeArguments(c.argv) else BE(|c.cmds|, 4) + EncodeAll(f, c.cmds)
  }

  function EncodeAll(f: Format, cs: seq<Command>): seq<byte>
    decreases cs, 1
  {
    if cs == [] then [] else Encode(f, cs[0]) + EncodeAll(f, cs[1..])
  }

  // ---------- decoding ----------

  /** The C string held by a buffer: what precedes its first NUL. */
  function CStr(raw: seq<byte>): (s: CString)
    ensures s <= raw
    ensures s == raw || (|s| < |raw| && raw[|s|] == 0)
  {
    if raw == [] || raw[0] == 0 then [] else [raw[0]] + CStr(raw[1..])
  }

  function DecodeTiming(bs: seq<byte>): (r: Parse<Timing>)
    ensures r.Got? ==> |r.rest| < |bs|
  {
    var (minutes, bs1) :- DecodeUint64(bs);
    var (hours, bs2) :- DecodeUint32(bs1);
    var (days, bs3) :- DecodeUint8(bs2);
    Got(Timing(minutes, hours, days), bs3)
  }

  function DecodeString(bs: seq<byte>): (r: Parse<CString>)
    ensures r.Got? ==> |r.rest| < |bs| && Fits32(|r.value|)
  {
    var (n, bs1) :- DecodeUint32(bs);
    if |bs1| < n then Fail else Got(CStr(bs1[..n]), bs1[n..])
  }

  lemma {:induction false} DecodedStrings(n: nat, bs: seq<byte>)
    requires DecodeMany(DecodeString, n, bs).Got?
    ensures |DecodeMany(DecodeString, n, bs).rest| <= |bs|
    ensures forall s | s in DecodeMany(DecodeString, n, bs).value :: Fits32(|s|)
  {
    hide DecodeString;
    if n == 0 {
    } else {
      var (s, bs1) := DecodeString(bs).Extract();
      DecodedStrings(n - 1, bs1);
      assert DecodeMany(DecodeString, n, bs).value == [s] + DecodeMany(DecodeString, n - 1, bs1).value;
    }
  }

  function DecodeArguments(bs: seq<byte>): (r: Parse<seq<CString>>)
    ensures r.Got? ==> |r.rest| < |bs| && ValidArguments(r.value)
  {
    var (argc, bs1) :- DecodeUint32(bs);
    if argc < 1 then Fail else
    var (argv, bs2) :- DecodeMany(DecodeString, argc, bs1);
    DecodedStrings(argc, bs1);
    if argv[0] == [] then Fail else Got(argv, bs2)
  }

  /** Whether a simple command follows: `Some` of the answer of the kind byte or of the type. */
  function DecodeSimple(f: Format, ty: uint16, bs: seq<byte>): (r: Parse<bool>)
    ensures r.Got? ==> |r.rest| <= |bs|
  {
    if !f.Kinded? then Got(ty == SI, bs) else
    var (kind, bs1) :- DecodeUint8(bs);
    if kind == KIND_SIMPLE then Got(true, bs1)
    else if kind == KIND_SEQUENCE then Got(false, bs1)
    else Fail
  }

  function DecodeCount(f: Format, bs: seq<byte>): (r: Parse<uint32>)
    ensures r.Got? ==> |r.rest| < |bs| && r.value > 0
    ensures r.Got? && f.Listed? ==> r.value <= MAX_LISTED_CHILDREN
  {
    var (n, bs1) :- DecodeUint32(bs);
    if n == 0 || (f.Listed? && n > MAX_LISTED_CHILDREN) then Fail else Got(n, bs1)
  }

  /** `read_command` and `read_command_list_format`. The recursion ends because input is consumed. */
  function Decode(f: Format, bs: seq<byte>): (r: Parse<Command>)
    ensures r.Got? ==> |r.rest| < |bs|
    decreases |bs|, 0
  {
    var (ty, bs1) :- DecodeUint16(bs);
    var (simple, bs2) :- DecodeSimple(f, ty, bs1);
    if simple then
      var (argv, bs3) :- DecodeArguments(bs2);
      Got(Command(ty, argv, []), bs3)
    else
      var (n, bs3) :- DecodeCount(f, bs2);
      var (cmds, bs4) :- DecodeAll(f, n, bs3);
      Got(Command(ty, [], cmds), bs4)
  }

  function DecodeAll(f: Format, n: nat, bs: seq<byte>): (r: Parse<seq<Command>>)
    ensures r.Got? ==> |r.value| == n && |r.rest| <= |bs|
    decreases |bs|, n + 1
  {
    if n == 0 then Got([], bs) else
    var (c, bs1) :- Decode(f, bs);
    var (cs, bs2) :- DecodeAll(f, n - 1, bs1);
    Got([c] + cs, bs2)
  }

  // ---------- the documented byte layouts ----------

  /** The two worked examples of the documentation, byte for byte. */
  lemma DocumentedExamples()
    ensures EncodeString([0x48, 0x65, 0x6c, 0x6c, 0x6f]) == [0, 0, 0, 5, 0x48, 0x65, 0x6c, 0x6c, 0x6f]
    ensures EncodeTiming(Timing(1, 1, 1)) == [0, 0, 0, 0, 0, 0, 0, 1, 0, 0, 0, 1, 1]
  {
    assert BE(0, 2) == [0, 0];
    assert BE(0, 3) == [0, 0, 0];
    assert BE(0, 5) == [0, 0, 0, 0, 0];
    assert BE(0, 7) == [0, 0, 0, 0, 0, 0, 0];
    assert BE(5, 4) == [0, 0, 0, 5];
    assert BE(1, 4) == [0, 0, 0, 1];
    assert BE(1, 8) == [0, 0, 0, 0, 0, 0, 0, 1];
  }

  // ---------- reading back what was written ----------

  lemma CStrIdentity(s: CString)
    ensures CStr(s) == s
  {
  }

  lemma TimingRoundTrip(t: Timing, rest: seq<byte>)
    ensures DecodeTiming(EncodeTiming(t) + rest) == Got(t, rest)
  {
    Limits();
    var bs2 := BE(t.days, 1) + rest;
    var bs1 := BE(t.hours, 4) + bs2;
    SingleByte(t.days);
    assert EncodeTiming(t) + rest == BE(t.minutes, 8) + bs1;
    UintRoundTrip(t.minutes, 8, bs1);
    UintRoundTrip(t.hours, 4, bs2);
    UintRoundTrip(t.days, 1, rest);
  }

  lemma Uint32RoundTrip(n: uint32, rest: seq<byte>)
    ensures DecodeUint32(BE(n, 4) + rest) == Got(n, rest)
  {
    Limits();
    UintRoundTrip(n, 4, rest);
  }

  lemma StringRoundTrip(s: CString, rest: seq<byte>)
    requires Fits32(|s|)
    ensures DecodeString(EncodeString(s) + rest) == Got(s, rest)
  {
    assert EncodeString(s) + rest == BE(|s|, 4) + (s + rest);
    Uint32RoundTrip(|s|, s + rest);
    Split(s, rest);
    CStrIdentity(s);
  }

  lemma StringsRoundTrip(ss: seq<CString>, rest: seq<byte>)
    requires forall s | s in ss :: Fits32(|s|)
    ensures DecodeMany(DecodeString, |ss|, EncodeMany(EncodeString, ss) + rest) == Got(ss, rest)
  {
    hide EncodeString, DecodeString, EncodeMany, DecodeMany;
    forall s | s in ss ensures Undoes(DecodeString, EncodeString, s) {
      forall tail ensures DecodeString(EncodeString(s) + tail) == Got(s, tail) {
        StringRoundTrip(s, tail);
      }
    }
    ManyRoundTrip(DecodeString, EncodeString, ss, rest);
  }

  lemma ArgumentsRoundTrip(argv: seq<CString>, rest: seq<byte>)
    requires ValidArguments(argv)
    ensures DecodeArguments(EncodeArguments(argv) + rest) == Got(argv, rest)
  {
    Limits();
    var bs := EncodeMany(EncodeString, argv) + rest;
    assert EncodeArguments(argv) + rest == BE(|argv|, 4) + bs;
    UintRoundTrip(|argv|, 4, bs);
    StringsRoundTrip(argv, rest);
  }

  /** Reading an encoded tree returns it and stops exactly where the encoding stops. */
  lemma {:induction false} RoundTrip(f: Format, c: Command, rest: seq<byte>)
    requires WellFormed(f, c)
    ensures Decode(f, Encode(f, c) + rest) == Got(c, rest)
    decreases c, 0
  {
    hide Decode, DecodeAll, DecodeArguments, DecodeSimple, DecodeCount, DecodeUint16;
    hide EncodeKind, EncodeArguments, EncodeAll, BE;
    var bs2 := EncodeBody(f, c) + rest;
    var bs1 := EncodeKind(f, c) + bs2;
    assert Encode(f, c) + rest == BE(c.ty, 2) + bs1;
    HeaderRoundTrip(f, c, bs2);
    if c.argv != [] {
      ArgumentsRoundTrip(c.argv, rest);
    } else {
      ChildrenPrefix(f, c, rest);
      RoundTripAll(f, c.cmds, rest);
    }
    DecodeSteps(f, c, Encode(f, c) + rest, bs1, bs2, rest);
  }

  lemma ChildrenPrefix(f: Format, c: Command, rest: seq<byte>)
    requires WellFormed(f, c) && c.argv == []
    ensures DecodeCount(f, EncodeBody(f, c) + rest) == Got(|c.cmds|, EncodeAll(f, c.cmds) + rest)
  {
    hide BE, DecodeUint32, EncodeAll, EncodeArguments, ValidArguments;
    var children := EncodeAll(f, c.cmds) + rest;
    assert EncodeBody(f, c) + rest == BE(|c.cmds|, 4) + children;
    Uint32RoundTrip(|c.cmds|, children);
  }

  /** `Decode`, when the outcome of each of its steps is known. */
  lemma DecodeSteps(f: Format, c: Command, bs: seq<byte>, bs1: seq<byte>, bs2: seq<byte>, rest: seq<byte>)
    requires DecodeUint16(bs) == Got(c.ty, bs1)
    requires DecodeSimple(f, c.ty, bs1) == Got(c.argv != [], bs2)
    requires c.argv != [] ==> c.cmds == [] && DecodeArguments(bs2) == Got(c.argv, rest)
    requires c.argv == [] ==>
      DecodeCount(f, bs2).Got? && DecodeCount(f, bs2).value == |c.cmds| &&
      DecodeAll(f, |c.cmds|, DecodeCount(f, bs2).rest) == Got(c.cmds, rest)
    ensures Decode(f, bs) == Got(c, rest)
  {
  }

  lemma HeaderRoundTrip(f: Format, c: Command, rest: seq<byte>)
    requires WellFormed(f, c)
    ensures DecodeUint16(BE(c.ty, 2) + (EncodeKind(f, c) + rest)) == Got(c.ty, EncodeKind(f, c) + rest)
    ensures DecodeSimple(f, c.ty, EncodeKind(f, c) + rest) == Got(c.argv != [], rest)
  {
    Limits();
    UintRoundTrip(c.ty, 2, EncodeKind(f, c) + rest);
    KindRoundTrip(f, c, rest);
  }

  lemma KindRoundTrip(f: Format, c: Command, rest: seq<byte>)
    requires WellFormed(f, c)
    ensures DecodeSimple(f, c.ty, EncodeKind(f, c) + rest) == Got(c.argv != [], rest)
  {
    if f.Kinded? {
      var kind := if c.cmds != [] then KIND_SEQUENCE else KIND_SIMPLE;
      Limits();
      SingleByte(kind);
      UintRoundTrip(kind, 1, rest);
    } else {
      assert EncodeKind(f, c) + rest == rest;
    }
  }

  lemma {:induction false} RoundTripAll(f: Format, cs: seq<Command>, rest: seq<byte>)
    requires forall c | c in cs :: WellFormed(f, c)
    ensures DecodeAll(f, |cs|, EncodeAll(f, cs) + rest) == Got(cs, rest)
    decreases cs, 1
  {
    hide Decode, Encode, WellFormed, EncodeBody, BE, Value;
    if cs == [] {
      assert EncodeAll(f, cs) + rest == rest;
    } else {
      var bs := EncodeAll(f, cs[1..]) + rest;
      assert EncodeAll(f, cs) + rest == Encode(f, cs[0]) + bs;
      RoundTrip(f, cs[0], bs);
      RoundTripAll(f, cs[1..], rest);
      assert cs == [cs[0]] + cs[1..];
    }
  }

  /** Whatever bytes are read, an accepted tree is well-formed. */
  lemma {:induction false} DecodedIsWellFormed(f: Format, bs: seq<byte>)
    requires Decode(f, bs).Got?
    ensures WellFormed(f, Decode(f, bs).value)
    decreases |bs|, 0
  {
    var (ty, bs1) := DecodeUint16(bs).Extract();
    var (simple, bs2) := DecodeSimple(f, ty, bs1).Extract();
    if !simple {
      var (n, bs3) := DecodeCount(f, bs2).Extract();
      DecodedAllAreWellFormed(f, n, bs3);
    }
  }

  lemma {:induction false} DecodedAllAreWellFormed(f: Format, n: nat, bs: seq<byte>)
    requires DecodeAll(f, n, bs).Got?
    ensures forall c | c in DecodeAll(f, n, bs).value :: WellFormed(f, c)
    decreases |bs|, n + 1
  {
    hide Decode, WellFormed;
    if n == 0 {
    } else {
      DecodedIsWellFormed(f, bs);
      DecodedAllAreWellFormed(f, n - 1, Decode(f, bs).rest);
    }
  }

  /**
   The exact domain of both round trips, among everything the writers accept. In the LIST format a
   tree whose types disagree with its shape, or that is too wide, is written but not read back.
   */
  lemma RoundTripIff(f: Format, c: Command, rest: seq<byte>)
    requires Writable(f, c)
    ensures Decode(f, Encode(f, c) + rest) == Got(c, rest) <==> WellFormed(f, c)
  {
    if WellFormed(f, c) {
      RoundTrip(f, c, rest);
    } else if Decode(f, Encode(f, c) + rest) == Got(c, rest) {
      DecodedIsWellFormed(f, Encode(f, c) + rest);
    }
  }

  // ---------- independence of what follows ----------

  lemma TimingExtension(bs: seq<byte>, tail: seq<byte>)
    requires DecodeTiming(bs).Got?
    ensures DecodeTiming(bs + tail) == Extended(DecodeTiming(bs), tail)
  {
    var (minutes, bs1) := DecodeUint64(bs).Extract();
    var (hours, bs2) := DecodeUint32(bs1).Extract();
    UintExtension(8, bs, tail);
    UintExtension(4, bs1, tail);
    UintExtension(1, bs2, tail);
  }

  lemma StringExtension(bs: seq<byte>, tail: seq<byte>)
    requires DecodeString(bs).Got?
    ensures DecodeString(bs + tail) == Extended(DecodeString(bs), tail)
  {
    var (n, bs1) := DecodeUint32(bs).Extract();
    UintExtension(4, bs, tail);
    assert (bs1 + tail)[..n] == bs1[..n];
    assert (bs1 + tail)[n..] == bs1[n..] + tail;
  }

  lemma StringsExtension(n: nat, bs: seq<byte>, tail: seq<byte>)
    requires DecodeMany(DecodeString, n, bs).Got?
    ensures DecodeMany(DecodeString, n, bs + tail) == Extended(DecodeMany(DecodeString, n, bs), tail)
  {
    hide DecodeString, DecodeMany;
    forall b, t | DecodeString(b).Got? ensures DecodeString(b + t) == Extended(DecodeString(b), t) {
      StringExtension(b, t);
    }
    ManyExtension(DecodeString, n, bs, tail);
  }

  lemma ArgumentsExtension(bs: seq<byte>, tail: seq<byte>)
    requires DecodeArguments(bs).Got?
    ensures DecodeArguments(bs + tail) == Extended(DecodeArguments(bs), tail)
  {
    var (argc, bs1) := DecodeUint32(bs).Extract();
    UintExtension(4, bs, tail);
    StringsExtension(argc, bs1, tail);
  }

  /** A successful read does not depend on the bytes behind the tree, and leaves them all. */
  lemma {:induction false} Extension(f: Format, bs: seq<byte>, tail: seq<byte>)
    requires Decode(f, bs).Got?
    ensures Decode(f, bs + tail) == Extended(Decode(f, bs), tail)
    decreases |bs|, 0
  {
    hide DecodeAll, DecodeArguments, Value, BE;
    var (ty, bs1) := DecodeUint16(bs).Extract();
    UintExtension(2, bs, tail);
    var (simple, bs2) := DecodeSimple(f, ty, bs1).Extract();
    if f.Kinded? {
      UintExtension(1, bs1, tail);
    }
    assert DecodeSimple(f, ty, bs1 + tail) == Got(simple, bs2 + tail);
    if simple {
      ArgumentsExtension(bs2, tail);
    } else {
      var (n, bs3) := DecodeCount(f, bs2).Extract();
      UintExtension(4, bs2, tail);
      ExtensionAll(f, n, bs3, tail);
    }
  }

  lemma {:induction false} ExtensionAll(f: Format, n: nat, bs: seq<byte>, tail: seq<byte>)
    requires DecodeAll(f, n, bs).Got?
    ensures DecodeAll(f, n, bs + tail) == Extended(DecodeAll(f, n, bs), tail)
    decreases |bs|, n + 1
  {
    hide Decode;
    if n == 0 {
    } else {
      Extension(f, bs, tail);
      ExtensionAll(f, n - 1, Decode(f, bs).rest, tail);
    }
  }

  /** Cutting an encoding short anywhere makes it unreadable. */
  lemma TruncationRejected(f: Format, c: Command, k: nat)
    requires WellFormed(f, c)
    requires k < |Encode(f, c)|
    ensures Decode(f, Encode(f, c)[..k]).Fail?
  {
    hide Decode, Encode, WellFormed;
    var all := Encode(f, c);
    if Decode(f, all[..k]).Got? {
      Extension(f, all[..k], all[k..]);
      assert all[..k] + all[k..] == all + [];
      RoundTrip(f, c, []);
      assert false;
    }
  }
}
