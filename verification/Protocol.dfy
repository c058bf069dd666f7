/** Requests and replies between `tadmor` and `erraid`, after `src/protocol.c`. */
module Protocol {
  import opened Bytes
  import opened Commands

  // Operation codes: two ASCII letters each.
  const LIST: uint16 := 0x4c53
  const CREATE: uint16 := 0x4352
  const COMBINE: uint16 := 0x4342
  const REMOVE: uint16 := 0x524d
  const TIMES_EXITCODES: uint16 := 0x5458
  const STDOUT: uint16 := 0x534f
  const STDERR: uint16 := 0x5345
  const TERMINATE: uint16 := 0x544d

  const ANSTYPE_OK: uint16 := 0x4f4b
  const ANSTYPE_ERROR: uint16 := 0x4552
  const NOT_FOUND: uint16 := 0x4e46
  const NOT_RUN: uint16 := 0x4e52

  const MAX_COMBINED := 10000
  const MAX_RUNS := 1000000
  const MAX_OUTPUT := 104857600
  const TASKS_BOUND := 10000

  // ---------- requests ----------

  datatype Request =
    | ListTasks
    | Terminate
    | Create(timing: Timing, argv: seq<CString>)
    | Combine(timing: Timing, ty: uint16, ids: seq<uint64>)
    | Remove(id: uint64)
    | Times(id: uint64)
    | Stdout(id: uint64)
    | Stderr(id: uint64)
  {
    function Opcode(): uint16 {
      match this
      case ListTasks => LIST
      case Terminate => TERMINATE
      case Create(_, _) => CREATE
      case Combine(_, _, _) => COMBINE
      case Remove(_) => REMOVE
      case Times(_) => TIMES_EXITCODES
      case Stdout(_) => STDOUT
      case Stderr(_) => STDERR
    }
  }

  /** What `send_request` writes completely. */
  predicate Sendable(r: Request) {
    match r
    case Create(_, argv) => ValidArguments(argv)
    case Combine(_, _, ids) => Fits32(|ids|)
    case _ => true
  }

  /** What `receive_request` also accepts: COMBINE needs between 1 and 10000 ids. */
  predicate Acceptable(r: Request) {
    && Sendable(r)
    && (r.Combine? ==> 1 <= |r.ids| <= MAX_COMBINED)
  }

  function EncodeId(id: uint64): seq<byte> { BE(id, 8) }

  function EncodePayload(r: Request): seq<byte> {
    match r
    case ListTasks => []
    case Terminate => []
    case Create(timing, argv) => EncodeTiming(timing) + EncodeArguments(argv)
    case Combine(timing, ty, ids) =>
      EncodeTiming(timing) + (BE(ty, 2) + (BE(|ids|, 4) + EncodeMany(EncodeId, ids)))
    case _ => EncodeId(r.id)
  }

  function EncodeRequest(r: Request): seq<byte> {
    BE(r.Opcode(), 2) + EncodePayload(r)
  }

  function DecodeCreate(bs: seq<byte>): Parse<Request> {
    var (timing, bs1) :- DecodeTiming(bs);
    var (argv, bs2) :- DecodeArguments(bs1);
    Got(Create(timing, argv), bs2)
  }

  function DecodeCombine(bs: seq<byte>): Parse<Request> {
    var (timing, bs1) :- DecodeTiming(bs);
    var (ty, bs2) :- DecodeUint16(bs1);
    var (n, bs3) :- DecodeUint32(bs2);
    if n == 0 || n > MAX_COMBINED then Fail else
    var (ids, bs4) :- DecodeMany(DecodeUint64, n, bs3);
    Got(Combine(timing, ty, ids), bs4)
  }

  function DecodeQuery(op: uint16, bs: seq<byte>): Parse<Request>
    requires op == TIMES_EXITCODES || op == STDOUT || op == STDERR || op == REMOVE
  {
    var (id, bs1) :- DecodeUint64(bs);
    Got(if op == TIMES_EXITCODES then Times(id) else if op == STDOUT then Stdout(id)
        else if op == STDERR then Stderr(id) else Remove(id), bs1)
  }

  function DecodePayload(op: uint16, bs: seq<byte>): Parse<Request> {
    if op == TIMES_EXITCODES || op == STDOUT || op == STDERR || op == REMOVE then DecodeQuery(op, bs)
    else if op == CREATE then DecodeCreate(bs)
    else if op == COMBINE then DecodeCombine(bs)
    else if op == LIST then Got(ListTasks, bs)
    else if op == TERMINATE then Got(Terminate, bs)
    else Fail
  }

  function DecodeRequest(bs: seq<byte>): Parse<Request> {
    var (op, bs1) :- DecodeUint16(bs);
    DecodePayload(op, bs1)
  }

  lemma Uint16RoundTrip(n: uint16, rest: seq<byte>)
    ensures DecodeUint16(BE(n, 2) + rest) == Got(n, rest)
  {
    Limits();
    UintRoundTrip(n, 2, rest);
  }

  lemma Uint64RoundTrip(n: uint64, rest: seq<byte>)
    ensures DecodeUint64(BE(n, 8) + rest) == Got(n, rest)
  {
    Limits();
    UintRoundTrip(n, 8, rest);
  }

  lemma IdsRoundTrip(ids: seq<uint64>, rest: seq<byte>)
    ensures DecodeMany(DecodeUint64, |ids|, EncodeMany(EncodeId, ids) + rest) == Got(ids, rest)
  {
    forall id | id in ids ensures Undoes(DecodeUint64, EncodeId, id) {
      forall tail ensures DecodeUint64(EncodeId(id) + tail) == Got(id, tail) {
        Uint64RoundTrip(id, tail);
      }
    }
    ManyRoundTrip(DecodeUint64, EncodeId, ids, rest);
  }

  lemma CreateRoundTrip(r: Request, rest: seq<byte>)
    requires r.Create? && Sendable(r)
    ensures DecodeCreate(EncodePayload(r) + rest) == Got(r, rest)
  {
    hide EncodeTiming, DecodeTiming, EncodeArguments, DecodeArguments, ValidArguments;
    var bs := EncodeArguments(r.argv) + rest;
    assert EncodePayload(r) + rest == EncodeTiming(r.timing) + bs;
    TimingRoundTrip(r.timing, bs);
    ArgumentsRoundTrip(r.argv, rest);
  }

  /** Both directions for COMBINE: the id list comes back exactly when its length is accepted. */
  lemma CombineRoundTrip(r: Request, rest: seq<byte>)
    requires r.Combine? && Sendable(r)
    ensures DecodeCombine(EncodePayload(r) + rest) == if Acceptable(r) then Got(r, rest) else Fail
  {
    hide EncodeTiming, DecodeTiming, EncodeMany, DecodeMany, DecodeUint16, DecodeUint32, BE;
    var bs3 := EncodeMany(EncodeId, r.ids) + rest;
    var bs2 := BE(|r.ids|, 4) + bs3;
    var bs1 := BE(r.ty, 2) + bs2;
    assert EncodePayload(r) + rest == EncodeTiming(r.timing) + bs1;
    TimingRoundTrip(r.timing, bs1);
    Uint16RoundTrip(r.ty, bs2);
    Uint32RoundTrip(|r.ids|, bs3);
    IdsRoundTrip(r.ids, rest);
  }

  /** Everything `send_request` writes is received as it was sent, or refused for its number of ids. */
  lemma RequestRoundTrip(r: Request, rest: seq<byte>)
    requires Sendable(r)
    ensures DecodeRequest(EncodeRequest(r) + rest) == if Acceptable(r) then Got(r, rest) else Fail
  {
    hide DecodeUint16, DecodeUint64, DecodeCreate, DecodeCombine, BE, Sendable;
    var bs := EncodePayload(r) + rest;
    assert EncodeRequest(r) + rest == BE(r.Opcode(), 2) + bs;
    Uint16RoundTrip(r.Opcode(), bs);
    match r
    case ListTasks => assert bs == rest;
    case Terminate => assert bs == rest;
    case Create(_, _) => CreateRoundTrip(r, rest);
    case Combine(_, _, _) => CombineRoundTrip(r, rest);
    case _ => Uint64RoundTrip(r.id, rest);
  }

  lemma IdsExtension(n: nat, bs: seq<byte>, tail: seq<byte>)
    requires DecodeMany(DecodeUint64, n, bs).Got?
    ensures DecodeMany(DecodeUint64, n, bs + tail) == Extended(DecodeMany(DecodeUint64, n, bs), tail)
  {
    forall b, t | DecodeUint64(b).Got? ensures DecodeUint64(b + t) == Extended(DecodeUint64(b), t) {
      UintExtension(8, b, t);
    }
    ManyExtension(DecodeUint64, n, bs, tail);
  }

  lemma CombineExtension(bs: seq<byte>, tail: seq<byte>)
    requires DecodeCombine(bs).Got?
    ensures DecodeCombine(bs + tail) == Extended(DecodeCombine(bs), tail)
  {
    hide DecodeTiming, DecodeMany;
    var (_, bs1) := DecodeTiming(bs).Extract();
    var (_, bs2) := DecodeUint16(bs1).Extract();
    var (n, bs3) := DecodeUint32(bs2).Extract();
    TimingExtension(bs, tail);
    UintExtension(2, bs1, tail);
    UintExtension(4, bs2, tail);
    IdsExtension(n, bs3, tail);
  }

  lemma RequestExtension(bs: seq<byte>, tail: seq<byte>)
    requires DecodeRequest(bs).Got?
    ensures DecodeRequest(bs + tail) == Extended(DecodeRequest(bs), tail)
  {
    hide DecodeCombine, DecodeTiming, DecodeArguments;
    var (op, bs1) := DecodeUint16(bs).Extract();
    UintExtension(2, bs, tail);
    if op == CREATE {
      TimingExtension(bs1, tail);
      ArgumentsExtension(DecodeTiming(bs1).rest, tail);
    } else if op == COMBINE {
      CombineExtension(bs1, tail);
    } else if op != LIST && op != TERMINATE {
      UintExtension(8, bs1, tail);
    }
  }

  /**
   Requests sent back to back are received one by one, in order and unchanged; if the writer stops
   in the middle of one more, the reader refuses it instead of taking it for some other request.
   */
  lemma QueueOfRequests(rs: seq<Request>, last: Request, k: nat)
    requires forall r | r in rs :: Acceptable(r)
    requires Acceptable(last) && k < |EncodeRequest(last)|
    ensures var pipe := EncodeMany(EncodeRequest, rs) + EncodeRequest(last)[..k];
      && DecodeMany(DecodeRequest, |rs|, pipe) == Got(rs, EncodeRequest(last)[..k])
      && DecodeRequest(EncodeRequest(last)[..k]).Fail?
  {
    hide EncodeRequest, DecodeRequest, Acceptable;
    forall r | Acceptable(r) ensures Undoes(DecodeRequest, EncodeRequest, r) {
      forall rest ensures DecodeRequest(EncodeRequest(r) + rest) == Got(r, rest) {
        assert Sendable(r) by { AcceptableIsSendable(r); }
        RequestRoundTrip(r, rest);
      }
    }
    assert Extends(DecodeRequest) by {
      forall bs, tail | DecodeRequest(bs).Got?
        ensures DecodeRequest(bs + tail) == Extended(DecodeRequest(bs), tail)
      {
        RequestExtension(bs, tail);
      }
    }
    ManyRoundTrip(DecodeRequest, EncodeRequest, rs, EncodeRequest(last)[..k]);
    TruncationFails(DecodeRequest, EncodeRequest, last, k);
  }

  lemma AcceptableIsSendable(r: Request)
    requires Acceptable(r)
    ensures Sendable(r)
  {
  }

  // ---------- replies ----------

  /** `task_t` and one entry of a task's history. */
  datatype Task = Task(id: uint64, timing: Timing, cmd: Command)
  datatype Run = Run(time: int64, exit: uint16)

  datatype Body =
    | Done
    | Created(id: uint64)
    | Listing(tasks: seq<Task>)
    | History(runs: seq<Run>)
    | Captured(output: seq<byte>)
    | Failure(code: uint16)

  /** `response_t`: `opcode` is its `opcode_used`. */
  datatype Response = Response(anstype: uint16, opcode: uint16, body: Body)

  predicate IsOpcode(op: uint16) {
    op in {LIST, CREATE, COMBINE, REMOVE, TIMES_EXITCODES, STDOUT, STDERR, TERMINATE}
  }

  /** The member of the C union that the answer type and the opcode select. */
  predicate Shaped(r: Response) {
    if r.anstype == ANSTYPE_ERROR then r.body.Failure?
    else
      && IsOpcode(r.opcode)
      && if r.opcode == LIST then r.body.Listing?
         else if r.opcode == TIMES_EXITCODES then r.body.History?
         else if r.opcode == STDOUT || r.opcode == STDERR then r.body.Captured?
         else if r.opcode == TERMINATE || r.opcode == REMOVE then r.body.Done?
         else r.body.Created?
  }

  /** What `send_response` can write: 32-bit counts and writable command trees. */
  predicate Postable(r: Response) {
    && Shaped(r)
    && match r.body
       case Listing(tasks) => Fits32(|tasks|) && forall t | t in tasks :: Writable(Listed, t.cmd)
       case History(runs) => Fits32(|runs|)
       case Captured(output) => Fits32(|output|)
       case _ => true
  }

  /** The limits `receive_response` adds. */
  predicate WithinLimits(r: Response) {
    match r.body
    case Listing(tasks) => |tasks| < TASKS_BOUND && forall t | t in tasks :: WellFormed(Listed, t.cmd)
    case History(runs) => |runs| <= MAX_RUNS
    case Captured(output) => |output| <= MAX_OUTPUT
    case _ => true
  }

  function EncodeTask(t: Task): seq<byte> {
    BE(t.id, 8) + (EncodeTiming(t.timing) + Encode(Listed, t.cmd))
  }

  function EncodeRun(r: Run): seq<byte> {
    BE(Unsigned(r.time), 8) + BE(r.exit, 2)
  }

  function EncodeResult(b: Body): seq<byte> {
    match b
    case Done => []
    case Created(id) => BE(id, 8)
    case Listing(tasks) => BE(|tasks|, 4) + EncodeMany(EncodeTask, tasks)
    case History(runs) => BE(|runs|, 4) + EncodeMany(EncodeRun, runs)
    case Captured(output) => BE(|output|, 4) + output
    case Failure(code) => BE(code, 2)
  }

  function EncodeResponse(r: Response): seq<byte> {
    BE(r.anstype, 2) + EncodeResult(r.body)
  }

  function DecodeTask(bs: seq<byte>): Parse<Task> {
    var (id, bs1) :- DecodeUint64(bs);
    var (timing, bs2) :- DecodeTiming(bs1);
    var (cmd, bs3) :- Decode(Listed, bs2);
    Got(Task(id, timing, cmd), bs3)
  }

  function DecodeRun(bs: seq<byte>): Parse<Run> {
    var (time, bs1) :- DecodeInt64(bs);
    var (exit, bs2) :- DecodeUint16(bs1);
    Got(Run(time, exit), bs2)
  }

  function DecodeListing(bs: seq<byte>): Parse<Body> {
    var (n, bs1) :- DecodeUint32(bs);
    if n >= TASKS_BOUND then Fail else
    var (tasks, bs2) :- DecodeMany(DecodeTask, n, bs1);
    Got(Listing(tasks), bs2)
  }

  function DecodeHistory(bs: seq<byte>): Parse<Body> {
    var (n, bs1) :- DecodeUint32(bs);
    if n > MAX_RUNS then Fail else
    var (runs, bs2) :- DecodeMany(DecodeRun, n, bs1);
    Got(History(runs), bs2)
  }

  function DecodeCaptured(bs: seq<byte>): Parse<Body> {
    var (n, bs1) :- DecodeUint32(bs);
    if n > MAX_OUTPUT || |bs1| < n then Fail else Got(Captured(bs1[..n]), bs1[n..])
  }

  function DecodeCreated(bs: seq<byte>): Parse<Body> {
    var (id, bs1) :- DecodeUint64(bs);
    Got(Created(id), bs1)
  }

  function DecodeFailure(bs: seq<byte>): Parse<Body> {
    var (code, bs1) :- DecodeUint16(bs);
    Got(Failure(code), bs1)
  }

  function DecodeResult(anstype: uint16, op: uint16, bs: seq<byte>): Parse<Body> {
    if anstype == ANSTYPE_ERROR then DecodeFailure(bs)
    else if op == TERMINATE || op == REMOVE then Got(Done, bs)
    else if op == CREATE || op == COMBINE then DecodeCreated(bs)
    else if op == LIST then DecodeListing(bs)
    else if op == TIMES_EXITCODES then DecodeHistory(bs)
    else if op == STDOUT || op == STDERR then DecodeCaptured(bs)
    else Fail
  }

  /** `receive_response`: the client tells it which operation it had asked for. */
  function DecodeResponse(op: uint16, bs: seq<byte>): Parse<Response> {
    var (anstype, bs1) :- DecodeUint16(bs);
    var (body, bs2) :- DecodeResult(anstype, op, bs1);
    Got(Response(anstype, op, body), bs2)
  }

  lemma TaskRoundTrip(t: Task, rest: seq<byte>)
    requires WellFormed(Listed, t.cmd)
    ensures DecodeTask(EncodeTask(t) + rest) == Got(t, rest)
  {
    hide WellFormed, Encode, Decode, EncodeTiming, DecodeTiming, DecodeUint64, BE;
    var bs2 := Encode(Listed, t.cmd) + rest;
    var bs1 := EncodeTiming(t.timing) + bs2;
    assert EncodeTask(t) + rest == BE(t.id, 8) + bs1;
    Uint64RoundTrip(t.id, bs1);
    TimingRoundTrip(t.timing, bs2);
    RoundTrip(Listed, t.cmd, rest);
  }

  /** Any task that is read has a well-formed tree, so an ill-formed one never comes back. */
  lemma {:induction false} ReadTasksAreWellFormed(n: nat, bs: seq<byte>)
    requires DecodeMany(DecodeTask, n, bs).Got?
    ensures forall t | t in DecodeMany(DecodeTask, n, bs).value :: WellFormed(Listed, t.cmd)
  {
    hide WellFormed, Decode, DecodeTiming, DecodeUint64;
    if n == 0 {
    } else {
      var (id, bs1) := DecodeUint64(bs).Extract();
      var (timing, bs2) := DecodeTiming(bs1).Extract();
      DecodedIsWellFormed(Listed, bs2);
      ReadTasksAreWellFormed(n - 1, DecodeTask(bs).rest);
    }
  }

  lemma ListingRoundTrip(tasks: seq<Task>, rest: seq<byte>)
    requires Fits32(|tasks|)
    ensures DecodeListing(EncodeResult(Listing(tasks)) + rest) == Got(Listing(tasks), rest)
       <==> |tasks| < TASKS_BOUND && forall t | t in tasks :: WellFormed(Listed, t.cmd)
  {
    hide WellFormed, EncodeTask, DecodeTask, DecodeMany, EncodeMany, DecodeUint32, BE;
    var bs := EncodeMany(EncodeTask, tasks) + rest;
    assert EncodeResult(Listing(tasks)) + rest == BE(|tasks|, 4) + bs;
    Uint32RoundTrip(|tasks|, bs);
    if forall t | t in tasks :: WellFormed(Listed, t.cmd) {
      forall t | t in tasks ensures Undoes(DecodeTask, EncodeTask, t) {
        forall tail ensures DecodeTask(EncodeTask(t) + tail) == Got(t, tail) {
          TaskRoundTrip(t, tail);
        }
      }
      ManyRoundTrip(DecodeTask, EncodeTask, tasks, rest);
    } else if DecodeMany(DecodeTask, |tasks|, bs) == Got(tasks, rest) {
      ReadTasksAreWellFormed(|tasks|, bs);
    }
  }

  lemma RunRoundTrip(r: Run, rest: seq<byte>)
    ensures DecodeRun(EncodeRun(r) + rest) == Got(r, rest)
  {
    hide BE, DecodeInt64, DecodeUint16;
    var bs := BE(r.exit, 2) + rest;
    assert EncodeRun(r) + rest == BE(Unsigned(r.time), 8) + bs;
    Int64RoundTrip(r.time, bs);
    Uint16RoundTrip(r.exit, rest);
  }

  lemma RunsRoundTrip(runs: seq<Run>, rest: seq<byte>)
    ensures DecodeMany(DecodeRun, |runs|, EncodeMany(EncodeRun, runs) + rest) == Got(runs, rest)
  {
    forall r | r in runs ensures Undoes(DecodeRun, EncodeRun, r) {
      forall tail ensures DecodeRun(EncodeRun(r) + tail) == Got(r, tail) {
        RunRoundTrip(r, tail);
      }
    }
    ManyRoundTrip(DecodeRun, EncodeRun, runs, rest);
  }

  lemma HistoryRoundTrip(runs: seq<Run>, rest: seq<byte>)
    requires Fits32(|runs|)
    ensures DecodeHistory(EncodeResult(History(runs)) + rest) == Got(History(runs), rest) <==> |runs| <= MAX_RUNS
  {
    hide EncodeRun, DecodeRun, DecodeMany, EncodeMany, DecodeUint32, BE;
    var bs := EncodeMany(EncodeRun, runs) + rest;
    assert EncodeResult(History(runs)) + rest == BE(|runs|, 4) + bs;
    Uint32RoundTrip(|runs|, bs);
    RunsRoundTrip(runs, rest);
  }

  lemma CapturedRoundTrip(output: seq<byte>, rest: seq<byte>)
    requires Fits32(|output|)
    ensures DecodeCaptured(EncodeResult(Captured(output)) + rest) == Got(Captured(output), rest)
       <==> |output| <= MAX_OUTPUT
  {
    hide BE, DecodeUint32;
    var bs := output + rest;
    assert EncodeResult(Captured(output)) + rest == BE(|output|, 4) + bs;
    Uint32RoundTrip(|output|, bs);
    Split(output, rest);
  }

  /**
   A reply is received as it was sent exactly when it respects the client's limits. The limits are
   the client's alone: the daemon sends longer listings, histories and outputs without complaint.
   */
  lemma ResponseRoundTrip(r: Response, rest: seq<byte>)
    requires Postable(r)
    ensures DecodeResponse(r.opcode, EncodeResponse(r) + rest) == Got(r, rest) <==> WithinLimits(r)
  {
    hide BE, DecodeUint16, DecodeUint64, DecodeListing, DecodeHistory, DecodeCaptured;
    hide EncodeMany, WellFormed, Writable, EncodeTask, EncodeRun;
    var bs := EncodeResult(r.body) + rest;
    assert EncodeResponse(r) + rest == BE(r.anstype, 2) + bs;
    Uint16RoundTrip(r.anstype, bs);
    match r.body
    case Done => assert bs == rest;
    case Created(id) => Uint64RoundTrip(id, rest);
    case Listing(tasks) => ListingRoundTrip(tasks, rest);
    case History(runs) => HistoryRoundTrip(runs, rest);
    case Captured(output) => CapturedRoundTrip(output, rest);
    case Failure(code) => Uint16RoundTrip(code, rest);
  }

  /** An ERROR reply is understood whatever operation the client is waiting for. */
  lemma ErrorRoundTrip(op: uint16, sent: uint16, code: uint16, rest: seq<byte>)
    ensures DecodeResponse(op, EncodeResponse(Response(ANSTYPE_ERROR, sent, Failure(code))) + rest)
         == Got(Response(ANSTYPE_ERROR, op, Failure(code)), rest)
  {
    hide BE, DecodeUint16;
    var bs := BE(code, 2) + rest;
    assert EncodeResponse(Response(ANSTYPE_ERROR, sent, Failure(code))) + rest == BE(ANSTYPE_ERROR, 2) + bs;
    Uint16RoundTrip(ANSTYPE_ERROR, bs);
    Uint16RoundTrip(code, rest);
  }
}
