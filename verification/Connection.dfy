/** The per-connection callback `MHDconnectionCB` as a state machine, and its runs under libmicrohttpd. */
module Connection {
  import opened Text

  newtype Byte = x: int | 0 <= x < 256
  type Response = nat

  datatype RequestState = INITIAL | INITIAL_COMPLETE | DATA_RECEIVING | DATA_RECEIVED | RS_ERROR

  /** A size_t. */
  const SIZE_LIMIT := 0x1_0000_0000_0000_0000
  type Size = n: int | 0 <= n < SIZE_LIMIT

  /** `DataProcessor::DataProcessorParseFailed`, the size_t with all bits set. */
  const PARSE_FAILED: Size := 0xFFFF_FFFF_FFFF_FFFF

  /** What the code outside answers during one call. */
  datatype Answers = Answers(
    methodKnown: bool,              // parseHttpMethod
    isGet: bool,
    check: Option<Response>,        // checkRequest
    routed: bool,                   // forward found a controller
    tsr: bool,
    connection: Option<Response>,   // the response onConnection set
    processor: bool,                // onConnection set a data processor
    error: Option<Response>,        // the error handler
    read: Size,                     // onData
    answer: Option<Response>)       // the response onRequest set

  /** The connection object; `live` says that it exists. */
  datatype Conn = Conn(live: bool, state: RequestState, isGet: bool, ctrl: bool, processor: bool,
    response: Option<Response>)

  /** The calls made to user code, and the passage into the error state. */
  datatype Event =
    | Connected
    | Data(chunk: seq<Byte>, used: nat)
    | Failed
    | Finished
    | Requested

  /** What the callback does with the connection: go on, queue a response, or try to queue a null one. */
  datatype Reply = Continue | Queue(response: Response) | Crash

  datatype CallResult = CallResult(conn: Conn, left: nat, reply: Reply, events: seq<Event>)

  function Send(r: Option<Response>): Reply {
    match r
    case Some(x) => Queue(x)
    case None => Crash
  }

  function NewConn(): Conn {
    Conn(false, INITIAL, false, false, false, None)
  }

  /** The first call for a request. */
  function FirstCall(c: Conn, size: nat, a: Answers): CallResult {
    if !a.methodKnown then CallResult(c, size, Send(a.error), [])
    else
      var co := Conn(true, INITIAL, a.isGet, false, false, a.check);
      if a.check.Some? then CallResult(co, size, Send(a.check), [])
      else if a.routed then
        var on := co.(ctrl := true, response := a.connection, processor := a.processor);
        if a.connection.Some? then CallResult(on, size, Send(a.connection), [Connected])
        else CallResult(on.(state := INITIAL_COMPLETE), size, Continue, [Connected])
      else
        // the trailing-slash redirect and the 404 answer both come from the error handler
        CallResult(co.(response := a.error), size, Send(a.error), [])
  }

  /** A call without data: the end signal for the processor, or the request itself. */
  function EndCall(c: Conn, a: Answers): CallResult {
    if c.state == DATA_RECEIVING then CallResult(c.(state := DATA_RECEIVED), 0, Continue, [Finished])
    else
      var on := if c.ctrl then c.(response := a.answer) else c;
      CallResult(on, 0, if on.response.Some? then Send(on.response) else Continue, if c.ctrl then [Requested] else [])
  }

  /** A call with data. A processor that claims to have read too much is believed only up to the chunk. */
  function DataCall(c: Conn, chunk: seq<Byte>, a: Answers): CallResult {
    if c.isGet || !c.processor then
      CallResult(c.(response := a.error, state := RS_ERROR), 0, Continue, [Failed])
    else
      var on := c.(state := if c.state == INITIAL_COMPLETE then DATA_RECEIVING else c.state);
      if a.read == PARSE_FAILED then
        CallResult(on.(response := a.error, state := RS_ERROR), 0, Continue, [Data(chunk, 0), Failed])
      else
        var used := if a.read > |chunk| then |chunk| else a.read;
        CallResult(on, |chunk| - used, Continue, [Data(chunk, used)])
  }

  /** A later call; no chunk stands for a null pointer and size 0. */
  function LaterCall(c: Conn, chunk: Option<seq<Byte>>, a: Answers): CallResult {
    if c.state == RS_ERROR then
      CallResult(c, 0, if |chunk.GetOr([])| != 0 then Continue else Send(c.response), [])
    else
      match chunk
      case None => EndCall(c, a)
      case Some(data) => DataCall(c, data, a)
  }

  function Step(c: Conn, chunk: Option<seq<Byte>>, a: Answers): CallResult {
    if !c.live then FirstCall(c, |chunk.GetOr([])|, a) else LaterCall(c, chunk, a)
  }

  // ---------------------------------------------------------------- the object

  class ConnectionObject {
    var live: bool
    var state: RequestState
    var isGet: bool
    var ctrl: bool
    var processor: bool
    var response: Option<Response>
    ghost var log: seq<Event>

    ghost function Value(): Conn
      reads this
    {
      Conn(live, state, isGet, ctrl, processor, response)
    }

    constructor ()
      ensures Value() == NewConn() && log == []
    {
      live, state, isGet, ctrl, processor, response, log := false, INITIAL, false, false, false, None, [];
    }

    /** `MHDconnectionCB`. `left` is `*dataSize` on return. */
    method Callback(chunk: Option<seq<Byte>>, a: Answers) returns (left: nat, reply: Reply)
      modifies this
      ensures old(log) <= log && CallResult(Value(), left, reply, log[|old(log)|..]) == Step(old(Value()), chunk, a)
    {
      left := |chunk.GetOr([])|;
      if !live {
        reply := FirstRound(left, a);
        return;
      }
      if state == RS_ERROR {
        if left != 0 {
          return 0, Continue;
        } else {
          return 0, Send(response);
        }
      }
      if chunk == None {
        reply := NoDataRemains(a);
        return 0, reply;
      }
      left := MoreData(chunk.value, a);
      return left, Continue;
    }

    method FirstRound(size: nat, a: Answers) returns (reply: Reply)
      modifies this
      ensures old(log) <= log && CallResult(Value(), size, reply, log[|old(log)|..]) == FirstCall(old(Value()), size, a)
    {
      if !a.methodKnown {
        return Send(a.error);
      }
      live, state, isGet, ctrl, processor := true, INITIAL, a.isGet, false, false;
      response := a.check;
      if response.Some? {
        return Send(response);
      }
      ctrl := a.routed;
      if ctrl {
        processor, response := a.processor, a.connection;
        log := log + [Connected];
        if response.Some? {
          return Send(response);
        }
        state := INITIAL_COMPLETE;
        return Continue;
      } else if a.tsr {
        response := a.error;  // sendTSR
        return Send(response);
      } else {
        response := a.error;  // 404
        return Send(response);
      }
    }

    method NoDataRemains(a: Answers) returns (reply: Reply)
      modifies this
      ensures old(log) <= log && CallResult(Value(), 0, reply, log[|old(log)|..]) == EndCall(old(Value()), a)
    {
      if state == DATA_RECEIVING {
        log := log + [Finished];
        state := DATA_RECEIVED;
        return Continue;
      }
      if ctrl {
        response := a.answer;
        log := log + [Requested];
      }
      if response.Some? {
        return Send(response);
      }
      return Continue;
    }

    method MoreData(data: seq<Byte>, a: Answers) returns (left: nat)
      modifies this
      ensures old(log) <= log && CallResult(Value(), left, Continue, log[|old(log)|..])
              == DataCall(old(Value()), data, a)
    {
      left := |data|;
      if isGet {
        response := a.error;
        state := RS_ERROR;
        log := log + [Failed];
        left := 0;
      } else if !processor {
        response := a.error;
        state := RS_ERROR;
        log := log + [Failed];
        left := 0;
      } else {
        if state == INITIAL_COMPLETE {
          state := DATA_RECEIVING;
        }
        var size: nat := a.read;
        if size == PARSE_FAILED {
          log := log + [Data(data, 0), Failed];
          response := a.error;
          state := RS_ERROR;
          size := left;
        } else {
          if size > left {
            size := left;
          }
          log := log + [Data(data, size)];
        }
        left := left - size;
      }
    }
  }

  // ---------------------------------------------------------------- runs

  /** A request being served: the body libmicrohttpd received, how much of it was consumed, the calls so far. */
  datatype World = World(conn: Conn, body: seq<Byte>, consumed: nat, log: seq<Event>, reply: Reply)

  function Begin(body: seq<Byte>): World {
    World(NewConn(), body, 0, [], Continue)
  }

  /** One call by libmicrohttpd: `avail` bytes of the body have arrived. */
  datatype Call = Call(avail: nat, a: Answers)

  /** The chunk presented: none first, then the unconsumed tail of what arrived, none again at the end. */
  function Chunk(w: World, call: Call): Option<seq<Byte>>
    requires w.consumed <= call.avail <= |w.body|
  {
    if !w.conn.live || w.consumed == |w.body| then None else Some(w.body[w.consumed..call.avail])
  }

  /** The calls libmicrohttpd may make: none after a response, never an empty chunk, and sizes below the sentinel. */
  predicate MayCall(w: World, call: Call) {
    && w.reply == Continue
    && w.consumed <= call.avail <= |w.body| < PARSE_FAILED
    && (w.conn.live && w.consumed < |w.body| ==> w.consumed < call.avail)
  }

  function After(w: World, call: Call): World
    requires MayCall(w, call)
  {
    var chunk := Chunk(w, call);
    var o := Step(w.conn, chunk, call.a);
    World(o.conn, w.body, if chunk.Some? && o.left <= call.avail then call.avail - o.left else w.consumed,
          w.log + o.events, o.reply)
  }

  predicate Allowed(w: World, calls: seq<Call>)
    decreases calls
  {
    calls == [] || (MayCall(w, calls[0]) && Allowed(After(w, calls[0]), calls[1..]))
  }

  function Run(w: World, calls: seq<Call>): World
    requires Allowed(w, calls)
    decreases calls
  {
    if calls == [] then w else Run(After(w, calls[0]), calls[1..])
  }

  // ---------------------------------------------------------------- what a log says

  /** The bytes the data processor kept, in the order it got them. */
  function KeptBytes(log: seq<Event>): seq<Byte> {
    if log == [] then []
    else
      var e := log[|log| - 1];
      KeptBytes(log[..|log| - 1]) + if e.Data? && e.used <= |e.chunk| then e.chunk[..e.used] else []
  }

  /** Every chunk continues the kept bytes along the body, and the end signals come only after the whole body. */
  predicate Faithful(log: seq<Event>, body: seq<Byte>) {
    log == [] || (Faithful(log[..|log| - 1], body) && Continues(log[..|log| - 1], log[|log| - 1], body))
  }

  predicate Continues(before: seq<Event>, e: Event, body: seq<Byte>) {
    match e
    case Data(chunk, used) => used <= |chunk| && chunk != [] && KeptBytes(before) + chunk <= body
    case Finished => KeptBytes(before) == body
    case Requested => KeptBytes(before) == body
    case _ => true
  }

  /** The order of user callbacks: onConnection, data*, finish?, onRequest*, with failure ending it. */
  datatype Phase = Start | Ready | Feeding | Ended | Asking | Broken

  function Advance(p: Option<Phase>, e: Event): Option<Phase> {
    match (p, e)
    case (Some(Start), Connected) => Some(Ready)
    case (Some(Ready), Data(_, _)) => Some(Feeding)
    case (Some(Feeding), Data(_, _)) => Some(Feeding)
    case (Some(Feeding), Finished) => Some(Ended)
    case (Some(Ready), Requested) => Some(Asking)
    case (Some(Ended), Requested) => Some(Asking)
    case (Some(Asking), Requested) => Some(Asking)
    case (Some(Ready), Failed) => Some(Broken)
    case (Some(Feeding), Failed) => Some(Broken)
    case _ => None
  }

  function PhaseOf(log: seq<Event>): Option<Phase> {
    if log == [] then Some(Start) else Advance(PhaseOf(log[..|log| - 1]), log[|log| - 1])
  }

  // ---------------------------------------------------------------- the invariant of all runs

  ghost predicate Inv(w: World) {
    var c := w.conn;
    && w.consumed <= |w.body|
    && Faithful(w.log, w.body)
    && (c.state != RS_ERROR ==> KeptBytes(w.log) == w.body[..w.consumed])
    && (!c.live ==> c == NewConn() && w.log == [])
    && (c.live && w.reply == Continue ==> c.state != INITIAL && c.ctrl)
    && (c.state == INITIAL ==> w.consumed == 0 && PhaseOf(w.log) in {Some(Start), Some(Ready)})
    && (c.state == INITIAL_COMPLETE ==>
          w.consumed == 0 && (PhaseOf(w.log) == Some(Ready) || (PhaseOf(w.log) == Some(Asking) && w.body == [])))
    && (c.state == DATA_RECEIVING ==> PhaseOf(w.log) == Some(Feeding) && c.processor && !c.isGet)
    && (c.state == DATA_RECEIVED ==> w.consumed == |w.body| && PhaseOf(w.log) in {Some(Ended), Some(Asking)})
    && (c.state == RS_ERROR ==> PhaseOf(w.log) == Some(Broken))
  }

  lemma LogStep(log: seq<Event>, e: Event)
    ensures PhaseOf(log + [e]) == Advance(PhaseOf(log), e)
    ensures KeptBytes(log + [e]) == KeptBytes(log) + if e.Data? && e.used <= |e.chunk| then e.chunk[..e.used] else []
    ensures forall body :: Faithful(log + [e], body) == (Faithful(log, body) && Continues(log, e, body))
  {
    assert (log + [e])[..|log|] == log;
  }

  /** What the events of one call add to the log. */
  lemma LogSteps(log: seq<Event>, es: seq<Event>)
    requires |es| <= 2
    ensures es == [] ==> log + es == log
    ensures |es| == 1 ==> log + es == log + [es[0]]
    ensures |es| == 2 ==> log + es == log + [es[0]] + [es[1]]
  {
  }

  lemma StartOfLog(body: seq<Byte>)
    ensures PhaseOf([]) == Some(Start) && KeptBytes([]) == [] && Faithful([], body)
  {
  }

  lemma FirstKeeps(w: World, a: Answers)
    requires Inv(w) && !w.conn.live
    ensures var o := FirstCall(w.conn, 0, a); Inv(World(o.conn, w.body, w.consumed, w.log + o.events, o.reply))
  {
    hide PhaseOf, KeptBytes, Faithful;
    var o := FirstCall(w.conn, 0, a);
    StartOfLog(w.body);
    LogSteps(w.log, o.events);
    LogStep(w.log, Connected);
  }

  lemma EndKeeps(w: World, a: Answers)
    requires Inv(w) && w.conn.live && w.conn.state != RS_ERROR && w.reply == Continue && w.consumed == |w.body|
    ensures var o := EndCall(w.conn, a); Inv(World(o.conn, w.body, w.consumed, w.log + o.events, o.reply))
  {
    hide PhaseOf, KeptBytes, Faithful;
    var o := EndCall(w.conn, a);
    assert w.body[..w.consumed] == w.body;
    LogSteps(w.log, o.events);
    LogStep(w.log, o.events[0]);
  }

  lemma DataKeeps(w: World, avail: nat, a: Answers)
    requires Inv(w) && w.conn.live && w.conn.state != RS_ERROR && w.reply == Continue
    requires w.consumed < avail <= |w.body|
    ensures var data := w.body[w.consumed..avail];
            var o := DataCall(w.conn, data, a);
            && o.left <= |data|
            && Inv(World(o.conn, w.body, avail - o.left, w.log + o.events, o.reply))
  {
    hide PhaseOf, KeptBytes, Faithful;
    var data := w.body[w.consumed..avail];
    var o := DataCall(w.conn, data, a);
    LogSteps(w.log, o.events);
    LogStep(w.log, o.events[0]);
    assert w.body[..w.consumed] + data == w.body[..avail];
    if o.events[0].Data? {
      var used := o.events[0].used;
      assert w.body[..w.consumed] + data[..used] == w.body[..w.consumed + used];
      if |o.events| == 2 {
        LogStep(w.log + [o.events[0]], o.events[1]);
      }
    }
  }

  /** One call keeps the invariant, and never leaves more than it was given. */
  lemma InvKept(w: World, call: Call)
    requires Inv(w) && MayCall(w, call)
    ensures Inv(After(w, call))
    ensures Step(w.conn, Chunk(w, call), call.a).left <= |Chunk(w, call).GetOr([])|
  {
    hide PhaseOf, KeptBytes, Faithful, DataCall;
    LogSteps(w.log, []);
    if !w.conn.live {
      FirstKeeps(w, call.a);
    } else if w.conn.state != RS_ERROR {
      if w.consumed == |w.body| {
        EndKeeps(w, call.a);
      } else {
        DataKeeps(w, call.avail, call.a);
      }
    }
  }

  lemma {:induction false} RunKeeps(w: World, calls: seq<Call>)
    requires Inv(w) && Allowed(w, calls)
    ensures Inv(Run(w, calls)) && Run(w, calls).body == w.body
    decreases calls
  {
    if calls != [] {
      InvKept(w, calls[0]);
      RunKeeps(After(w, calls[0]), calls[1..]);
    }
  }

  lemma BeginInv(body: seq<Byte>)
    ensures Inv(Begin(body))
  {
    assert body[..0] == [];
  }

  // ---------------------------------------------------------------- theorems about all runs

  /** Body conservation: chunks continue where the kept bytes end, the kept bytes are what was consumed until an
      error, and the end signal and the request see the whole body. */
  lemma BodyConservation(body: seq<Byte>, calls: seq<Call>)
    requires Allowed(Begin(body), calls)
    ensures var w := Run(Begin(body), calls);
            && Faithful(w.log, body) && w.consumed <= |body|
            && (w.conn.state != RS_ERROR ==> KeptBytes(w.log) == body[..w.consumed])
            && (forall i :: 0 <= i < |w.log| && w.log[i] in {Finished, Requested} ==> KeptBytes(w.log[..i]) == body)
  {
    BeginInv(body);
    RunKeeps(Begin(body), calls);
    var w := Run(Begin(body), calls);
    forall i | 0 <= i < |w.log| && w.log[i] in {Finished, Requested} ensures KeptBytes(w.log[..i]) == body {
      FaithfulPrefix(w.log, body, i);
    }
  }

  lemma {:induction false} FaithfulPrefix(log: seq<Event>, body: seq<Byte>, i: nat)
    requires Faithful(log, body) && i < |log|
    ensures Continues(log[..i], log[i], body)
    decreases log
  {
    if i < |log| - 1 {
      FaithfulPrefix(log[..|log| - 1], body, i);
      assert log[..|log| - 1][..i] == log[..i];
    }
  }

  /** Facts about an ordered log that hold between any two of its events. */
  predicate Ordered(log: seq<Event>) {
    && (forall i :: 0 <= i < |log| ==> (log[i].Connected? <==> i == 0))
    && (forall i, j :: 0 <= i < j < |log| ==>
          && !log[i].Failed?
          && (log[i].Finished? ==> log[j].Requested?)
          && (log[i].Requested? ==> log[j].Requested?))
    && (forall i, j :: 0 <= i < j < |log| && log[i].Data? && log[j].Requested? ==>
          exists k :: i < k < j && log[k].Finished?)
  }

  /** What the phase reached says about the log. */
  predicate Reaches(log: seq<Event>, p: Phase) {
    && (p == Start <==> log == [])
    && (p == Ready ==> |log| == 1 && log[0].Connected?)
    && (p == Feeding ==> forall i :: 1 <= i < |log| ==> log[i].Data?)
    && (p == Ended ==> log[|log| - 1].Finished? && forall i :: 1 <= i < |log| - 1 ==> log[i].Data?)
    && (p == Asking ==> log[|log| - 1].Requested?)
    && (p in {Ended, Asking} && (exists i :: 0 <= i < |log| && log[i].Data?)
        ==> exists k :: 0 <= k < |log| && log[k].Finished?)
    && (p != Broken ==> forall i :: 0 <= i < |log| ==> !log[i].Failed?)
    && (p in {Start, Ready, Feeding} ==> forall i :: 0 <= i < |log| ==> !log[i].Finished? && !log[i].Requested?)
  }

  lemma ReachesNext(log: seq<Event>, p: Phase, e: Event)
    requires Reaches(log, p) && Advance(Some(p), e).Some?
    ensures Reaches(log + [e], Advance(Some(p), e).value)
  {
    var more := log + [e];
    assert forall i :: 0 <= i < |log| ==> more[i] == log[i];
    assert more[|log|] == e;
    if p in {Ended, Asking} && exists i :: 0 <= i < |more| && more[i].Data? {
      var i :| 0 <= i < |more| && more[i].Data?;
      assert log[i].Data?;
      var k :| 0 <= k < |log| && log[k].Finished?;
      assert more[k].Finished?;
    }
  }

  lemma OrderedNext(log: seq<Event>, p: Phase, e: Event)
    requires Ordered(log) && Reaches(log, p) && Advance(Some(p), e).Some?
    ensures Ordered(log + [e])
  {
    var more := log + [e];
    assert forall i :: 0 <= i < |log| ==> more[i] == log[i];
    if e.Requested? {
      forall i | 0 <= i < |log| && more[i].Data? ensures exists k :: i < k < |log| && more[k].Finished? {
        assert log[i].Data?;
        var k :| 0 <= k < |log| && log[k].Finished?;
        assert i < k && more[k].Finished?;
      }
    }
  }

  /** Any log the phases accept is ordered. */
  lemma {:induction false} PhasesOrder(log: seq<Event>)
    requires PhaseOf(log).Some?
    ensures Ordered(log) && Reaches(log, PhaseOf(log).value)
    decreases log
  {
    if log != [] {
      var n := |log| - 1;
      assert log == log[..n] + [log[n]];
      PhasesOrder(log[..n]);
      hide Ordered, Reaches;
      ReachesNext(log[..n], PhaseOf(log[..n]).value, log[n]);
      OrderedNext(log[..n], PhaseOf(log[..n]).value, log[n]);
    }
  }

  /** Callback order over all runs. */
  lemma CallbackOrder(body: seq<Byte>, calls: seq<Call>)
    requires Allowed(Begin(body), calls)
    ensures Ordered(Run(Begin(body), calls).log)
  {
    BeginInv(body);
    RunKeeps(Begin(body), calls);
    PhasesOrder(Run(Begin(body), calls).log);
  }

  /** The error handler never returns null. */
  predicate Handled(calls: seq<Call>) {
    forall k :: 0 <= k < |calls| ==> calls[k].a.error.Some?
  }

  lemma {:induction false} HandledRuns(w: World, calls: seq<Call>)
    requires Inv(w) && Allowed(w, calls) && Handled(calls)
    requires w.reply != Crash && (w.conn.state == RS_ERROR ==> w.conn.response.Some?)
    ensures var v := Run(w, calls); v.reply != Crash && (v.conn.state == RS_ERROR ==> v.conn.response.Some?)
    decreases calls
  {
    if calls != [] {
      assert calls[0].a.error.Some?;
      InvKept(w, calls[0]);
      HandledRuns(After(w, calls[0]), calls[1..]);
    }
  }

  /** The error state is left by no call; it drains all data and then queues the response it holds. */
  lemma ErrorStep(w: World, call: Call)
    requires Inv(w) && MayCall(w, call) && w.conn.state == RS_ERROR
    ensures var v := After(w, call);
            && v.conn == w.conn && v.log == w.log
            && if w.consumed < |w.body| then v.consumed == call.avail > w.consumed && v.reply == Continue
               else v.consumed == w.consumed && v.reply == Send(w.conn.response)
  {
    LogSteps(w.log, []);
  }

  /** From an error on, at most one call a byte, and then exactly the held response is queued. */
  lemma {:induction false} ErrorRuns(w: World, calls: seq<Call>)
    requires Inv(w) && Allowed(w, calls) && w.conn.state == RS_ERROR && w.reply == Continue
    ensures var v := Run(w, calls);
            && v.conn == w.conn && v.log == w.log
            && |calls| <= |w.body| - w.consumed + 1
            && (v.reply == Send(w.conn.response) || (v.reply == Continue && v.consumed >= w.consumed + |calls|))
            && (|calls| == |w.body| - w.consumed + 1 ==> v.reply == Send(w.conn.response))
    decreases calls
  {
    if calls != [] {
      ErrorStep(w, calls[0]);
      InvKept(w, calls[0]);
      var v := After(w, calls[0]);
      if v.reply == Continue {
        ErrorRuns(v, calls[1..]);
      } else {
        assert calls[1..] == [];
      }
    }
  }

  /** The call that fails makes the response with the error handler, and logs the failure. */
  lemma {:induction false} ErrorEntry(w: World, call: Call)
    requires Inv(w) && MayCall(w, call) && w.conn.state != RS_ERROR && After(w, call).conn.state == RS_ERROR
    ensures var v := After(w, call);
            && v.reply == Continue && v.conn.response == call.a.error
            && v.log != [] && v.log[|v.log| - 1] == Failed
  {
    var o := Step(w.conn, Chunk(w, call), call.a);
    assert o.events != [] && o.events[|o.events| - 1] == Failed;
  }

  /** Libmicrohttpd has no call left to make. */
  ghost predicate Halted(w: World) {
    forall call :: !MayCall(w, call)
  }

  /** Every error of every run is answered: whatever pieces the rest of the body comes in, it is drained, and a run
      that goes on as long as it can queues exactly the response made by the call that failed. */
  lemma {:induction false} ErrorsAnswered(body: seq<Byte>, calls: seq<Call>, call: Call, more: seq<Call>)
    requires Allowed(Begin(body), calls)
    requires var w := Run(Begin(body), calls);
             && MayCall(w, call) && w.conn.state != RS_ERROR && After(w, call).conn.state == RS_ERROR
             && Allowed(After(w, call), more)
    ensures var w := After(Run(Begin(body), calls), call);
            var v := Run(w, more);
            && v.conn == w.conn && v.log == w.log && |more| <= |body| - w.consumed + 1
            && v.reply in {Continue, Send(call.a.error)}
            && (Halted(v) ==> v.reply == Send(call.a.error))
            && (Halted(v) && call.a.error.Some? ==> v.reply == Queue(call.a.error.value))
  {
    var before := Run(Begin(body), calls);
    var w := After(before, call);
    BeginInv(body);
    RunKeeps(Begin(body), calls);
    InvKept(before, call);
    ErrorEntry(before, call);
    ErrorRuns(w, more);
    RunKeeps(w, more);
    var v := Run(w, more);
    if v.reply == Continue {
      assert MayCall(v, Call(|body|, call.a));
    }
  }
}
