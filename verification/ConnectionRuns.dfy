/** Which answer causes what, over all runs of a connection: every reply, every byte consumed, every failure.
    The lemmas are proved call by call, with automatic induction over runs switched off. */
module ConnectionRuns {
  import opened Text
  import opened Connection

  function Min(a: nat, b: nat): nat {
    if a <= b then a else b
  }

  /** The connection goes by the answers of the first call for as long as it lives. */
  lemma {:induction false} Remembers(w: World, calls: seq<Call>)
    requires Inv(w) && Allowed(w, calls) && w.conn.live
    ensures var v := Run(w, calls);
            v.conn.live && v.conn.isGet == w.conn.isGet && v.conn.processor == w.conn.processor
    decreases calls
  {
    if calls != [] {
      InvKept(w, calls[0]);
      Remembers(After(w, calls[0]), calls[1..]);
    }
  }

  /** A request that is still open after its first call was routed then, to a controller that did not answer it. */
  lemma {:induction false} OpenRequest(body: seq<Byte>, calls: seq<Call>)
    requires Allowed(Begin(body), calls) && calls != [] && Run(Begin(body), calls).reply == Continue
    ensures var (w, first) := (Run(Begin(body), calls), calls[0].a);
            && first.methodKnown && first.check == None && first.routed && first.connection == None
            && Inv(w) && w.body == body && w.conn.live && w.conn.ctrl && w.conn.state != INITIAL
            && w.conn.isGet == first.isGet && w.conn.processor == first.processor
  {
    var v := After(Begin(body), calls[0]);
    BeginInv(body);
    InvKept(Begin(body), calls[0]);
    RunKeeps(v, calls[1..]);
    if v.reply == Continue {
      Remembers(v, calls[1..]);
    }
  }

  // ---------------------------------------------------------------- replies

  /** The first call: who answers it, and whether onConnection runs. */
  lemma {:induction false} FirstReply(body: seq<Byte>, call: Call)
    requires MayCall(Begin(body), call)
    ensures var (v, a) := (After(Begin(body), call), call.a);
            && (!a.methodKnown ==> v.reply == Send(a.error) && v.log == [])
            && (a.methodKnown && a.check.Some? ==> v.reply == Queue(a.check.value) && v.log == [])
            && (a.methodKnown && a.check == None && !a.routed ==> v.reply == Send(a.error) && v.log == [])
            && (a.methodKnown && a.check == None && a.routed ==>
                  && v.log == [Connected]
                  && v.reply == if a.connection.Some? then Queue(a.connection.value) else Continue)
            && v.consumed == 0
  {
    var o := Step(NewConn(), Chunk(Begin(body), call), call.a);
    assert [] + o.events == o.events;
  }

  lemma {:induction false} LastEvent(log: seq<Event>)
    requires PhaseOf(log) in {Some(Ready), Some(Feeding), Some(Ended), Some(Asking)}
    ensures log != [] && (log[|log| - 1].Data? <==> PhaseOf(log) == Some(Feeding))
  {
  }

  /** A call after the whole body: the end of the data is signalled once, if there was data; else the request is
      handed over, and answered with what onRequest set. */
  lemma {:induction false} EndReply(body: seq<Byte>, calls: seq<Call>, call: Call)
    requires Allowed(Begin(body), calls) && calls != []
    requires var w := Run(Begin(body), calls);
             MayCall(w, call) && w.conn.state != RS_ERROR && w.consumed == |body|
    ensures var (w, a) := (Run(Begin(body), calls), call.a);
            var v := After(w, call);
            && v.conn.state != RS_ERROR && v.consumed == w.consumed && w.log != []
            && if w.log[|w.log| - 1].Data? then v.log == w.log + [Finished] && v.reply == Continue
               else
                 && v.log == w.log + [Requested]
                 && v.reply == if a.answer.Some? then Queue(a.answer.value) else Continue
  {
    OpenRequest(body, calls);
    var w := Run(Begin(body), calls);
    LastEvent(w.log);
  }

  // ---------------------------------------------------------------- data

  /** A refused piece of data: in a GET request, without a processor, or by the processor. */
  predicate Refused(first: Answers, a: Answers) {
    first.isGet || !first.processor || a.read == PARSE_FAILED
  }

  lemma {:induction false} DataStep(w: World, call: Call)
    requires w.consumed < |w.body| && MayCall(w, call) && w.conn.live && w.conn.state != RS_ERROR
    ensures w.consumed < call.avail <= |w.body|
    ensures var (v, chunk, a) := (After(w, call), w.body[w.consumed..call.avail], call.a);
            var refused := w.conn.isGet || !w.conn.processor || a.read == PARSE_FAILED;
            && v.reply == Continue
            && (v.conn.state == RS_ERROR <==> refused)
            && (refused ==>
                  && v.consumed == call.avail && v.conn.response == a.error
                  && v.log == w.log + if w.conn.isGet || !w.conn.processor then [Failed] else [Data(chunk, 0), Failed])
            && (!refused ==>
                  && v.consumed == w.consumed + Min(a.read, call.avail - w.consumed)
                  && v.log == w.log + [Data(chunk, Min(a.read, call.avail - w.consumed))])
  {
  }

  /** A call with data: it fails exactly when it is refused, and then drains the piece; otherwise it advances by
      what the processor read, up to the piece, and the processor saw the whole piece. */
  lemma {:induction false} DataReply(body: seq<Byte>, calls: seq<Call>, call: Call)
    requires Allowed(Begin(body), calls) && calls != []
    requires var w := Run(Begin(body), calls);
             MayCall(w, call) && w.conn.state != RS_ERROR && w.consumed < |body|
    ensures var (w, first, a) := (Run(Begin(body), calls), calls[0].a, call.a);
            && w.consumed < call.avail <= |body|
            && var (v, chunk) := (After(w, call), body[w.consumed..call.avail]);
            && v.reply == Continue
            && (v.conn.state == RS_ERROR <==> Refused(first, a))
            && (Refused(first, a) ==>
                  && v.consumed == call.avail && v.conn.response == a.error
                  && v.log == w.log + if first.isGet || !first.processor then [Failed] else [Data(chunk, 0), Failed])
            && (!Refused(first, a) ==>
                  && v.consumed == w.consumed + Min(a.read, call.avail - w.consumed)
                  && v.log == w.log + [Data(chunk, Min(a.read, call.avail - w.consumed))])
  {
    hide Inv, Allowed, Run, After;
    OpenRequest(body, calls);
    DataStep(Run(Begin(body), calls), call);
  }

  /** Outside the error state a reply is queued by the first call or by onRequest, and by nothing else. */
  lemma {:induction false} OnlyReplies(body: seq<Byte>, calls: seq<Call>, call: Call)
    requires Allowed(Begin(body), calls) && calls != []
    requires var w := Run(Begin(body), calls); MayCall(w, call) && w.conn.state != RS_ERROR
    ensures var w := Run(Begin(body), calls);
            var v := After(w, call);
            v.reply != Continue ==>
              v.log == w.log + [Requested] && call.a.answer.Some? && v.reply == Queue(call.a.answer.value)
  {
    var w := Run(Begin(body), calls);
    OpenRequest(body, calls);
    if w.consumed == |body| {
      EndReply(body, calls, call);
    } else {
      DataReply(body, calls, call);
    }
  }

  // ---------------------------------------------------------------- whole runs

  /** Whether a call hands data over that is not refused. */
  predicate Taken(w: World, call: Call)
    requires MayCall(w, call)
  {
    && w.conn.live && w.conn.state != RS_ERROR && w.consumed < |w.body|
    && !(w.conn.isGet || !w.conn.processor || call.a.read == PARSE_FAILED)
  }

  /** What the processor read of every piece it took, up to the piece, added up. */
  function Read(w: World, calls: seq<Call>): nat
    requires Allowed(w, calls)
    decreases calls
  {
    if calls == [] then 0
    else
      var here := if Taken(w, calls[0]) then Min(calls[0].a.read, calls[0].avail - w.consumed) else 0;
      here + Read(After(w, calls[0]), calls[1..])
  }

  lemma {:induction false} TakenKeeps(w: World, call: Call)
    requires Inv(w) && MayCall(w, call)
    ensures |KeptBytes(After(w, call).log)|
            == |KeptBytes(w.log)| + if Taken(w, call) then Min(call.a.read, call.avail - w.consumed) else 0
  {
    hide KeptBytes, Inv;
    var o := Step(w.conn, Chunk(w, call), call.a);
    assert |o.events| <= 2;
    LogSteps(w.log, o.events);
    if o.events != [] {
      LogStep(w.log, o.events[0]);
    }
    if |o.events| == 2 {
      LogStep(w.log + [o.events[0]], o.events[1]);
    }
  }

  lemma {:induction false} KeptIsRead(w: World, calls: seq<Call>)
    requires Inv(w) && Allowed(w, calls)
    ensures |KeptBytes(Run(w, calls).log)| == |KeptBytes(w.log)| + Read(w, calls)
    decreases calls
  {
    if calls != [] {
      TakenKeeps(w, calls[0]);
      InvKept(w, calls[0]);
      KeptIsRead(After(w, calls[0]), calls[1..]);
    }
  }

  /** Over a run exactly the bytes are kept that the processor said it read; outside the error state these are
      the bytes consumed. */
  lemma {:induction false} BytesRead(body: seq<Byte>, calls: seq<Call>)
    requires Allowed(Begin(body), calls)
    ensures var w := Run(Begin(body), calls);
            && |KeptBytes(w.log)| == Read(Begin(body), calls)
            && (w.conn.state != RS_ERROR ==> w.consumed == Read(Begin(body), calls))
  {
    BeginInv(body);
    StartOfLog(body);
    KeptIsRead(Begin(body), calls);
    RunKeeps(Begin(body), calls);
  }
}
