/** Fifo: messages through a named pipe. A frame is at most 528 bytes, so the pipe takes it
    in one piece; the reader takes header and body with two system calls. */
module Fifos {
  import opened Bytes
  import opened Codec
  import opened CodecMethods
  import opened Framing
  import opened Integers
  import opened Sendings
  import opened Transitions

  /** Where the reader is: outside `read`, between its two system calls, or past a failed
      assertion or a lost header. */
  datatype ReaderPc = Idle | Half(header: Header) | Broken

  /** The pipe and both ends, with the messages written and the outcomes of `read` other than
      NO_DATA_AVAILABLE. */
  datatype State = State(pipe: seq<byte>, pc: ReaderPc, lastId: u32, written: seq<Message>,
                         results: seq<Result<Message>>)

  /** A whole `write`, or one of the two system calls of `read`. */
  datatype Action = Write(o: Object, timestamp: i64, fails: bool) | ReadHeader | ReadBody

  /** What a non-blocking read of up to `want` bytes from a pipe with a writer gets: nothing for
      EAGAIN, otherwise what is there. */
  function Get(pipe: seq<byte>, want: nat): Result<seq<byte>>
  {
    if want > 0 && pipe == [] then Err(NoDataAvailable)
    else Ok(pipe[..if want < |pipe| then want else |pipe|])
  }

  predicate Enabled(s: State, a: Action)
  {
    match a
    case Write(_, _, _) => true
    case ReadHeader => s.pc.Idle?
    case ReadBody => s.pc.Half?
  }

  function Apply(s: State, a: Action): State
  {
    match a
    case Write(o, timestamp, fails) =>
      if !Fits(o) then s else
        var m := MakeMessage(Increment(s.lastId), o, timestamp);
        if fails then s.(lastId := m.header.id)
        else s.(lastId := m.header.id, pipe := s.pipe + Frame(m), written := s.written + [m])
    case ReadHeader =>
      (match Get(s.pipe, HEADER_SIZE)
       case Err(_) => s
       case Ok(got) =>
         if |got| != HEADER_SIZE then s.(pc := Broken)
         else s.(pc := Half(DecodeHeader(got)), pipe := s.pipe[HEADER_SIZE..]))
    case ReadBody =>
      if !s.pc.Half? then s else
      match Get(s.pipe, s.pc.header.bodySize)
      case Err(_) => s.(pc := Broken)
      case Ok(got) =>
        if |got| != s.pc.header.bodySize then s.(pc := Broken)
        else s.(pc := Idle, pipe := s.pipe[|got|..], results := s.results + [Interpret(s.pc.header, got)])
  }

  function Machine(): System<State, Action>
  {
    System((s, a) => Enabled(s, a), (s, a) => Apply(s, a))
  }

  const START := State([], Idle, 0, [], [])

  /** Between reads the pipe holds whole frames: those of the messages not yet read. Within a
      read it starts with the body that the header announced. */
  ghost predicate Contents(pipe: seq<byte>, pc: ReaderPc, unread: seq<Message>)
  {
    match pc
    case Idle => pipe == Sent(unread)
    case Half(h) =>
      && unread != [] && h == unread[0].header
      && pipe == EncodeBody(unread[0].body) + Sent(unread[1..])
    case Broken => false
  }

  ghost predicate AllWellFormed(messages: seq<Message>)
  {
    forall i :: 0 <= i < |messages| ==> WellFormed(messages[i])
  }

  /** The results so far are the messages written first. */
  ghost predicate InOrder(results: seq<Result<Message>>, written: seq<Message>)
  {
    |results| <= |written| && forall i :: 0 <= i < |results| ==> results[i] == Ok(written[i])
  }

  ghost predicate Inv(s: State)
  {
    && AllWellFormed(s.written)
    && InOrder(s.results, s.written)
    && Contents(s.pipe, s.pc, s.written[|s.results|..])
  }

  lemma SentFirst(messages: seq<Message>)
    requires messages != []
    ensures Sent(messages) == Frame(messages[0]) + Sent(messages[1..])
  {
    assert Raws(messages)[0] == Raw(messages[0]);
    assert Raws(messages)[1..] == Raws(messages[1..]);
  }

  /** More messages may arrive at any time. */
  lemma ContentsGrow(pipe: seq<byte>, pc: ReaderPc, unread: seq<Message>, more: seq<Message>)
    requires Contents(pipe, pc, unread)
    ensures Contents(pipe + Sent(more), pc, unread + more)
  {
    if pc.Idle? {
      SentAll(unread, more);
    } else {
      SentAll(unread[1..], more);
      assert (unread + more)[1..] == unread[1..] + more;
      Associate(EncodeBody(unread[0].body), Sent(unread[1..]), Sent(more));
    }
  }

  lemma Associate(a: seq<byte>, b: seq<byte>, c: seq<byte>)
    ensures (a + b) + c == a + (b + c)
  {
  }

  lemma WrittenGrows(results: seq<Result<Message>>, written: seq<Message>, more: seq<Message>)
    requires InOrder(results, written) && AllWellFormed(written) && AllWellFormed(more)
    ensures InOrder(results, written + more) && AllWellFormed(written + more)
    ensures (written + more)[|results|..] == written[|results|..] + more
  {
  }

  lemma ArrivalsKeep(s: State, more: seq<Message>)
    requires Inv(s) && AllWellFormed(more)
    ensures Inv(s.(pipe := s.pipe + Sent(more), written := s.written + more))
  {
    WrittenGrows(s.results, s.written, more);
    ContentsGrow(s.pipe, s.pc, s.written[|s.results|..], more);
  }

  lemma WriteKeeps(s: State, a: Action)
    requires Inv(s) && a.Write?
    ensures Inv(Apply(s, a))
  {
    if Fits(a.o) && !a.fails {
      var m := MakeMessage(Increment(s.lastId), a.o, a.timestamp);
      MadeMessagesAreWellFormed(m.header.id, a.o, a.timestamp);
      ArrivalsKeep(s.(lastId := m.header.id), [m]);
      SentOne(m);
    }
  }

  lemma ReadHeaderKeeps(s: State)
    requires Inv(s) && s.pc.Idle?
    ensures Inv(Apply(s, ReadHeader))
    ensures if s.pipe == [] then |s.results| == |s.written| && Apply(s, ReadHeader) == s
            else |s.results| < |s.written| && Apply(s, ReadHeader).pc.Half?
  {
    var n := |s.results|;
    if n < |s.written| {
      SentFirst(s.written[n..]);
      HeaderIsThere(s.pipe, s.written[n], Sent(s.written[n..][1..]));
    }
  }

  lemma HeaderIsThere(pipe: seq<byte>, m: Message, rest: seq<byte>)
    requires pipe == Frame(m) + rest
    ensures Get(pipe, HEADER_SIZE) == Ok(EncodeHeader(m.header))
    ensures DecodeHeader(EncodeHeader(m.header)) == m.header
    ensures pipe[HEADER_SIZE..] == EncodeBody(m.body) + rest
  {
    assert pipe[..HEADER_SIZE] == EncodeHeader(m.header);
    HeaderRoundTrip(m.header);
  }

  lemma ReadBodyKeeps(s: State)
    requires Inv(s) && s.pc.Half?
    ensures Inv(Apply(s, ReadBody)) && Apply(s, ReadBody).pc.Idle?
    ensures |s.results| < |s.written|
    ensures Apply(s, ReadBody).results == s.results + [Ok(s.written[|s.results|])]
  {
    var n := |s.results|;
    var m := s.written[n];
    assert s.written[n..][1..] == s.written[n + 1..];
    BodyIsThere(s.pipe, m, Sent(s.written[n + 1..]));
  }

  lemma BodyIsThere(pipe: seq<byte>, m: Message, rest: seq<byte>)
    requires WellFormed(m) && pipe == EncodeBody(m.body) + rest
    ensures Get(pipe, m.header.bodySize) == Ok(EncodeBody(m.body))
    ensures pipe[m.header.bodySize..] == rest
    ensures Interpret(m.header, EncodeBody(m.body)) == Ok(m)
  {
    var body := EncodeBody(m.body);
    assert pipe[..|body|] == body && pipe[|body|..] == rest;
    DecodesExactly(m.header.kind, body, m.body);
  }

  lemma InvAlways(acts: seq<Action>)
    requires CanRun(Machine(), START, acts)
    ensures Inv(After(Machine(), START, acts))
  {
    assert START.written[0..] == [];
    forall s, a | Inv(s) && Machine().enabled(s, a)
      ensures Inv(Machine().apply(s, a))
    {
      match a
      case Write(_, _, _) => WriteKeeps(s, a);
      case ReadHeader => ReadHeaderKeeps(s);
      case ReadBody => ReadBodyKeeps(s);
    }
    Always(Machine(), s => Inv(s), START, acts);
  }

  /** However the writes fall between the reader's system calls: both assertions hold, no header
      is ever lost to a missing body, `read` returns the messages written, in order, and reports
      no data only when all of them have been read. */
  lemma PipeDelivers(acts: seq<Action>)
    requires CanRun(Machine(), START, acts)
    ensures var s := After(Machine(), START, acts);
            && !s.pc.Broken?
            && InOrder(s.results, s.written)
            && (s.pc.Idle? ==> (s.pipe == [] <==> |s.results| == |s.written|))
            && (s.pc.Half? ==> Apply(s, ReadBody).pc.Idle? && |Apply(s, ReadBody).results| == |s.results| + 1)
  {
    InvAlways(acts);
    var s := After(Machine(), START, acts);
    if s.pc.Idle? {
      ReadHeaderKeeps(s);
    }
    if s.pc.Half? {
      ReadBodyKeeps(s);
    }
  }

  /** The reader has taken a header, and then the writer appends some messages. */
  ghost function Between(s: State, arrivals: seq<Message>): State
  {
    var h := Apply(s, ReadHeader);
    h.(pipe := h.pipe + Sent(arrivals), written := h.written + arrivals)
  }

  lemma ArrivalsBetween(s: State, arrivals: seq<Message>)
    requires Inv(s) && s.pc.Idle? && s.pipe != [] && AllWellFormed(arrivals)
    ensures var t, n := Between(s, arrivals), |s.results|;
            && Inv(t) && t.pc == Apply(s, ReadHeader).pc && t.pc.Half? && |t.results| == n < |s.written|
            && t.written[n] == s.written[n]
            && t.written[n + 1..] == s.written[n + 1..] + arrivals
  {
    ReadHeaderKeeps(s);
    ReadHeaderFrame(s);
    ArrivalsKeep(Apply(s, ReadHeader), arrivals);
    AfterFirst(s.written, arrivals, |s.results|);
  }

  lemma ReadHeaderFrame(s: State)
    ensures Apply(s, ReadHeader).written == s.written && Apply(s, ReadHeader).results == s.results
  {
  }

  lemma AfterFirst(a: seq<Message>, b: seq<Message>, n: nat)
    requires n < |a|
    ensures (a + b)[n] == a[n] && (a + b)[n + 1..] == a[n + 1..] + b
  {
  }

  // ---- Ids ---------------------------------------------------------------------

  /** The calls of `write` in a run. */
  function Calls(acts: seq<Action>): seq<Sending>
  {
    if acts == [] then [] else
      var front, a := Calls(acts[..|acts| - 1]), acts[|acts| - 1];
      if a.Write? then front + [Sending(a.o, a.timestamp, a.fails)] else front
  }

  ghost function FittingWrites(acts: seq<Action>): set<nat>
  {
    set k: nat | k < |acts| && acts[k].Write? && Fits(acts[k].o)
  }

  lemma FittingWritesNext(acts: seq<Action>, a: Action)
    ensures |FittingWrites(acts + [a])| == |FittingWrites(acts)| + if a.Write? && Fits(a.o) then 1 else 0
  {
    hide Fits;
    assert FittingWrites(acts + [a])
        == if a.Write? && Fits(a.o) then FittingWrites(acts) + {|acts|} else FittingWrites(acts);
  }

  lemma {:induction false} IdsAreFittingWrites(acts: seq<Action>)
    ensures IdsUsedBy(Calls(acts)) == |FittingWrites(acts)|
    decreases |acts|
  {
    if acts == [] {
      assert FittingWrites(acts) == {};
    } else {
      var front, a := acts[..|acts| - 1], acts[|acts| - 1];
      assert acts == front + [a];
      IdsAreFittingWrites(front);
      FittingWritesNext(front, a);
      if a.Write? {
        OneMoreCall(Calls(front), Sending(a.o, a.timestamp, a.fails));
      }
    }
  }

  /** The ids used in a run are as many as its writes that fit. */
  lemma IdsAreCounted(acts: seq<Action>)
    ensures IdsUsedBy(Calls(acts)) == |set k: nat | k < |acts| && acts[k].Write? && Fits(acts[k].o)|
  {
    IdsAreFittingWrites(acts);
  }

  /** One step keeps the written messages those of the calls. */
  lemma StepKeepsWritten(s: State, a: Action, calls: seq<Sending>)
    requires s.written == ArrivalsOf(calls) && s.lastId == Counter(IdsUsedBy(calls))
    ensures var t, calls' := Apply(s, a), if a.Write? then calls + [Sending(a.o, a.timestamp, a.fails)] else calls;
            t.written == ArrivalsOf(calls') && t.lastId == Counter(IdsUsedBy(calls'))
  {
    if a.Write? {
      OneMoreCall(calls, Sending(a.o, a.timestamp, a.fails));
      assert ArrivalsOf(calls) + [] == ArrivalsOf(calls);
    }
  }

  /** The messages written are those of the calls that fit and did not fail, numbered by the calls that
      fit. */
  lemma {:induction false} WrittenAreTheCalls(acts: seq<Action>)
    requires CanRun(Machine(), START, acts)
    ensures After(Machine(), START, acts).written == ArrivalsOf(Calls(acts))
    ensures After(Machine(), START, acts).lastId == Counter(IdsUsedBy(Calls(acts)))
    decreases |acts|
  {
    if acts != [] {
      var front, a := acts[..|acts| - 1], acts[|acts| - 1];
      assert acts == front + [a];
      Extend(Machine(), START, front, a);
      WrittenAreTheCalls(front);
      StepKeepsWritten(After(Machine(), START, front), a, Calls(front));
    }
  }

  /** Step k writes m. */
  ghost predicate IsWriteOf(m: Message, acts: seq<Action>, k: nat)
  {
    && k < |acts| && acts[k] == Write(m.body, m.header.timestamp, false)
    && m.header.id == Counter(IdsUsedBy(Calls(acts[..k + 1])))
  }

  predicate IsWritten(acts: seq<Action>, k: nat)
    requires k < |acts|
  {
    acts[k].Write? && Fits(acts[k].o) && !acts[k].fails
  }

  ghost predicate AreWrites(messages: seq<Message>, acts: seq<Action>, at: seq<nat>)
  {
    && |at| == |messages|
    && (forall i :: 0 <= i < |at| ==> IsWriteOf(messages[i], acts, at[i]))
    && (forall i, j :: 0 <= i < j < |at| ==> at[i] < at[j])
    && forall k :: 0 <= k < |acts| && IsWritten(acts, k) ==> k in at
  }

  lemma StillWrite(m: Message, acts: seq<Action>, k: nat, a: Action)
    ensures k < |acts| ==> (IsWritten(acts + [a], k) <==> IsWritten(acts, k))
    ensures IsWriteOf(m, acts, k) ==> k < |acts| && IsWriteOf(m, acts + [a], k)
  {
    if k < |acts| {
      assert (acts + [a])[..k + 1] == acts[..k + 1];
    }
  }

  lemma LastWrite(acts: seq<Action>, a: Action, m: Message)
    ensures IsWritten(acts + [a], |acts|) <==> a.Write? && Fits(a.o) && !a.fails
    ensures a == Write(m.body, m.header.timestamp, false) && m.header.id == Counter(IdsUsedBy(Calls(acts + [a]))) ==>
              IsWriteOf(m, acts + [a], |acts|)
  {
    hide Fits, Calls, IdsUsedBy, Counter;
    assert (acts + [a])[..|acts| + 1] == acts + [a];
  }

  lemma KeptWrites(messages: seq<Message>, acts: seq<Action>, at: seq<nat>, a: Action)
    requires AreWrites(messages, acts, at)
    ensures |at| == |messages| && forall i, j :: 0 <= i < j < |at| ==> at[i] < at[j]
    ensures forall i :: 0 <= i < |at| ==> at[i] < |acts| && IsWriteOf(messages[i], acts + [a], at[i])
    ensures forall k :: 0 <= k < |acts| && IsWritten(acts + [a], k) ==> k in at
  {
    hide IsWriteOf, IsWritten;
    forall i | 0 <= i < |at| ensures at[i] < |acts| && IsWriteOf(messages[i], acts + [a], at[i]) {
      StillWrite(messages[i], acts, at[i], a);
    }
    forall k | 0 <= k < |acts| && IsWritten(acts + [a], k) ensures k in at {
      StillWrite(MakeMessage(0, Ping, 0), acts, k, a);
    }
  }

  lemma AddWrite(messages: seq<Message>, next: seq<Action>, at: seq<nat>, n: nat, m: Message)
    requires |at| == |messages| && |next| == n + 1 && forall i, j :: 0 <= i < j < |at| ==> at[i] < at[j]
    requires forall i :: 0 <= i < |at| ==> at[i] < n && IsWriteOf(messages[i], next, at[i])
    requires forall k :: 0 <= k < n && IsWritten(next, k) ==> k in at
    ensures IsWriteOf(m, next, n) ==> AreWrites(messages + [m], next, at + [n])
    ensures !IsWritten(next, n) ==> AreWrites(messages, next, at)
  {
    hide IsWriteOf, IsWritten;
  }

  lemma OneMoreWrite(messages: seq<Message>, acts: seq<Action>, at: seq<nat>, a: Action, m: Message)
    requires AreWrites(messages, acts, at)
    requires a.Write? ==>
               m.body == a.o && m.header.timestamp == a.timestamp
               && m.header.id == Counter(IdsUsedBy(Calls(acts + [a])))
    ensures if a.Write? && Fits(a.o) && !a.fails then AreWrites(messages + [m], acts + [a], at + [|acts|])
            else AreWrites(messages, acts + [a], at)
  {
    hide *;
    LastWrite(acts, a, m);
    KeptWrites(messages, acts, at, a);
    AddWrite(messages, acts + [a], at, |acts|, m);
  }

  lemma StepWrites(s: State, a: Action, used: nat)
    requires Apply(s, a).lastId == Counter(used)
    ensures if a.Write? && Fits(a.o) && !a.fails
            then Apply(s, a).written == s.written + [MakeMessage(Counter(used), a.o, a.timestamp)]
            else Apply(s, a).written == s.written
  {
  }

  lemma NothingWritten()
    ensures AreWrites([], [], [])
  {
  }

  lemma {:induction false} WrittenAreWrites(acts: seq<Action>) returns (at: seq<nat>)
    requires CanRun(Machine(), START, acts)
    ensures AreWrites(After(Machine(), START, acts).written, acts, at)
    decreases |acts|
  {
    hide AreWrites, Fits, IdsUsedBy, Calls, Counter, Apply;
    if acts == [] {
      at := [];
      NothingWritten();
    } else {
      var front, a := acts[..|acts| - 1], acts[|acts| - 1];
      assert acts == front + [a];
      Extend(Machine(), START, front, a);
      at := WrittenAreWrites(front);
      WrittenAreTheCalls(acts);
      WrittenAreTheCalls(front);
      StepWrites(After(Machine(), START, front), a, IdsUsedBy(Calls(acts)));
      if a.Write? {
        OneMoreWrite(After(Machine(), START, front).written, front, at, a,
                     MakeMessage(Counter(IdsUsedBy(Calls(acts))), a.o, a.timestamp));
      } else {
        OneMoreWrite(After(Machine(), START, front).written, front, at, a, MakeMessage(0, Ping, 0));
      }
      if a.Write? && Fits(a.o) && !a.fails {
        at := at + [|front|];
      }
    }
  }

  /** In terms of the run itself: the i-th result is the object and the timestamp of the call of `write` at
      step at[i], which did not fail, with the number of ids used up to then. The calls are in the order
      of the results, and between reads, with the pipe empty, no successful one is missing. */
  lemma ReadsReturnTheWrites(acts: seq<Action>) returns (at: seq<nat>)
    requires CanRun(Machine(), START, acts)
    ensures var s := After(Machine(), START, acts);
            && |at| == |s.results|
            && (forall i :: 0 <= i < |at| ==>
                  && at[i] < |acts| && s.results[i].Ok?
                  && acts[at[i]] == Write(s.results[i].value.body, s.results[i].value.header.timestamp, false)
                  && s.results[i].value.header.id == Counter(IdsUsedBy(Calls(acts[..at[i] + 1]))))
            && (forall i, j :: 0 <= i < j < |at| ==> at[i] < at[j])
            && (s.pc.Idle? && s.pipe == [] ==>
                  forall k :: 0 <= k < |acts| && acts[k].Write? && Fits(acts[k].o) && !acts[k].fails ==> k in at)
  {
    var s := After(Machine(), START, acts);
    PipeDelivers(acts);
    var all := WrittenAreWrites(acts);
    at := WritesOfResults(s.results, s.written, acts, all);
  }

  lemma WritesOfResults(results: seq<Result<Message>>, written: seq<Message>, acts: seq<Action>, all: seq<nat>)
    returns (at: seq<nat>)
    requires InOrder(results, written) && AreWrites(written, acts, all)
    ensures |at| == |results|
    ensures forall i :: 0 <= i < |at| ==>
              && at[i] < |acts| && results[i].Ok?
              && acts[at[i]] == Write(results[i].value.body, results[i].value.header.timestamp, false)
              && results[i].value.header.id == Counter(IdsUsedBy(Calls(acts[..at[i] + 1])))
    ensures forall i, j :: 0 <= i < j < |at| ==> at[i] < at[j]
    ensures |results| == |written| ==>
              forall k :: 0 <= k < |acts| && acts[k].Write? && Fits(acts[k].o) && !acts[k].fails ==> k in at
  {
    hide Fits, IdsUsedBy, Calls, Counter;
    at := all[..|results|];
    assert |results| == |written| ==> at == all;
  }

  /** Below 2^32 writes, the ids that `read` returns strictly increase from at least 1, and those missing
      among the messages written are as many as the writes that failed. */
  lemma IdsIncrease(acts: seq<Action>)
    requires CanRun(Machine(), START, acts) && IdsUsedBy(Calls(acts)) < U32
    ensures var s, calls := After(Machine(), START, acts), Calls(acts);
            && |s.written| + LostIds(Fates(calls, |calls|), |calls|) == IdsUsedBy(calls)
            && IdsAscend(s.written, IdsUsedBy(calls))
            && InOrder(s.results, s.written)
  {
    var calls := Calls(acts);
    WrittenAreTheCalls(acts);
    InvAlways(acts);
    GapsAreFailedSends(calls, Fates(calls, |calls|), |calls|);
  }

  // ---- Failing system calls ------------------------------------------------------

  /** A failing system call of `read` other than EAGAIN. */
  datatype Fault = NoFault | HeaderFails | BodyFails

  /** How `read` ends: with a result, at an assertion, or with a byte to be stored behind buffer_. */
  datatype Outcome = Returned(result: Result<Message>) | Aborted | Overrun

  /** The second system call and what follows it, with p in the pipe. */
  function SecondCall(h: Header, p: seq<byte>, fault: Fault): (Outcome, seq<byte>)
  {
    var n := Min(h.bodySize, |p|);
    if fault.BodyFails? then (Returned(Err(ReadError)), p)
    else if h.bodySize > 0 && p == [] then (Returned(Err(NoDataAvailable)), p)
    else if n > BUFFER_SIZE then (Overrun, p[n..])
    else if n < h.bodySize then (Aborted, p[n..])
    else (Returned(Interpret(h, p[..n])), p[n..])
  }

  /** `read` with p in the pipe, whatever that is, and some more bytes arriving between its two system
      calls: its outcome, and what is left. */
  function ReadOnce(p: seq<byte>, arriving: seq<byte>, fault: Fault): (Outcome, seq<byte>)
  {
    if fault.HeaderFails? then (Returned(Err(ReadError)), p)
    else if p == [] then (Returned(Err(NoDataAvailable)), p)
    else if |p| < HEADER_SIZE then (Aborted, [])
    else SecondCall(DecodeHeader(p[..HEADER_SIZE]), p[HEADER_SIZE..] + arriving, fault)
  }

  lemma SecondCallEnds(h: Header, q: seq<byte>, m: Message)
    ensures SecondCall(h, q, NoFault).0 == Returned(Err(NoDataAvailable)) <==> h.bodySize > 0 && q == []
    ensures SecondCall(h, q, NoFault).0 == Overrun <==> h.bodySize > 528 && |q| > 528
    ensures SecondCall(h, q, NoFault).0 == Aborted <==> 0 < |q| < h.bodySize && |q| <= 528
    ensures SecondCall(h, q, NoFault).0 == Returned(Ok(m)) <==>
            && h.bodySize <= |q| && h.bodySize <= 528
            && m.header == h && h.kind == KindOf(m.body) && EncodeBody(m.body) <= q[..h.bodySize]
    ensures SecondCall(h, q, NoFault).1 == q[Min(h.bodySize, |q|)..]
  {
    if h.bodySize <= |q| {
      InterpretCarries(h, q[..h.bodySize], m, UnknownData);
      DecodingOutcomes(h.kind, q[..h.bodySize]);
    }
  }

  /** The ends of `read`, one by one. A system call that fails leaves the rest; less than a header fails an
      assertion; with a header h, and q behind it when the body is read, nothing there ends the call without
      data, more than 528 bytes leave the buffer, less than announced fails the other assertion, and a
      message is returned exactly if its encoding begins the body. */
  lemma ReadOnceEnds(p: seq<byte>, arriving: seq<byte>, fault: Fault, m: Message)
    ensures var (outcome, rest) := ReadOnce(p, arriving, fault);
            if fault == HeaderFails then outcome == Returned(Err(ReadError)) && rest == p
            else if p == [] then outcome == Returned(Err(NoDataAvailable)) && rest == []
            else if |p| < 16 then outcome == Aborted && rest == []
            else
              var h, q := DecodeHeader(p[..16]), p[16..] + arriving;
              if fault == BodyFails then outcome == Returned(Err(ReadError)) && rest == q
              else
                && rest == q[Min(h.bodySize, |q|)..]
                && (outcome == Returned(Err(NoDataAvailable)) <==> h.bodySize > 0 && q == [])
                && (outcome == Overrun <==> h.bodySize > 528 && |q| > 528)
                && (outcome == Aborted <==> 0 < |q| < h.bodySize && |q| <= 528)
                && (outcome == Returned(Ok(m)) <==>
                      && h.bodySize <= |q| && h.bodySize <= 528
                      && m.header == h && h.kind == KindOf(m.body) && EncodeBody(m.body) <= q[..h.bodySize])
  {
    if |p| >= HEADER_SIZE && fault == NoFault {
      SecondCallEnds(DecodeHeader(p[..HEADER_SIZE]), p[HEADER_SIZE..] + arriving, m);
    }
  }

  /** With whole frames in the pipe `read` returns the first message. A failing second call leaves its
      body behind, without a header. */
  lemma ReadInStep(m: Message, unread: seq<Message>, arrivals: seq<Message>)
    requires WellFormed(m)
    ensures ReadOnce(Sent([m] + unread), Sent(arrivals), NoFault) == (Returned(Ok(m)), Sent(unread + arrivals))
    ensures ReadOnce(Sent([m] + unread), Sent(arrivals), BodyFails)
         == (Returned(Err(ReadError)), EncodeBody(m.body) + Sent(unread + arrivals))
  {
    var p := Sent([m] + unread);
    SentAll([m], unread);
    SentOne(m);
    HeaderIsThere(p, m, Sent(unread));
    assert p[..HEADER_SIZE] == EncodeHeader(m.header);
    SentAll(unread, arrivals);
    Associate(EncodeBody(m.body), Sent(unread), Sent(arrivals));
    BodyIsThere(EncodeBody(m.body) + Sent(unread + arrivals), m, Sent(unread + arrivals));
  }

  /** In a reachable state `read` is its two steps, with the writes in between. */
  lemma ReadIsItsSteps(s: State, arrivals: seq<Message>)
    requires Inv(s) && s.pc.Idle? && AllWellFormed(arrivals)
    ensures s.pipe == [] ==> ReadOnce(s.pipe, Sent(arrivals), NoFault) == (Returned(Err(NoDataAvailable)), [])
    ensures s.pipe != [] ==>
              var u := Apply(Between(s, arrivals), ReadBody);
              && |u.results| == |s.results| + 1 <= |s.written| && u.results[|s.results|] == Ok(s.written[|s.results|])
              && ReadOnce(s.pipe, Sent(arrivals), NoFault) == (Returned(u.results[|s.results|]), u.pipe)
  {
    if s.pipe != [] {
      MessageIsRead(s, arrivals);
    }
  }

  lemma MessageIsRead(s: State, arrivals: seq<Message>)
    requires Inv(s) && s.pc.Idle? && s.pipe != [] && AllWellFormed(arrivals)
    ensures var u := Apply(Between(s, arrivals), ReadBody);
            && |u.results| == |s.results| + 1 <= |s.written| && u.results[|s.results|] == Ok(s.written[|s.results|])
            && ReadOnce(s.pipe, Sent(arrivals), NoFault) == (Returned(u.results[|s.results|]), u.pipe)
  {
    hide *;
    var n := |s.results|;
    ArrivalsBetween(s, arrivals);
    ReadBodyKeeps(Between(s, arrivals));
    AfterBody(Between(s, arrivals));
    WhatIsUnread(s);
    assert s.written[n..] == [s.written[n]] + s.written[n + 1..];
    ReadInStep(s.written[n], s.written[n + 1..], arrivals);
  }

  lemma WhatIsUnread(s: State)
    requires Inv(s) && s.pc.Idle?
    ensures |s.results| <= |s.written| && s.pipe == Sent(s.written[|s.results|..])
    ensures forall i :: 0 <= i < |s.written| ==> WellFormed(s.written[i])
  {
  }

  lemma AfterBody(s: State)
    requires Inv(s) && s.pc.Half?
    ensures |s.results| < |s.written| && Apply(s, ReadBody).pipe == Sent(s.written[|s.results| + 1..])
  {
    ReadBodyKeeps(s);
    assert s.written[|s.results|..][1..] == s.written[|s.results| + 1..];
  }

  /** Repeated calls of `read` on what is in the pipe return these messages and empty it. */
  predicate ReadsExactly(p: seq<byte>, messages: seq<Message>)
    decreases |messages|
  {
    if messages == [] then p == [] else
      var (outcome, rest) := ReadOnce(p, [], NoFault);
      outcome == Returned(Ok(messages[0])) && ReadsExactly(rest, messages[1..])
  }

  /** `read` returns a well-formed message only off its frame. */
  lemma ReadIsAFrame(p: seq<byte>, m: Message)
    requires WellFormed(m)
    ensures ReadOnce(p, [], NoFault).0 == Returned(Ok(m)) <==> Frame(m) <= p
    ensures Frame(m) <= p ==> ReadOnce(p, [], NoFault).1 == p[|Frame(m)|..]
  {
    if |p| >= HEADER_SIZE {
      var h, q := DecodeHeader(p[..HEADER_SIZE]), p[HEADER_SIZE..] + [];
      assert q == p[HEADER_SIZE..];
      HeaderBijection(m.header, p[..HEADER_SIZE]);
      BodyIsAFrame(m, h, q);
      FrameParts(p, m);
    }
  }

  lemma FrameParts(p: seq<byte>, m: Message)
    requires |p| >= HEADER_SIZE
    ensures Frame(m) <= p <==> p[..HEADER_SIZE] == EncodeHeader(m.header) && EncodeBody(m.body) <= p[HEADER_SIZE..]
    ensures Frame(m) <= p ==> p[|Frame(m)|..] == p[HEADER_SIZE..][BodySize(m.body)..]
  {
    if Frame(m) <= p {
      assert p[..HEADER_SIZE] == Frame(m)[..HEADER_SIZE] == EncodeHeader(m.header);
      assert p[HEADER_SIZE..][..BodySize(m.body)] == Frame(m)[HEADER_SIZE..] == EncodeBody(m.body);
    }
    if p[..HEADER_SIZE] == EncodeHeader(m.header) && EncodeBody(m.body) <= p[HEADER_SIZE..] {
      assert p == p[..HEADER_SIZE] + p[HEADER_SIZE..];
    }
  }

  lemma BodyIsAFrame(m: Message, h: Header, q: seq<byte>)
    requires WellFormed(m)
    ensures SecondCall(h, q, NoFault).0 == Returned(Ok(m)) <==> h == m.header && EncodeBody(m.body) <= q
    ensures h == m.header && EncodeBody(m.body) <= q ==> SecondCall(h, q, NoFault).1 == q[BodySize(m.body)..]
  {
    var n := Min(h.bodySize, |q|);
    DecodesExactly(h.kind, q[..n], m.body);
    if h == m.header && EncodeBody(m.body) <= q {
      assert EncodeBody(m.body) == q[..n];
    }
    if h == m.header && n == h.bodySize && EncodeBody(m.body) <= q[..n] {
      assert EncodeBody(m.body) == q[..n];
    }
  }

  /** Repeated reads return these messages exactly when the pipe holds their frames and nothing else. */
  lemma {:induction false} ReadsExactlyIff(p: seq<byte>, messages: seq<Message>)
    requires AllWellFormed(messages)
    ensures ReadsExactly(p, messages) <==> p == Sent(messages)
    decreases |messages|
  {
    if messages != [] {
      var m := messages[0];
      assert WellFormed(m);
      ReadIsAFrame(p, m);
      SentFirst(messages);
      assert forall i :: 0 <= i < |messages[1..]| ==> messages[1..][i] == messages[i + 1];
      if Frame(m) <= p {
        ReadsExactlyIff(p[|Frame(m)|..], messages[1..]);
        assert p == Frame(m) + p[|Frame(m)|..];
      }
    }
  }

  /** Bytes left in front of the unread frames cost nothing exactly when there are none: otherwise the
      reads to come do not return the unread messages. */
  lemma InStepIff(body: seq<byte>, unread: seq<Message>)
    requires AllWellFormed(unread)
    ensures ReadsExactly(body + Sent(unread), unread) <==> body == []
  {
    ReadsExactlyIff(body + Sent(unread), unread);
    assert |body + Sent(unread)| == |body| + |Sent(unread)|;
    assert body == [] ==> body + Sent(unread) == Sent(unread);
  }

  /** A failing second call costs the message under way and, unless its body is empty, those after it. */
  lemma FailedBodyCosts(m: Message, unread: seq<Message>, arrivals: seq<Message>)
    requires WellFormed(m) && AllWellFormed(unread + arrivals)
    ensures var (outcome, rest) := ReadOnce(Sent([m] + unread), Sent(arrivals), BodyFails);
            && outcome == Returned(Err(ReadError))
            && (ReadsExactly(rest, unread + arrivals) <==> BodySize(m.body) == 0)
  {
    ReadInStep(m, unread, arrivals);
    InStepIff(EncodeBody(m.body), unread + arrivals);
  }

  /** The frame of a ping with id 12, but for the first four bytes. */
  function PhantomTail(): seq<byte>
  {
    LittleEndian(PING, 2) + LittleEndian(0, 2) + LittleEndian(Unsigned(0), 8)
  }

  /** Such a body can be a frame itself: after a failed second call on this one, the next `read` returns a
      ping that nobody wrote. */
  lemma PhantomMessage(header: Header, unread: seq<Message>)
    requires WellFormed(Message(header, BinaryData(PhantomTail())))
    ensures var m, phantom := Message(header, BinaryData(PhantomTail())), Message(Header(12, PING, 0, 0), Ping);
            var rest := ReadOnce(Sent([m] + unread), [], BodyFails).1;
            ReadOnce(rest, [], NoFault) == (Returned(Ok(phantom)), Sent(unread))
  {
    var m, phantom := Message(header, BinaryData(PhantomTail())), Message(Header(12, PING, 0, 0), Ping);
    PhantomIsAFrame();
    ReadInStep(m, unread, []);
    ReadInStep(phantom, unread, []);
    assert unread + [] == unread && Sent([]) == [];
    SentAll([phantom], unread);
    SentOne(phantom);
  }

  lemma PhantomIsAFrame()
    ensures EncodeBody(BinaryData(PhantomTail())) == Frame(Message(Header(12, PING, 0, 0), Ping))
    ensures WellFormed(Message(Header(12, PING, 0, 0), Ping))
  {
    var a, b, c, d := LittleEndian(12, 4), LittleEndian(PING, 2), LittleEndian(0, 2), LittleEndian(Unsigned(0), 8);
    assert |PhantomTail()| == 12;
    assert a + (b + c + d) == a + b + c + d;
    assert a + b + c + d + [] == a + b + c + d;
  }

  // ---- The handler -----------------------------------------------------------

  class Pipe {
    var content: seq<byte>

    constructor ()
      ensures content == []
    {
      content := [];
    }
  }

  class Fifo {
    const pipe: Pipe
    const buffer: array<byte>
    var isOpen: bool
    var lastId: u32

    ghost predicate Valid()
      reads this
    {
      buffer.Length == BUFFER_SIZE
    }

    constructor (pipe: Pipe)
      ensures Valid() && isOpen && lastId == 0 && this.pipe == pipe && fresh(buffer)
    {
      this.pipe := pipe;
      buffer := new byte[BUFFER_SIZE](_ => 0);
      isOpen, lastId := true, 0;
    }

    /** Fifo::write. */
    method Write(o: Object, timestamp: i64, fails: bool, ghost s: State) returns (ok: bool)
      requires Valid() && pipe.content == s.pipe && lastId == s.lastId
      modifies this`lastId, pipe, buffer
      ensures Valid() && isOpen == old(isOpen)
      ensures ok <==> isOpen && Fits(o) && !fails
      ensures var t := if isOpen then Apply(s, Action.Write(o, timestamp, fails)) else s;
              pipe.content == t.pipe && lastId == t.lastId
    {
      if !isOpen {
        return false;
      }
      var size := BuildFrame(o, Increment(lastId), timestamp, buffer);
      if size == -1 {
        return false;
      }
      lastId := Increment(lastId);
      if fails {
        return false;
      }
      pipe.content := pipe.content + buffer[..HEADER_SIZE + size];
      ok := true;
    }

    /** A non-blocking read of up to `want` bytes into buffer_; -1 stands for EAGAIN. Bytes that do not fit
        are not stored by the model; the caller sees that they came. */
    method Take(want: nat) returns (n: int)
      requires Valid()
      modifies pipe, buffer
      ensures Valid()
      ensures n == -1 <==> want > 0 && old(pipe.content) == []
      ensures n == -1 ==> pipe.content == old(pipe.content)
      ensures n != -1 ==> n == Min(want, |old(pipe.content)|) && pipe.content == old(pipe.content)[n..]
      ensures 0 <= n <= BUFFER_SIZE ==> buffer[..n] == old(pipe.content)[..n]
    {
      if want > 0 && pipe.content == [] {
        return -1;
      }
      n := Min(want, |pipe.content|);
      if n <= BUFFER_SIZE {
        CopyIn(buffer, 0, pipe.content[..n]);
        assert buffer[..n] == buffer[..][0..0 + n];
      }
      pipe.content := pipe.content[n..];
    }

    /** Fifo::read, on whatever is in the pipe, while some more bytes arrive between its two system calls. */
    method Read(arriving: seq<byte>, fault: Fault) returns (outcome: Outcome)
      requires Valid()
      modifies pipe, buffer
      ensures Valid()
      ensures !isOpen ==> outcome == Returned(Err(ConnectionClosed)) && pipe.content == old(pipe.content)
      ensures isOpen ==> (outcome, pipe.content) == ReadOnce(old(pipe.content), arriving, fault)
    {
      if !isOpen {
        return Returned(Err(ConnectionClosed));
      }
      if fault.HeaderFails? {
        return Returned(Err(ReadError));
      }
      var n := Take(HEADER_SIZE);
      if n == -1 {
        return Returned(Err(NoDataAvailable));
      }
      if n != HEADER_SIZE {
        return Aborted;
      }
      assert buffer[0..0 + HEADER_SIZE] == buffer[..HEADER_SIZE];
      var optional := DeserializeHeader(buffer, 0, HEADER_SIZE);
      pipe.content := pipe.content + arriving;
      outcome := ReadBody(optional.value, fault);
    }

    /** `read` from the second system call on. */
    method ReadBody(header: Header, fault: Fault) returns (outcome: Outcome)
      requires Valid()
      modifies pipe, buffer
      ensures Valid() && (outcome, pipe.content) == SecondCall(header, old(pipe.content), fault)
    {
      if fault.BodyFails? {
        return Returned(Err(ReadError));
      }
      var n := Take(header.bodySize);
      if n == -1 {
        return Returned(Err(NoDataAvailable));
      }
      if n > BUFFER_SIZE {
        return Overrun;
      }
      if n != header.bodySize {
        return Aborted;
      }
      assert buffer[0..0 + n] == buffer[..n];
      var body := DeserializeBody(header.kind, buffer, 0, header.bodySize);
      outcome := Returned(match body case Ok(o) => Ok(Message(header, o)) case Err(e) => Err(e));
    }
  }
}
