/** Two handlers on one ring, taking turns: the whole refines a bounded queue. */
module Exchange {
  import opened Options
  import opened Bytes
  import opened Codec
  import opened Transitions
  import opened Ring
  import opened RingInvariant
  import opened RingTheorems
  import opened RingCalls
  import opened RingHandlers

  /** A call of the writer, the writer's turn while such a call waits, or a call of the reader; with
      what the system calls in it meet. */
  datatype Operation =
    | Put(o: Object, timestamp: i64, wf: WriteFault)
    | Resume(wf: WriteFault)
    | Take(rf: ReadFault)

  /** The simple form: a queue of messages, the last id given out, the message of a write that waits,
      and what reads and writes returned. */
  datatype Simple = Simple(queue: seq<Message>, lastId: u32, pending: Option<Message>,
                           results: seq<Result<Message>>, verdicts: seq<bool>)

  /** The pending message goes into the queue, is given up, or still has to wait. */
  function Attempt(q: Simple, fault: WriteFault): Simple
    requires q.pending.Some?
  {
    if !fault.SeekFails? && !fault.WaitFails? && |q.queue| == SLOTS then q
    else if fault.NoWriteFault? then
      q.(queue := q.queue + [q.pending.value], pending := None, verdicts := q.verdicts + [true])
    else q.(pending := None, verdicts := q.verdicts + [false])
  }

  /** A process that waits in one call does not make another, and seeks only before it waits. */
  predicate Possible(q: Simple, op: Operation)
  {
    match op
    case Put(_, _, _) => q.pending.None?
    case Resume(fault) => q.pending.Some? && !fault.SeekFails?
    case Take(_) => true
  }

  function Perform(q: Simple, op: Operation): Simple
  {
    if !Possible(q, op) then q else
    match op
    case Put(o, timestamp, fault) =>
      if Fits(o) then Attempt(Begin(q, o, timestamp), fault) else q.(verdicts := q.verdicts + [false])
    case Resume(fault) => Attempt(q, fault)
    case Take(fault) =>
      if fault.TryWaitFails? then q.(results := q.results + [Err(ReadError)])
      else if q.queue == [] then q.(results := q.results + [Err(NoDataAvailable)])
      else if fault.GetFails? then q.(results := q.results + [Err(ReadError)])
      else q.(queue := q.queue[1..], results := q.results + [Ok(q.queue[0])])
  }

  function Begin(q: Simple, o: Object, timestamp: i64): Simple
  {
    var id := Increment(q.lastId);
    q.(lastId := id, pending := Some(MakeMessage(id, o, timestamp)))
  }

  function PerformAll(ops: seq<Operation>, n: nat): Simple
    requires n <= |ops|
  {
    if n == 0 then Simple([], 0, None, [], []) else Perform(PerformAll(ops, n - 1), ops[n - 1])
  }

  // ---- What the queue does --------------------------------------------------------------

  /** The operation is a call of `write` with the object and the timestamp that m carries. */
  predicate Carries(m: Message, op: Operation)
  {
    op.Put? && m.body == op.o && m.header.timestamp == op.timestamp
  }

  /** The writer's side: the calls made, one for each verdict and the one that waits; the verdicts that are
      true; and the messages of these. */
  ghost predicate Written(verdicts: seq<bool>, pending: Option<Message>, ops: seq<Operation>, n: nat,
                          calls: seq<nat>, good: seq<nat>, sent: seq<Message>)
    requires n <= |ops|
  {
    && |calls| == |verdicts| + (if pending.Some? then 1 else 0) && Ordered(calls, n)
    && (forall c :: 0 <= c < |calls| ==> ops[calls[c]].Put?)
    && Ordered(good, |verdicts|) && (forall v :: 0 <= v < |verdicts| ==> (v in good <==> verdicts[v]))
    && |good| == |sent| && (forall j :: 0 <= j < |sent| ==> Carries(sent[j], ops[calls[good[j]]]))
    && (pending.Some? ==> Carries(pending.value, ops[calls[|verdicts|]]))
  }

  /** The reader's side: the first of these messages are the results that are no errors, the others queue. */
  ghost predicate Read(results: seq<Result<Message>>, queue: seq<Message>, got: seq<nat>, sent: seq<Message>)
  {
    && Ordered(got, |results|) && (forall i :: 0 <= i < |results| ==> (i in got <==> results[i].Ok?))
    && |got| <= |sent| && (forall j :: 0 <= j < |got| ==> results[got[j]] == Ok(sent[j]))
    && queue == sent[|got|..]
  }

  lemma CallsBegin(verdicts: seq<bool>, ops: seq<Operation>, n: nat, calls: seq<nat>, good: seq<nat>,
                   sent: seq<Message>, m: Message)
    requires n < |ops| && ops[n].Put? && Written(verdicts, None, ops, n, calls, good, sent)
    ensures Carries(m, ops[n]) ==> Written(verdicts, Some(m), ops, n + 1, calls + [n], good, sent)
    ensures Written(verdicts + [false], None, ops, n + 1, calls + [n], good, sent)
  {
    hide Carries;
    forall j | 0 <= j < |sent| ensures (calls + [n])[good[j]] == calls[good[j]] {
    }
  }

  lemma CallsEnd(verdicts: seq<bool>, m: Message, ops: seq<Operation>, n: nat, calls: seq<nat>, good: seq<nat>,
                 sent: seq<Message>)
    requires n <= |ops| && Written(verdicts, Some(m), ops, n, calls, good, sent)
    ensures Written(verdicts + [true], None, ops, n, calls, good + [|verdicts|], sent + [m])
    ensures Written(verdicts + [false], None, ops, n, calls, good, sent)
  {
    hide Carries;
  }

  lemma CallsStay(verdicts: seq<bool>, pending: Option<Message>, ops: seq<Operation>, n: nat, calls: seq<nat>,
                  good: seq<nat>, sent: seq<Message>)
    requires n < |ops| && Written(verdicts, pending, ops, n, calls, good, sent)
    ensures Written(verdicts, pending, ops, n + 1, calls, good, sent)
  {
  }

  lemma ReadsStep(results: seq<Result<Message>>, queue: seq<Message>, got: seq<nat>, sent: seq<Message>, m: Message,
                  e: Error)
    requires Read(results, queue, got, sent)
    ensures Read(results, queue + [m], got, sent + [m])
    ensures Read(results + [Err(e)], queue, got, sent)
    ensures queue != [] ==> Read(results + [Ok(queue[0])], queue[1..], got + [|results|], sent)
  {
    assert (sent + [m])[|got|..] == queue + [m];
    if queue != [] {
      assert queue[0] == sent[|got|] && queue[1..] == sent[|got| + 1..];
    }
  }

  /** The calls, verdicts, results and queue of some operations belong together. */
  ghost predicate Lawful(q: Simple, ops: seq<Operation>, n: nat, calls: seq<nat>, good: seq<nat>, got: seq<nat>,
                         sent: seq<Message>)
    requires n <= |ops|
  {
    Written(q.verdicts, q.pending, ops, n, calls, good, sent) && Read(q.results, q.queue, got, sent)
  }

  lemma AttemptIsLawful(q: Simple, fault: WriteFault, ops: seq<Operation>, n: nat, calls: seq<nat>, good: seq<nat>,
                        got: seq<nat>, sent: seq<Message>) returns (good': seq<nat>, sent': seq<Message>)
    requires n <= |ops| && q.pending.Some? && Lawful(q, ops, n, calls, good, got, sent)
    ensures Lawful(Attempt(q, fault), ops, n, calls, good', got, sent')
  {
    hide Written, Read;
    good', sent' := good, sent;
    CallsEnd(q.verdicts, q.pending.value, ops, n, calls, good, sent);
    ReadsStep(q.results, q.queue, got, sent, q.pending.value, ReadError);
    if Attempt(q, fault) != q && fault.NoWriteFault? {
      good', sent' := good + [|q.verdicts|], sent + [q.pending.value];
    }
  }

  lemma PutIsLawful(q: Simple, ops: seq<Operation>, n: nat, calls: seq<nat>, good: seq<nat>, got: seq<nat>,
                    sent: seq<Message>) returns (good': seq<nat>, sent': seq<Message>)
    requires n < |ops| && ops[n].Put? && Possible(q, ops[n]) && Lawful(q, ops, n, calls, good, got, sent)
    ensures Lawful(Perform(q, ops[n]), ops, n + 1, calls + [n], good', got, sent')
  {
    hide Written, Read, Attempt;
    var op := ops[n];
    var b := Begin(q, op.o, op.timestamp);
    MadeMessageCarries(b.lastId, op.o, op.timestamp);
    CallsBegin(q.verdicts, ops, n, calls, good, sent, b.pending.value);
    good', sent' := good, sent;
    if Fits(op.o) {
      good', sent' := AttemptIsLawful(b, op.wf, ops, n + 1, calls + [n], good, got, sent);
    }
  }

  lemma OthersAreLawful(q: Simple, ops: seq<Operation>, n: nat, calls: seq<nat>, good: seq<nat>, got: seq<nat>,
                        sent: seq<Message>) returns (good': seq<nat>, got': seq<nat>, sent': seq<Message>)
    requires n < |ops| && (ops[n].Put? ==> !Possible(q, ops[n])) && Lawful(q, ops, n, calls, good, got, sent)
    ensures Lawful(Perform(q, ops[n]), ops, n + 1, calls, good', got', sent')
  {
    hide Written, Read, Attempt;
    good', got', sent' := good, got, sent;
    CallsStay(q.verdicts, q.pending, ops, n, calls, good, sent);
    if Possible(q, ops[n]) {
      if ops[n].Resume? {
        good', sent' := AttemptIsLawful(q, ops[n].wf, ops, n + 1, calls, good, got, sent);
      } else {
        ReadsStep(q.results, q.queue, got, sent, MakeMessage(0, Ping, 0), ReadError);
        ReadsStep(q.results, q.queue, got, sent, MakeMessage(0, Ping, 0), NoDataAvailable);
        if Perform(q, ops[n]).queue != q.queue {
          got' := got + [|q.results|];
        }
      }
    }
  }

  lemma NothingIsLawful(ops: seq<Operation>)
    ensures Lawful(PerformAll(ops, 0), ops, 0, [], [], [], [])
  {
  }

  lemma {:induction false} QueueIsLawful(ops: seq<Operation>, n: nat)
    returns (calls: seq<nat>, good: seq<nat>, got: seq<nat>, sent: seq<Message>)
    requires n <= |ops|
    ensures Lawful(PerformAll(ops, n), ops, n, calls, good, got, sent)
  {
    hide Lawful, Perform;
    if n == 0 {
      NothingIsLawful(ops);
      calls, good, got, sent := [], [], [], [];
    } else {
      calls, good, got, sent := QueueIsLawful(ops, n - 1);
      var q := PerformAll(ops, n - 1);
      if ops[n - 1].Put? && Possible(q, ops[n - 1]) {
        good, sent := PutIsLawful(q, ops, n - 1, calls, good, got, sent);
        calls := calls + [n - 1];
      } else {
        good, got, sent := OthersAreLawful(q, ops, n - 1, calls, good, got, sent);
      }
    }
  }

  /** The queue loses, invents, reorders and changes nothing: there are the calls of `write`, each with its
      verdict but for one that may wait; the true verdicts are as many as the messages that results and
      queue have together; and these carry the objects and the timestamps of their calls, in order. */
  lemma QueueLaw(ops: seq<Operation>, n: nat) returns (calls: seq<nat>, good: seq<nat>, got: seq<nat>)
    requires n <= |ops|
    ensures var q := PerformAll(ops, n);
            && |calls| == |q.verdicts| + (if q.pending.Some? then 1 else 0) && Ordered(calls, n)
            && (forall c :: 0 <= c < |calls| ==> ops[calls[c]].Put?)
            && Ordered(good, |q.verdicts|) && (forall v :: 0 <= v < |q.verdicts| ==> (v in good <==> q.verdicts[v]))
            && Ordered(got, |q.results|) && (forall i :: 0 <= i < |q.results| ==> (i in got <==> q.results[i].Ok?))
            && |good| == |got| + |q.queue|
            && (forall j :: 0 <= j < |got| ==>
                  && q.results[got[j]].Ok?
                  && var m, op := q.results[got[j]].value, ops[calls[good[j]]];
                     m.body == op.o && m.header.timestamp == op.timestamp)
            && (forall j :: 0 <= j < |q.queue| ==>
                  var m, op := q.queue[j], ops[calls[good[|got| + j]]];
                  m.body == op.o && m.header.timestamp == op.timestamp)
  {
    var sent;
    calls, good, got, sent := QueueIsLawful(ops, n);
    var q := PerformAll(ops, n);
    hide PerformAll;
    forall j | 0 <= j < |q.queue|
      ensures q.queue[j] == sent[|got| + j] && Carries(sent[|got| + j], ops[calls[good[|got| + j]]])
    {
    }
    forall j | 0 <= j < |got| ensures Carries(sent[j], ops[calls[good[j]]]) && q.results[got[j]] == Ok(sent[j]) {
    }
  }

  // ---- The ring holds the queue ------------------------------------------------------

  /** The j-th published message is m. */
  predicate IsSent(log: Log, j: nat, m: Message)
  {
    j < |log.published| && log.published[j] < |log.attempts| && log.attempts[log.published[j]] == m
  }

  ghost predicate Holding(log: Log, queue: seq<Message>)
  {
    && log.taken + |queue| == |log.published|
    && forall i :: 0 <= i < |queue| ==> IsSent(log, log.taken + i, queue[i])
  }

  lemma HoldingIsQueue(log: Log, queue: seq<Message>)
    requires log.taken <= |log.published| && Ordered(log.published, |log.attempts|)
    ensures Holding(log, queue) <==> queue == Queue(log)
  {
    forall i | 0 <= i < |Queue(log)| ensures IsSent(log, log.taken + i, Queue(log)[i]) {
      assert Queue(log)[i] == Sent(log, log.taken + i);
    }
    if Holding(log, queue) {
      forall i | 0 <= i < |queue| ensures queue[i] == Queue(log)[i] {
        assert IsSent(log, log.taken + i, queue[i]);
      }
    }
  }

  /** `s` holds the queue, and its writer is outside `write` or waits with the pending message. */
  ghost predicate Represents(s: State, q: Simple)
  {
    && s.r.pc.Away? && s.readerSem == |q.queue| && s.writerSem + |q.queue| == SLOTS
    && s.w.lastId == q.lastId && Holding(s.log, q.queue)
    && (q.pending.None? ==> s.w.pc.Outside?)
    && (q.pending.Some? ==> s.w.pc.Ready? && s.log.attempts != [] && Current(s.log) == q.pending.value)
  }

  /** After the steps `acts`, between calls or in one that waits. */
  ghost predicate Between(md: Medium, start: State, acts: seq<Action>, q: Simple)
  {
    Reachable(md, start, acts) && Represents(After(Machine(md), start, acts), q)
  }

  lemma Continue(md: Medium, start: State, acts: seq<Action>, more: seq<Action>)
    requires Reachable(md, start, acts) && CanRun(Machine(md), After(Machine(md), start, acts), more)
    ensures Reachable(md, start, acts + more)
    ensures After(Machine(md), start, acts + more)
         == After(Machine(md), After(Machine(md), start, acts), more)
  {
    Compose(Machine(md), start, acts, more);
  }

  lemma NewAttempt(a: Log, b: Log, queue: seq<Message>, m: Message)
    requires Holding(a, queue) && b.taken == a.taken
    requires b.attempts == a.attempts + [m] && b.published == a.published
    ensures Holding(b, queue)
  {
    forall i | 0 <= i < |queue| ensures IsSent(b, b.taken + i, queue[i]) {
      assert IsSent(a, a.taken + i, queue[i]);
    }
  }

  lemma SameQueue(a: Log, b: Log, queue: seq<Message>)
    requires Holding(a, queue) && b.taken == a.taken && b.attempts == a.attempts && b.published == a.published
    ensures Holding(b, queue)
  {
    forall i | 0 <= i < |queue| ensures IsSent(b, b.taken + i, queue[i]) {
      assert IsSent(a, a.taken + i, queue[i]);
    }
  }

  lemma Enqueued(a: Log, b: Log, queue: seq<Message>)
    requires Holding(a, queue) && b.taken == a.taken && a.attempts != [] && b.attempts == a.attempts
    requires b.published == a.published + [|a.attempts| - 1]
    ensures Holding(b, queue + [Current(a)])
  {
    var queue' := queue + [Current(a)];
    forall i | 0 <= i < |queue'| ensures IsSent(b, b.taken + i, queue'[i]) {
      if i < |queue| {
        assert IsSent(a, a.taken + i, queue[i]);
      }
    }
  }

  lemma Dequeued(a: Log, b: Log, queue: seq<Message>)
    requires Holding(a, queue) && b.attempts == a.attempts && b.published == a.published
    requires queue != [] && b.taken == a.taken + 1
    ensures Holding(b, queue[1..])
  {
    forall i | 0 <= i < |queue[1..]| ensures IsSent(b, b.taken + i, queue[1..][i]) {
      assert IsSent(a, a.taken + (i + 1), queue[i + 1]);
    }
  }

  lemma LogOfFinish(t: State, fault: WriteFault)
    requires t.log.attempts != []
    ensures var a, b := t.log, FinishEffect(t, fault).log;
            && b.taken == a.taken && b.attempts == a.attempts
            && b.published == if fault.NoWriteFault? && t.writerSem > 0 then a.published + [|a.attempts| - 1]
                              else a.published
  {
    if !MustWait(t, fault) {
      match fault
      case SeekFails =>
      case WaitFails =>
      case PutFails(_) =>
      case NoWriteFault =>
    }
  }

  lemma BeginRefines(s: State, q: Simple, o: Object, timestamp: i64)
    requires Represents(s, q) && q.pending.None?
    ensures Represents(Begun(s, o, timestamp), Begin(q, o, timestamp))
  {
    NewAttempt(s.log, Begun(s, o, timestamp).log, q.queue, Built(s, o, timestamp));
  }

  lemma HoldingAfterFinish(t: State, queue: seq<Message>, fault: WriteFault)
    requires t.log.attempts != [] && Holding(t.log, queue)
    ensures Holding(FinishEffect(t, fault).log,
                    if fault.NoWriteFault? && t.writerSem > 0 then queue + [Current(t.log)] else queue)
  {
    LogOfFinish(t, fault);
    if fault.NoWriteFault? && t.writerSem > 0 {
      Enqueued(t.log, FinishEffect(t, fault).log, queue);
    } else {
      SameQueue(t.log, FinishEffect(t, fault).log, queue);
    }
  }

  lemma FinishRefines(t: State, q: Simple, fault: WriteFault)
    requires Represents(t, q) && q.pending.Some?
    ensures Represents(FinishEffect(t, fault), Attempt(q, fault))
  {
    EffectOfFinish(t, fault);
    HoldingAfterFinish(t, q.queue, fault);
    if MustWait(t, fault) {
      assert Attempt(q, fault) == q;
    }
  }

  /** A call of write does to the ring what it does to the queue. */
  lemma PutRefines(md: Medium, start: State, acts: seq<Action>, q: Simple, op: Operation)
    requires Between(md, start, acts, q) && op.Put? && Possible(q, op)
    requires md.File? || op.wf.NoWriteFault? || op.wf.WaitFails?
    ensures var s := After(Machine(md), start, acts);
            var next := acts + WriteSteps(s, op.o, op.timestamp, op.wf);
            && Between(md, start, next, Perform(q, op))
            && After(Machine(md), start, next) == WriteEffect(s, op.o, op.timestamp, op.wf)
            && WriteEffect(s, op.o, op.timestamp, op.wf).r == s.r
  {
    var s := After(Machine(md), start, acts);
    WriteIsItsSteps(md, s, op.o, op.timestamp, op.wf);
    Continue(md, start, acts, WriteSteps(s, op.o, op.timestamp, op.wf));
    if Fits(op.o) {
      var t := Begun(s, op.o, op.timestamp);
      BeginRefines(s, q, op.o, op.timestamp);
      FinishRefines(t, Begin(q, op.o, op.timestamp), op.wf);
      EffectOfFinish(t, op.wf);
    }
  }

  /** So does the rest of a call that has waited. */
  lemma ResumeRefines(md: Medium, start: State, acts: seq<Action>, q: Simple, op: Operation)
    requires Between(md, start, acts, q) && op.Resume? && Possible(q, op)
    requires md.File? || op.wf.NoWriteFault? || op.wf.WaitFails?
    ensures var t := After(Machine(md), start, acts);
            && t.log.attempts != []
            && Between(md, start, acts + FinishSteps(t, op.wf), Perform(q, op))
            && After(Machine(md), start, acts + FinishSteps(t, op.wf)) == FinishEffect(t, op.wf)
            && FinishEffect(t, op.wf).r == t.r
  {
    var t := After(Machine(md), start, acts);
    FinishIsItsSteps(md, t, op.wf);
    Continue(md, start, acts, FinishSteps(t, op.wf));
    FinishRefines(t, q, op.wf);
    EffectOfFinish(t, op.wf);
  }

  /** What a sound read of a ring that holds the queue returns. */
  lemma ResultOfTake(md: Medium, s: State, q: Simple, fault: ReadFault)
    requires Inv(md, s) && Represents(s, q)
    ensures Sound(s, fault)
    ensures Perform(q, Take(fault)).results == q.results + [ReadResult(s, fault)]
  {
    if s.readerSem > 0 {
      ReadReturnsNext(md, s);
      assert IsSent(s.log, s.log.taken + 0, q.queue[0]);
    }
  }

  lemma EffectOfTake(s: State, q: Simple, fault: ReadFault)
    requires Sound(s, fault) && Represents(s, q)
    ensures Represents(ReadEffect(s, fault), Perform(q, Take(fault))) && ReadEffect(s, fault).w == s.w
  {
    if fault.NoReadFault? && s.readerSem > 0 {
      Dequeued(s.log, ReadEffect(s, fault).log, q.queue);
    }
  }

  /** A call of read does to the ring what it does to the queue, with the same result. */
  lemma TakeRefines(md: Medium, start: State, acts: seq<Action>, q: Simple, op: Operation)
    requires Between(md, start, acts, q) && op.Take? && (md.File? || !op.rf.GetFails?)
    ensures var s := After(Machine(md), start, acts);
            && Sound(s, op.rf)
            && Between(md, start, acts + ReadSteps(s, op.rf), Perform(q, op))
            && After(Machine(md), start, acts + ReadSteps(s, op.rf)) == ReadEffect(s, op.rf)
            && ReadEffect(s, op.rf).w == s.w
            && Perform(q, op).results == q.results + [ReadResult(s, op.rf)]
  {
    var s := After(Machine(md), start, acts);
    InvAlways(md, start, acts);
    ResultOfTake(md, s, q, op.rf);
    EffectOfTake(s, q, op.rf);
    ReadIsItsSteps(md, s, op.rf);
    Continue(md, start, acts, ReadSteps(s, op.rf));
  }

  /** What a write adds to the queue. */
  function Added(s: State, o: Object, timestamp: i64, fault: WriteFault): seq<Message>
  {
    if Fits(o) && fault.NoWriteFault? && s.writerSem > 0 then [Built(s, o, timestamp)] else []
  }

  lemma HoldingAfterWrite(s: State, queue: seq<Message>, o: Object, timestamp: i64, fault: WriteFault)
    requires Holding(s.log, queue)
    ensures Holding(WriteEffect(s, o, timestamp, fault).log, queue + Added(s, o, timestamp, fault))
  {
    assert queue + [] == queue;
    if Fits(o) {
      var t := Begun(s, o, timestamp);
      NewAttempt(s.log, t.log, queue, Built(s, o, timestamp));
      HoldingAfterFinish(t, queue, fault);
    }
  }

  /** A write puts its message at the end of the ring's queue when it returns true, and leaves the queue
      alone when it fails or waits. */
  lemma WriteEnqueues(md: Medium, s: State, o: Object, timestamp: i64, fault: WriteFault)
    requires Inv(md, s) && s.w.pc.Outside? && (md.File? || fault.NoWriteFault? || fault.WaitFails?)
    ensures var u := After(Machine(md), s, WriteSteps(s, o, timestamp, fault));
            var n := |Queue(s.log)|;
            && Inv(md, u)
            && if Fits(o) && fault.NoWriteFault? && s.writerSem > 0 then
                 && |Queue(u.log)| == n + 1 && Queue(u.log)[..n] == Queue(s.log)
                 && Queue(u.log)[n].body == o && Queue(u.log)[n].header.timestamp == timestamp
                 && Queue(u.log)[n].header.id == Increment(s.w.lastId)
               else Queue(u.log) == Queue(s.log)
  {
    var u := After(Machine(md), s, WriteSteps(s, o, timestamp, fault));
    QueueAfterWrite(md, s, o, timestamp, fault);
    hide *;
    MadeMessageCarries(Increment(s.w.lastId), o, timestamp);
    AppendedToQueue(Queue(s.log), s, o, timestamp, fault);
  }

  lemma AppendedToQueue(queue: seq<Message>, s: State, o: Object, timestamp: i64, fault: WriteFault)
    ensures var added := queue + Added(s, o, timestamp, fault);
            if Fits(o) && fault.NoWriteFault? && s.writerSem > 0 then
              && |added| == |queue| + 1 && added[..|queue|] == queue
              && added[|queue|] == MakeMessage(Increment(s.w.lastId), o, timestamp)
            else added == queue
  {
  }

  lemma QueueAfterWrite(md: Medium, s: State, o: Object, timestamp: i64, fault: WriteFault)
    requires Inv(md, s) && s.w.pc.Outside? && (md.File? || fault.NoWriteFault? || fault.WaitFails?)
    ensures var u := After(Machine(md), s, WriteSteps(s, o, timestamp, fault));
            && Inv(md, u) && u.log.taken <= |u.log.published| && Ordered(u.log.published, |u.log.attempts|)
            && s.log.taken <= |s.log.published| && Ordered(s.log.published, |s.log.attempts|)
            && Queue(u.log) == Queue(s.log) + Added(s, o, timestamp, fault)
  {
    WriteIsItsSteps(md, s, o, timestamp, fault);
    InvRun(md, s, WriteSteps(s, o, timestamp, fault));
    HoldingIsQueue(s.log, Queue(s.log));
    HoldingAfterWrite(s, Queue(s.log), o, timestamp, fault);
    HoldingIsQueue(WriteEffect(s, o, timestamp, fault).log, Queue(s.log) + Added(s, o, timestamp, fault));
  }

  /** What a write that got this far has returned. */
  function Said(outcome: WriteOutcome): seq<bool>
  {
    if outcome.Returned? then [outcome.ok] else []
  }

  lemma ReadersLeaveVerdicts(q: Simple, op: Operation)
    requires op.Take? || !Possible(q, op)
    ensures Perform(q, op).verdicts == q.verdicts + []
  {
  }

  lemma WritersLeaveResults(q: Simple, op: Operation)
    requires !op.Take? || !Possible(q, op)
    ensures Perform(q, op).results == q.results + []
  {
  }

  lemma VerdictOfAttempt(q: Simple, fault: WriteFault, u: State, length: nat)
    requires q.pending.Some? && Represents(u, Attempt(q, fault))
    ensures Attempt(q, fault).verdicts == q.verdicts + Said(OutcomeOf(u, fault, length))
  {
    assert q.verdicts + [] == q.verdicts;
  }

  // ---- Two handlers over a shared file --------------------------------------------

  /** A writer and a reader on the same file and semaphores. */
  ghost predicate Paired(w: SharedFile, r: SharedFile)
    reads w, r
  {
    && w.Valid() && r.Valid() && w.isOpen && r.isOpen
    && w != r && w.buffer != r.buffer
    && w.file == r.file && w.reader == r.reader && w.writer == r.writer
  }

  /** The two objects are the writer and the reader of the ring after `acts`, which holds the queue;
      `outcome` is what became of the writer's last call. */
  ghost predicate Joint(w: SharedFile, r: SharedFile, start: State, acts: seq<Action>, q: Simple, outcome: WriteOutcome)
    reads w, r, w.file, w.reader, w.writer, w.buffer, r.file, r.reader, r.writer, r.buffer
  {
    && Paired(w, r) && Between(File, start, acts, q)
    && w.IsWriter(After(Machine(File), start, acts)) && r.Reads(After(Machine(File), start, acts))
    && (outcome.Waiting? <==> q.pending.Some?)
    && (outcome.Waiting? ==> outcome.length == |Frame(q.pending.value)|)
  }

  method PutOnce(w: SharedFile, r: SharedFile, op: Operation, outcome: WriteOutcome,
                 ghost start: State, ghost acts: seq<Action>, ghost q: Simple)
    returns (after: WriteOutcome, ghost next: seq<Action>)
    requires Joint(w, r, start, acts, q, outcome) && op.Put? && Possible(q, op)
    modifies w`offset, w`lastId, w.file, w.buffer, w.reader, w.writer
    ensures Joint(w, r, start, next, Perform(q, op), after)
    ensures Perform(q, op).verdicts == q.verdicts + Said(after)
  {
    ghost var s := After(Machine(File), start, acts);
    PutRefines(File, start, acts, q, op);
    next := acts + WriteSteps(s, op.o, op.timestamp, op.wf);
    after := w.Write(op.o, op.timestamp, op.wf, s);
    if Fits(op.o) {
      VerdictOfAttempt(Begin(q, op.o, op.timestamp), op.wf, After(Machine(File), start, next),
                       |Frame(Built(s, op.o, op.timestamp))|);
    }
  }

  method ResumeOnce(w: SharedFile, r: SharedFile, op: Operation, outcome: WriteOutcome,
                    ghost start: State, ghost acts: seq<Action>, ghost q: Simple)
    returns (after: WriteOutcome, ghost next: seq<Action>)
    requires Joint(w, r, start, acts, q, outcome) && op.Resume? && Possible(q, op)
    modifies w`offset, w.file, w.reader, w.writer
    ensures Joint(w, r, start, next, Perform(q, op), after)
    ensures Perform(q, op).verdicts == q.verdicts + Said(after)
  {
    ghost var t := After(Machine(File), start, acts);
    ResumeRefines(File, start, acts, q, op);
    next := acts + FinishSteps(t, op.wf);
    after := w.Finish(outcome.length, op.wf, t);
    VerdictOfAttempt(q, op.wf, After(Machine(File), start, next), outcome.length);
  }

  method TakeOnce(w: SharedFile, r: SharedFile, op: Operation, outcome: WriteOutcome,
                  ghost start: State, ghost acts: seq<Action>, ghost q: Simple)
    returns (result: Result<Message>, ghost next: seq<Action>)
    requires Joint(w, r, start, acts, q, outcome) && op.Take?
    modifies r`offset, r.buffer, r.reader, r.writer
    ensures Joint(w, r, start, next, Perform(q, op), outcome)
    ensures Perform(q, op).results == q.results + [result]
  {
    ghost var s := After(Machine(File), start, acts);
    TakeRefines(File, start, acts, q, op);
    next := acts + ReadSteps(s, op.rf);
    result := r.Read(op.rf, s);
  }

  /** One turn, of the process whose operation it is, if that is possible. */
  method Turn(w: SharedFile, r: SharedFile, op: Operation, outcome: WriteOutcome,
              ghost start: State, ghost acts: seq<Action>, ghost q: Simple)
    returns (after: WriteOutcome, results: seq<Result<Message>>, verdicts: seq<bool>, ghost next: seq<Action>)
    requires Joint(w, r, start, acts, q, outcome)
    modifies w`offset, w`lastId, w.file, w.buffer, w.reader, w.writer, r`offset, r.buffer
    ensures Joint(w, r, start, next, Perform(q, op), after)
    ensures Perform(q, op).results == q.results + results && Perform(q, op).verdicts == q.verdicts + verdicts
  {
    after, results, verdicts, next := outcome, [], [], acts;
    if op.Take? {
      ReadersLeaveVerdicts(q, op);
      var result;
      result, next := TakeOnce(w, r, op, outcome, start, acts, q);
      results := [result];
    } else {
      WritersLeaveResults(q, op);
      if op.Put? && outcome.Returned? {
        after, next := PutOnce(w, r, op, outcome, start, acts, q);
        verdicts := Said(after);
      } else if op.Resume? && outcome.Waiting? && !op.wf.SeekFails? {
        after, next := ResumeOnce(w, r, op, outcome, start, acts, q);
        verdicts := Said(after);
      } else {
        ReadersLeaveVerdicts(q, op);
      }
    }
  }

  /** Any turns in any order, failures and waiting included, return what the bounded queue returns: the
      j-th result that is no error carries the object and the timestamp of the call of `write` with the
      j-th verdict that is true. */
  method Run(ops: seq<Operation>)
    returns (results: seq<Result<Message>>, verdicts: seq<bool>,
             ghost calls: seq<nat>, ghost good: seq<nat>, ghost got: seq<nat>)
    ensures results == PerformAll(ops, |ops|).results && verdicts == PerformAll(ops, |ops|).verdicts
    ensures Ordered(calls, |ops|) && |verdicts| <= |calls| <= |verdicts| + 1
    ensures Ordered(good, |verdicts|) && forall v :: 0 <= v < |verdicts| ==> (v in good <==> verdicts[v])
    ensures Ordered(got, |results|) && forall i :: 0 <= i < |results| ==> (i in got <==> results[i].Ok?)
    ensures |got| <= |good|
    ensures forall j :: 0 <= j < |got| ==>
              && ops[calls[good[j]]].Put? && results[got[j]].Ok?
              && results[got[j]].value.body == ops[calls[good[j]]].o
              && results[got[j]].value.header.timestamp == ops[calls[good[j]]].timestamp
  {
    var file := new FileContent();
    var reader := new Semaphore(0);
    var writer := new Semaphore(SLOTS);
    var w := new SharedFile(file, reader, writer);
    var r := new SharedFile(file, reader, writer);
    ghost var start := State([], 0, SLOTS, Writer(Outside, 0, 0), Reader(Away, 0, r.buffer[..]),
                             Log([], [], [], 0, []));
    ghost var acts: seq<Action> := [];
    var outcome := Returned(true);
    results, verdicts := [], [];
    for k := 0 to |ops|
      invariant w.file == file && w.reader == reader && w.writer == writer && fresh(w.buffer) && fresh(r.buffer)
      invariant Joint(w, r, start, acts, PerformAll(ops, k), outcome)
      invariant results == PerformAll(ops, k).results && verdicts == PerformAll(ops, k).verdicts
    {
      var read, said;
      outcome, read, said, acts := Turn(w, r, ops[k], outcome, start, acts, PerformAll(ops, k));
      results, verdicts := results + read, verdicts + said;
    }
    calls, good, got := QueueLaw(ops, |ops|);
  }

  // ---- Two handlers over shared memory ---------------------------------------------

  /** A turn over memory: only waiting for a semaphore can fail. */
  predicate InMemory(op: Operation)
  {
    match op
    case Put(_, _, fault) => fault.NoWriteFault? || fault.WaitFails?
    case Resume(fault) => fault.NoWriteFault? || fault.WaitFails?
    case Take(fault) => fault.NoReadFault? || fault.TryWaitFails?
  }

  /** A writer and a reader on the same mapping and semaphores. */
  ghost predicate Mapped(w: SharedMemory, r: SharedMemory)
    reads w, r
  {
    && w.Valid() && r.Valid() && w.isOpen && r.isOpen
    && w != r && w.buffer != r.buffer
    && w.address == r.address && w.reader == r.reader && w.writer == r.writer
  }

  /** The two objects are the writer and the reader of the ring after `acts`, which holds the queue;
      `outcome` is what became of the writer's last call. */
  ghost predicate JointMapped(w: SharedMemory, r: SharedMemory, start: State, acts: seq<Action>, q: Simple,
                              outcome: WriteOutcome)
    reads w, r, w.address, w.reader, w.writer, w.buffer, r.address, r.reader, r.writer, r.buffer
  {
    && Mapped(w, r) && Between(Memory, start, acts, q)
    && w.IsWriter(After(Machine(Memory), start, acts)) && r.Reads(After(Machine(Memory), start, acts))
    && (outcome.Waiting? <==> q.pending.Some?)
    && (outcome.Waiting? ==> outcome.length == |Frame(q.pending.value)|)
  }

  method PutMapped(w: SharedMemory, r: SharedMemory, op: Operation, outcome: WriteOutcome,
                   ghost start: State, ghost acts: seq<Action>, ghost q: Simple)
    returns (after: WriteOutcome, ghost next: seq<Action>)
    requires JointMapped(w, r, start, acts, q, outcome) && op.Put? && Possible(q, op) && InMemory(op)
    modifies w`offset, w`lastId, w.address, w.buffer, w.reader, w.writer
    ensures JointMapped(w, r, start, next, Perform(q, op), after)
    ensures Perform(q, op).verdicts == q.verdicts + Said(after)
  {
    ghost var s := After(Machine(Memory), start, acts);
    PutRefines(Memory, start, acts, q, op);
    next := acts + WriteSteps(s, op.o, op.timestamp, op.wf);
    after := w.Write(op.o, op.timestamp, op.wf.WaitFails?, s);
    if Fits(op.o) {
      VerdictOfAttempt(Begin(q, op.o, op.timestamp), op.wf, After(Machine(Memory), start, next),
                       |Frame(Built(s, op.o, op.timestamp))|);
    }
  }

  method ResumeMapped(w: SharedMemory, r: SharedMemory, op: Operation, outcome: WriteOutcome,
                      ghost start: State, ghost acts: seq<Action>, ghost q: Simple)
    returns (after: WriteOutcome, ghost next: seq<Action>)
    requires JointMapped(w, r, start, acts, q, outcome) && op.Resume? && Possible(q, op) && InMemory(op)
    modifies w`offset, w.address, w.reader, w.writer
    ensures JointMapped(w, r, start, next, Perform(q, op), after)
    ensures Perform(q, op).verdicts == q.verdicts + Said(after)
  {
    ghost var t := After(Machine(Memory), start, acts);
    ResumeRefines(Memory, start, acts, q, op);
    next := acts + FinishSteps(t, op.wf);
    after := w.Finish(outcome.length, op.wf.WaitFails?, t);
    VerdictOfAttempt(q, op.wf, After(Machine(Memory), start, next), outcome.length);
  }

  method TakeMapped(w: SharedMemory, r: SharedMemory, op: Operation, outcome: WriteOutcome,
                    ghost start: State, ghost acts: seq<Action>, ghost q: Simple)
    returns (result: Result<Message>, ghost next: seq<Action>)
    requires JointMapped(w, r, start, acts, q, outcome) && op.Take? && InMemory(op)
    modifies r`offset, r.buffer, r.reader, r.writer
    ensures JointMapped(w, r, start, next, Perform(q, op), outcome)
    ensures Perform(q, op).results == q.results + [result]
  {
    ghost var s := After(Machine(Memory), start, acts);
    TakeRefines(Memory, start, acts, q, op);
    next := acts + ReadSteps(s, op.rf);
    result := r.Read(op.rf.TryWaitFails?, s);
  }

  /** One turn, of the process whose operation it is, if that is possible. */
  method TurnMapped(w: SharedMemory, r: SharedMemory, op: Operation, outcome: WriteOutcome,
                    ghost start: State, ghost acts: seq<Action>, ghost q: Simple)
    returns (after: WriteOutcome, results: seq<Result<Message>>, verdicts: seq<bool>, ghost next: seq<Action>)
    requires JointMapped(w, r, start, acts, q, outcome) && InMemory(op)
    modifies w`offset, w`lastId, w.address, w.buffer, w.reader, w.writer, r`offset, r.buffer
    ensures JointMapped(w, r, start, next, Perform(q, op), after)
    ensures Perform(q, op).results == q.results + results && Perform(q, op).verdicts == q.verdicts + verdicts
  {
    after, results, verdicts, next := outcome, [], [], acts;
    if op.Take? {
      ReadersLeaveVerdicts(q, op);
      var result;
      result, next := TakeMapped(w, r, op, outcome, start, acts, q);
      results := [result];
    } else {
      WritersLeaveResults(q, op);
      if op.Put? && outcome.Returned? {
        after, next := PutMapped(w, r, op, outcome, start, acts, q);
        verdicts := Said(after);
      } else if op.Resume? && outcome.Waiting? {
        after, next := ResumeMapped(w, r, op, outcome, start, acts, q);
        verdicts := Said(after);
      } else {
        ReadersLeaveVerdicts(q, op);
      }
    }
  }

  /** The same over a mapping, whatever it held before. */
  method RunMapped(address: array<byte>, ops: seq<Operation>)
    returns (results: seq<Result<Message>>, verdicts: seq<bool>,
             ghost calls: seq<nat>, ghost good: seq<nat>, ghost got: seq<nat>)
    requires address.Length == TOTAL_SIZE && forall k :: 0 <= k < |ops| ==> InMemory(ops[k])
    modifies address
    ensures results == PerformAll(ops, |ops|).results && verdicts == PerformAll(ops, |ops|).verdicts
    ensures Ordered(calls, |ops|) && |verdicts| <= |calls| <= |verdicts| + 1
    ensures Ordered(good, |verdicts|) && forall v :: 0 <= v < |verdicts| ==> (v in good <==> verdicts[v])
    ensures Ordered(got, |results|) && forall i :: 0 <= i < |results| ==> (i in got <==> results[i].Ok?)
    ensures |got| <= |good|
    ensures forall j :: 0 <= j < |got| ==>
              && ops[calls[good[j]]].Put? && results[got[j]].Ok?
              && results[got[j]].value.body == ops[calls[good[j]]].o
              && results[got[j]].value.header.timestamp == ops[calls[good[j]]].timestamp
  {
    var reader := new Semaphore(0);
    var writer := new Semaphore(SLOTS);
    var w := new SharedMemory(address, reader, writer);
    var r := new SharedMemory(address, reader, writer);
    ghost var start := State(address[..], 0, SLOTS, Writer(Outside, 0, 0), Reader(Away, 0, r.buffer[..]),
                             Log([], [], [], 0, []));
    ghost var acts: seq<Action> := [];
    var outcome := Returned(true);
    results, verdicts := [], [];
    for k := 0 to |ops|
      invariant w.address == address && w.reader == reader && w.writer == writer
      invariant fresh(w.buffer) && fresh(r.buffer)
      invariant JointMapped(w, r, start, acts, PerformAll(ops, k), outcome)
      invariant results == PerformAll(ops, k).results && verdicts == PerformAll(ops, k).verdicts
    {
      var read, said;
      outcome, read, said, acts := TurnMapped(w, r, ops[k], outcome, start, acts, PerformAll(ops, k));
      results, verdicts := results + read, verdicts + said;
    }
    calls, good, got := QueueLaw(ops, |ops|);
  }
}
