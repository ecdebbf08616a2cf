/** What holds in every interleaving of the ring's two processes. */
module RingTheorems {
  import opened Bytes
  import opened Codec
  import opened Transitions
  import opened Ring
  import opened RingInvariant

  // ---- Safety ----------------------------------------------------------------

  /** The writes in `acts` that got as far as an id, in call order. */
  ghost function Accepted(acts: seq<Action>): seq<(Object, i64)>
    decreases |acts|
  {
    if acts == [] then [] else
      var rest := Accepted(acts[..|acts| - 1]);
      var a := acts[|acts| - 1];
      if a.ByWriter? && a.wa.Call? && Fits(a.wa.o) then rest + [(a.wa.o, a.wa.timestamp)] else rest
  }

  /** Step k is a call of `write` with an object that fits. */
  predicate IsAccepted(acts: seq<Action>, k: nat)
    requires k < |acts|
  {
    acts[k].ByWriter? && acts[k].wa.Call? && Fits(acts[k].wa.o)
  }

  ghost predicate AreAt(acts: seq<Action>, calls: seq<(Object, i64)>, at: seq<nat>)
  {
    && |at| == |calls| && Ordered(at, |acts|)
    && (forall i :: 0 <= i < |at| ==> acts[at[i]] == ByWriter(Call(calls[i].0, calls[i].1)))
    && forall k :: 0 <= k < |acts| ==> (k in at <==> IsAccepted(acts, k))
  }

  lemma OneMoreAccepted(acts: seq<Action>, calls: seq<(Object, i64)>, at: seq<nat>, a: Action)
    requires AreAt(acts, calls, at)
    ensures if a.ByWriter? && a.wa.Call? && Fits(a.wa.o)
            then AreAt(acts + [a], calls + [(a.wa.o, a.wa.timestamp)], at + [|acts|])
            else AreAt(acts + [a], calls, at)
  {
    hide Fits;
    forall k | 0 <= k < |acts| ensures IsAccepted(acts, k) <==> IsAccepted(acts + [a], k) {
      assert (acts + [a])[k] == acts[k];
    }
  }

  lemma NoneAccepted()
    ensures AreAt([], [], [])
  {
  }

  lemma {:induction false} AcceptedAreAt(acts: seq<Action>) returns (at: seq<nat>)
    ensures AreAt(acts, Accepted(acts), at)
    decreases |acts|
  {
    hide AreAt, Fits;
    if acts == [] {
      at := [];
      NoneAccepted();
    } else {
      var n, a := |acts| - 1, acts[|acts| - 1];
      at := AcceptedAreAt(acts[..n]);
      OneMoreAccepted(acts[..n], Accepted(acts[..n]), at, a);
      assert acts == acts[..n] + [a];
      if a.ByWriter? && a.wa.Call? && Fits(a.wa.o) {
        at := at + [n];
      }
    }
  }

  /** They are the calls with an object that fits, in the order in which they were made. */
  lemma AcceptedAt(acts: seq<Action>) returns (at: seq<nat>)
    ensures |at| == |Accepted(acts)| && Ordered(at, |acts|)
    ensures forall i :: 0 <= i < |at| ==> acts[at[i]] == ByWriter(Call(Accepted(acts)[i].0, Accepted(acts)[i].1))
    ensures forall k :: 0 <= k < |acts| ==>
              (k in at <==> acts[k].ByWriter? && acts[k].wa.Call? && Fits(acts[k].wa.o))
  {
    at := AcceptedAreAt(acts);
    assert forall k :: 0 <= k < |acts| && IsAccepted(acts, k) ==> k in at;
  }

  lemma LastIdCounts(md: Medium, start: State, acts: seq<Action>)
    requires Reachable(md, start, acts)
    ensures var s := After(Machine(md), start, acts); s.w.lastId == Counter(|s.log.attempts|)
  {
    InvAlways(md, start, acts);
  }

  lemma OnlyCallsAddAttempts(md: Medium, s: State, a: Action)
    requires Enabled(md, s, a) && !(a.ByWriter? && a.wa.Call? && Fits(a.wa.o))
    ensures Apply(md, s, a).log.attempts == s.log.attempts
  {
    if a.ByReader? {
      ReaderFrame(md, s, a.ra);
    }
  }

  lemma AttemptsStep(md: Medium, s: State, acts: seq<Action>, a: Action)
    requires Enabled(md, s, a) && s.w.lastId == Counter(|s.log.attempts|)
    requires s.log.attempts == Numbering(Accepted(acts))
    ensures Apply(md, s, a).log.attempts == Numbering(Accepted(acts + [a]))
  {
    assert (acts + [a])[..|acts|] == acts;
    if a.ByWriter? && a.wa.Call? && Fits(a.wa.o) {
      NumberingNext(Accepted(acts), (a.wa.o, a.wa.timestamp), s.w.lastId);
    } else {
      OnlyCallsAddAttempts(md, s, a);
    }
  }

  lemma {:induction false} AttemptsAreTheCalls(md: Medium, start: State, acts: seq<Action>)
    requires Reachable(md, start, acts)
    ensures After(Machine(md), start, acts).log.attempts == Numbering(Accepted(acts))
    decreases |acts|
  {
    if acts != [] {
      var front, a := acts[..|acts| - 1], acts[|acts| - 1];
      assert acts == front + [a];
      Extend(Machine(md), start, front, a);
      AttemptsAreTheCalls(md, start, front);
      LastIdCounts(md, start, front);
      AttemptsStep(md, After(Machine(md), start, front), front, a);
    }
  }

  /** What `read` has returned are the objects and timestamps of calls. */
  lemma ResultsAreTheCalls(log: Log, calls: seq<(Object, i64)>, i: nat)
    requires log.attempts == Numbering(calls) && AreSent(log.results, log) && i < |log.results|
    ensures log.published[i] < |calls| && log.results[i].Ok?
    ensures var m, p := log.results[i].value, log.published[i];
            m.body == calls[p].0 && m.header.timestamp == calls[p].1 && m.header.id == Counter(p + 1)
  {
    NumberingAt(calls, log.published[i]);
  }

  /** In every interleaving `read` returns a prefix of the messages whose `write` completed, in order
      and with the objects and timestamps that were given to `write`; these are a subsequence of the
      calls made, and the calls missing from it are exactly the ones whose write failed, or is still
      under way. */
  lemma ReadsArePrefixOfWrites(md: Medium, start: State, acts: seq<Action>)
    requires Reachable(md, start, acts)
    ensures var s := After(Machine(md), start, acts);
            && s.log.attempts == Numbering(Accepted(acts))
            && Ordered(s.log.published, |s.log.attempts|)
            && |s.log.results| <= |s.log.published|
            && (forall i :: 0 <= i < |s.log.results| ==> s.log.results[i] == Ok(Sent(s.log, i)))
            && (forall p :: 0 <= p < |s.log.attempts| ==>
                  (p in s.log.published <==>
                     p !in s.log.failed && (s.w.pc.Outside? || p < |s.log.attempts| - 1)))
    ensures var log, calls := After(Machine(md), start, acts).log, Accepted(acts);
            && |log.attempts| == |calls|
            && forall i :: 0 <= i < |log.results| ==>
                 var m, p := log.results[i].value, log.published[i];
                 m.body == calls[p].0 && m.header.timestamp == calls[p].1 && m.header.id == Counter(p + 1)
  {
    AttemptsAreTheCalls(md, start, acts);
    InvAlways(md, start, acts);
    var s := After(Machine(md), start, acts);
    forall i | 0 <= i < |s.log.results|
      ensures var m, p := s.log.results[i].value, s.log.published[i];
              m.body == Accepted(acts)[p].0 && m.header.timestamp == Accepted(acts)[p].1
              && m.header.id == Counter(p + 1)
    {
      ResultsAreTheCalls(s.log, Accepted(acts), i);
    }
    if !s.w.pc.Outside? {
      assert |s.log.attempts| - 1 !in s.log.published;
    }
  }

  /** In terms of the run itself: the i-th result is the object and the timestamp of the call at step at[i],
      with the number of calls that got an id up to then, and the calls are in the order of the results. */
  lemma ReadsReturnTheCalls(md: Medium, start: State, acts: seq<Action>) returns (at: seq<nat>)
    requires Reachable(md, start, acts)
    ensures var results := After(Machine(md), start, acts).log.results;
            && |at| == |results| && Ordered(at, |acts|)
            && forall i :: 0 <= i < |at| ==>
                 && results[i].Ok?
                 && acts[at[i]] == ByWriter(Call(results[i].value.body, results[i].value.header.timestamp))
  {
    ReadsArePrefixOfWrites(md, start, acts);
    var log := After(Machine(md), start, acts).log;
    var calls := AcceptedAt(acts);
    at := CallsOfResults(log, Accepted(acts), acts, calls);
  }

  lemma CallsOfResults(log: Log, accepted: seq<(Object, i64)>, acts: seq<Action>, calls: seq<nat>)
    returns (at: seq<nat>)
    requires |calls| == |accepted| && Ordered(calls, |acts|) && Ordered(log.published, |calls|)
    requires |log.results| <= |log.published|
    requires forall i :: 0 <= i < |calls| ==> acts[calls[i]] == ByWriter(Call(accepted[i].0, accepted[i].1))
    requires forall i :: 0 <= i < |log.results| ==>
               log.results[i].Ok?
               && var m, p := log.results[i].value, log.published[i];
                  m.body == accepted[p].0 && m.header.timestamp == accepted[p].1
    ensures |at| == |log.results| && Ordered(at, |acts|)
    ensures forall i :: 0 <= i < |at| ==>
              && log.results[i].Ok?
              && acts[at[i]] == ByWriter(Call(log.results[i].value.body, log.results[i].value.header.timestamp))
  {
    at := seq(|log.results|, i requires 0 <= i < |log.results| => calls[log.published[i]]);
  }

  /** Ids returned by `read` strictly increase as long as fewer than 2^32 were given out. */
  lemma IdsIncrease(md: Medium, start: State, acts: seq<Action>, i: nat, j: nat)
    requires Reachable(md, start, acts) && |Accepted(acts)| < U32
    requires i < j < |After(Machine(md), start, acts).log.results|
    ensures var results := After(Machine(md), start, acts).log.results;
            && results[i].Ok? && results[j].Ok?
            && 1 <= results[i].value.header.id < results[j].value.header.id <= |Accepted(acts)|
  {
    AttemptsAreTheCalls(md, start, acts);
    InvAlways(md, start, acts);
    IdsOrdered(After(Machine(md), start, acts).log, i, j);
  }

  lemma IdsOrdered(log: Log, i: nat, j: nat)
    requires GoodAttempts(log.attempts) && Ordered(log.published, |log.attempts|) && |log.attempts| < U32
    requires AreSent(log.results, log) && i < j < |log.results|
    ensures log.results[i].Ok? && log.results[j].Ok?
    ensures 1 <= log.results[i].value.header.id < log.results[j].value.header.id <= |log.attempts|
  {
    var p, q := log.published[i], log.published[j];
    CounterCounts(p + 1);
    CounterCounts(q + 1);
    assert log.attempts[p].header.id == p + 1 && log.attempts[q].header.id == q + 1;
  }

  /** The writer never touches the slot of an unread message nor the one being copied, so no
      copied byte changes under the copy; all accesses stay inside the 64 slots. */
  lemma SlotsAreExclusive(md: Medium, start: State, acts: seq<Action>)
    requires Reachable(md, start, acts)
    ensures var s := After(Machine(md), start, acts);
            && (s.w.pc.Filling? ==>
                  forall j :: s.log.taken <= j < |s.log.published| ==> s.w.offset != j % 64)
            && (s.w.pc.Filling? && s.r.pc.Copying? ==> s.w.offset != s.r.offset)
            && (Enabled(md, s, ByWriter(PutByte)) ==> Address(s.w.offset, s.w.pc.k) < 33792)
            && |s.bytes| <= 33792
            && (md.Memory? ==> |s.bytes| == 33792)
  {
    InvAlways(md, start, acts);
    var s := After(Machine(md), start, acts);
    if s.w.pc.Filling? {
      FrameBound(Current(s.log));
      forall j | s.log.taken <= j < |s.log.published|
        ensures s.w.offset != j % SLOTS
      {
        DifferentSlots(j, |s.log.published|);
      }
      assert s.r.pc.Copying? ==> s.log.taken < |s.log.published|;
    }
  }

  /** No step of the writer changes a byte of the slot that is being copied. */
  lemma CopiedSlotIsStable(md: Medium, start: State, acts: seq<Action>, a: WriterAction, k: nat)
    requires Reachable(md, start, acts) && WriterEnabled(md, After(Machine(md), start, acts), a)
    requires var s := After(Machine(md), start, acts);
             s.r.pc.Copying? && k < BUFFER_SIZE && Address(s.r.offset, k) < |s.bytes|
    ensures var s := After(Machine(md), start, acts);
            var t := WriterStep(md, s, a);
            Address(s.r.offset, k) < |t.bytes| && t.bytes[Address(s.r.offset, k)] == s.bytes[Address(s.r.offset, k)]
  {
    SlotsAreExclusive(md, start, acts);
    InvAlways(md, start, acts);
    var s := After(Machine(md), start, acts);
    if a.PutByte? {
      FrameBound(Current(s.log));
      assert Address(s.w.offset, s.w.pc.k) != Address(s.r.offset, k);
    }
  }

  /** Tokens are neither lost nor made: free, filled and held ones always add up to 64. */
  lemma TokensAreConserved(md: Medium, start: State, acts: seq<Action>)
    requires Reachable(md, start, acts)
    ensures var s := After(Machine(md), start, acts);
            && s.readerSem + s.writerSem + WriterHolds(s) + ReaderHolds(s) == 64
            && s.log.taken <= |s.log.published| <= s.log.taken + 64
            && s.w.offset == |s.log.published| % 64
            && s.r.offset == s.log.taken % 64
  {
    InvAlways(md, start, acts);
  }

  /** When `read` stops copying, by reaching 528 bytes or the end of the file, it has the whole
      frame, and whatever the buffer held behind the bytes read has no say in the result. */
  lemma ShortReadsAreSafe(md: Medium, start: State, acts: seq<Action>, stale: Buffer)
    requires Reachable(md, start, acts)
    requires Enabled(md, After(Machine(md), start, acts), ByReader(Release))
    requires var s := After(Machine(md), start, acts);
             forall i :: 0 <= i < s.r.pc.k && i < BUFFER_SIZE ==> stale[i] == s.r.buffer[i]
    ensures var s := After(Machine(md), start, acts);
            && s.log.taken < |s.log.published| && s.log.published[s.log.taken] < |s.log.attempts|
            && s.r.pc.k >= HEADER_SIZE + Sent(s.log, s.log.taken).header.bodySize
            && DecodeHeader(stale[..HEADER_SIZE]).bodySize <= BODY_CAPACITY
            && DecodeFrame(stale) == Ok(Sent(s.log, s.log.taken))
            && (md.Memory? ==> s.r.pc.k == BUFFER_SIZE)
  {
    InvAlways(md, start, acts);
    var s := After(Machine(md), start, acts);
    var m := Sent(s.log, s.log.taken);
    CopiedSlot(md, s);
    assert Frame(m) <= stale;
    FrameRoundTrip(m, stale);
  }

  /** The assertion on the body size in `read` never fails. */
  lemma DecodeAlwaysPossible(md: Medium, start: State, acts: seq<Action>)
    requires Reachable(md, start, acts)
    requires After(Machine(md), start, acts).r.pc.Decoding?
    ensures Enabled(md, After(Machine(md), start, acts), ByReader(Decode))
  {
    InvAlways(md, start, acts);
    var s := After(Machine(md), start, acts);
    FrameRoundTrip(Sent(s.log, s.log.taken - 1), s.r.buffer);
  }

  // ---- Refinement of a queue -------------------------------------------------

  /** The queue the ring implements: published and not yet taken messages. */
  ghost function Queue(log: Log): (q: seq<Message>)
    requires log.taken <= |log.published| && Ordered(log.published, |log.attempts|)
    ensures |q| == |log.published| - log.taken
  {
    seq(|log.published| - log.taken,
        i requires 0 <= i < |log.published| - log.taken => Sent(log, log.taken + i))
  }

  lemma QueueKept(a: Log, b: Log)
    requires a.taken <= |a.published| && Ordered(a.published, |a.attempts|)
    requires Grew(a, b) && b.published == a.published
    ensures Ordered(b.published, |b.attempts|) && Queue(b) == Queue(a)
  {
    forall i | 0 <= i < |Queue(a)|
      ensures Queue(b)[i] == Queue(a)[i]
    {
      assert Sent(b, a.taken + i) == Sent(a, a.taken + i);
    }
  }

  lemma QueueExtended(a: Log, b: Log)
    requires a.attempts != [] && a.taken <= |a.published| && Ordered(a.published, |a.attempts|)
    requires b == a.(published := a.published + [|a.attempts| - 1]) && Ordered(b.published, |b.attempts|)
    ensures Queue(b) == Queue(a) + [Current(a)]
  {
    var q, q' := Queue(a), Queue(b);
    forall i | 0 <= i < |q'|
      ensures q'[i] == (q + [Current(a)])[i]
    {
      var j := a.taken + i;
      assert q'[i] == Sent(b, j);
      if i < |q| {
        assert Sent(b, j) == Sent(a, j);
      }
    }
  }

  /** Every step is an enqueue at the back of a queue with room, a dequeue at the front of a
      non-empty one, or invisible; a failed write or read is invisible. */
  lemma StepsRefineQueue(md: Medium, s: State, a: Action)
    requires Inv(md, s) && Enabled(md, s, a)
    ensures Inv(md, Apply(md, s, a))
    ensures a == ByWriter(Publish) ==>
              |Queue(s.log)| < 64 && Queue(Apply(md, s, a).log) == Queue(s.log) + [Current(s.log)]
    ensures a == ByReader(Release) ==>
              Queue(s.log) != [] && Queue(Apply(md, s, a).log) == Queue(s.log)[1..]
    ensures a != ByWriter(Publish) && a != ByReader(Release) ==> Queue(Apply(md, s, a).log) == Queue(s.log)
  {
    InvKept(md, s, a);
    match a
    case ByWriter(wa) => WriterRefinesQueue(md, s, wa);
    case ByReader(ra) => ReaderRefinesQueue(md, s, ra);
  }

  lemma WriterRefinesQueue(md: Medium, s: State, a: WriterAction)
    requires Tokens(s) && Numbered(s) && WriterEnabled(md, s, a) && Numbered(WriterStep(md, s, a))
    ensures a.Publish? ==>
              |Queue(s.log)| < SLOTS && Queue(WriterStep(md, s, a).log) == Queue(s.log) + [Current(s.log)]
    ensures !a.Publish? ==> Queue(WriterStep(md, s, a).log) == Queue(s.log)
  {
    if a.Publish? {
      QueueExtended(s.log, WriterStep(md, s, a).log);
    } else {
      WriterGrows(md, s, a);
      QueueKept(s.log, WriterStep(md, s, a).log);
    }
  }

  lemma ReaderRefinesQueue(md: Medium, s: State, a: ReaderAction)
    requires Tokens(s) && Numbered(s) && ReaderEnabled(md, s, a) && Tokens(ReaderStep(md, s, a))
    requires Numbered(ReaderStep(md, s, a))
    ensures a.Release? ==> Queue(s.log) != [] && Queue(ReaderStep(md, s, a).log) == Queue(s.log)[1..]
    ensures !a.Release? ==> Queue(ReaderStep(md, s, a).log) == Queue(s.log)
  {
    ReaderFrame(md, s, a);
    QueueShrinks(s.log, ReaderStep(md, s, a).log);
  }

  lemma QueueShrinks(a: Log, b: Log)
    requires Ordered(a.published, |a.attempts|) && a.taken <= b.taken <= |a.published|
    requires b.attempts == a.attempts && b.published == a.published
    ensures Queue(b) == Queue(a)[b.taken - a.taken..]
    ensures b.taken == a.taken ==> Queue(b) == Queue(a)
  {
    var d := b.taken - a.taken;
    forall i | 0 <= i < |Queue(b)|
      ensures Queue(b)[i] == Queue(a)[d + i]
    {
      assert Sent(b, b.taken + i) == Sent(a, a.taken + d + i);
    }
  }

  // ---- Progress ----------------------------------------------------------------

  /** Once await_data has found a message, the next `read` finds one too, whatever the writer
      does in between. */
  lemma AwaitIsStable(md: Medium, s: State, acts: seq<Action>)
    requires Enabled(md, s, ByReader(ProbePost))
    requires (forall i :: 0 <= i < |acts| ==> acts[i].ByWriter?)
    requires CanRun(Machine(md), Apply(md, s, ByReader(ProbePost)), acts)
    ensures var t := After(Machine(md), Apply(md, s, ByReader(ProbePost)), acts);
            Enabled(md, t, ByReader(TakeMessage)) && !Enabled(md, t, ByReader(FindEmpty))
  {
    WriterOnlyAdds(md, Apply(md, s, ByReader(ProbePost)), acts);
  }

  lemma {:induction false} WriterOnlyAdds(md: Medium, s: State, acts: seq<Action>)
    requires CanRun(Machine(md), s, acts)
    requires forall i :: 0 <= i < |acts| ==> acts[i].ByWriter?
    ensures After(Machine(md), s, acts).r == s.r
    ensures After(Machine(md), s, acts).readerSem >= s.readerSem
    decreases |acts|
  {
    if acts != [] {
      assert acts[0].ByWriter?;
      assert Apply(md, s, acts[0]) == WriterStep(md, s, acts[0].wa);
      WriterOnlyAdds(md, Apply(md, s, acts[0]), acts[1..]);
    }
  }

  /** Nothing is under way and nothing is left to read. */
  ghost predicate Quiescent(s: State)
  {
    s.w.pc.Outside? && s.r.pc.Away? && s.log.taken == |s.log.published|
  }

  /** A step that brings a message further: neither a new call, nor a probe, nor a failure. */
  predicate Advances(a: Action)
  {
    match a
    case ByWriter(wa) => wa.TakeSlot? || wa.PutByte? || wa.Publish?
    case ByReader(ra) => ra.TakeMessage? || ra.GetByte? || ra.Release? || ra.Decode?
  }

  /** A step that can be taken whenever not all is done. */
  function NextStep(s: State): Action
  {
    match s.w.pc
    case Filling(k) =>
      ByWriter(if s.log.attempts != [] && k < |Frame(Current(s.log))| then PutByte else Publish)
    case _ =>
      match s.r.pc
      case Copying(k) =>
        ByReader(if k == BUFFER_SIZE || Address(s.r.offset, k) >= |s.bytes| then Release else GetByte)
      case Decoding => ByReader(Decode)
      case Probing => ByReader(ProbePost)
      case Away => if s.readerSem > 0 then ByReader(TakeMessage) else ByWriter(TakeSlot)
  }

  /** The processes never block each other: unless all is done, some step that advances a
      message is possible, at the latest after await_data has put its token back. */
  lemma NeverStuck(md: Medium, s: State)
    requires Inv(md, s) && !Quiescent(s)
    ensures Enabled(md, s, NextStep(s))
    ensures Advances(NextStep(s)) || (s.r.pc.Probing? && NextStep(s) == ByReader(ProbePost))
  {
    if s.r.pc.Decoding? {
      FrameRoundTrip(Sent(s.log, s.log.taken - 1), s.r.buffer);
    }
  }

  const READ_COST := 531   // take, 528 bytes, release, decode
  const WRITE_COST := 1061 // take a slot, 528 bytes, publish, and then be read

  /** An upper bound on the steps that the messages in the ring can still take. */
  ghost function Work(s: State): (n: int)
    requires Tokens(s)
  {
    (match s.w.pc
     case Outside => 0
     case Ready => WRITE_COST
     case Filling(k) => WRITE_COST - 1 - k)
    + (|s.log.published| - s.log.taken) * READ_COST
    + (match s.r.pc
       case Copying(k) => -1 - k
       case Decoding => 1
       case _ => 0)
  }

  lemma WorkIsNatural(md: Medium, s: State)
    requires Inv(md, s)
    ensures Work(s) >= 0
  {
    if s.w.pc.Filling? {
      FrameBound(Current(s.log));
    }
    assert s.r.pc.Copying? ==> |s.log.published| - s.log.taken >= 1;
  }

  /** How much a step may add to the work: a call brings a message, a failed read undoes a copy. */
  function Credit(a: Action): nat
  {
    match a
    case ByWriter(Call(_, _)) => WRITE_COST + 1
    case ByReader(FailGet) => BUFFER_SIZE + 2
    case _ => 0
  }

  function Charge(a: Action): nat { if IsProbe(a) then 0 else 1 }

  /** Every step other than a probe strictly decreases the work, up to its credit. */
  lemma WorkDecreases(md: Medium, s: State, a: Action)
    requires Inv(md, s) && Enabled(md, s, a)
    ensures Tokens(Apply(md, s, a))
    ensures Work(Apply(md, s, a)) + Charge(a) <= Work(s) + Credit(a)
    ensures !IsProbe(a) && !(a.ByWriter? && a.wa.Call?) && a != ByReader(FailGet) ==>
              Work(Apply(md, s, a)) < Work(s)
  {
    match a
    case ByWriter(wa) => WriterWork(md, s, wa);
    case ByReader(ra) => ReaderWork(md, s, ra);
  }

  lemma WriterWork(md: Medium, s: State, a: WriterAction)
    requires Inv(md, s) && WriterEnabled(md, s, a)
    ensures Tokens(WriterStep(md, s, a))
    ensures Work(WriterStep(md, s, a)) + 1 <= Work(s) + Credit(ByWriter(a))
  {
    WriterKeepsTokens(md, s, a);
    if s.w.pc.Filling? {
      FrameBound(Current(s.log));
    }
    match a
    case Call(_, _) =>
    case FailSeek =>
    case FailWait =>
    case TakeSlot =>
    case PutByte =>
    case FailPut =>
    case Publish =>
  }

  lemma ReaderWork(md: Medium, s: State, a: ReaderAction)
    requires Inv(md, s) && ReaderEnabled(md, s, a)
    ensures Tokens(ReaderStep(md, s, a))
    ensures Work(ReaderStep(md, s, a)) + Charge(ByReader(a)) <= Work(s) + Credit(ByReader(a))
  {
    ReaderKeepsTokens(md, s, a);
  }

  ghost function Charges(acts: seq<Action>): nat
  {
    if acts == [] then 0 else Charge(acts[0]) + Charges(acts[1..])
  }

  ghost function Credits(acts: seq<Action>): nat
  {
    if acts == [] then 0 else Credit(acts[0]) + Credits(acts[1..])
  }

  /** In every run the steps that are not probes are bounded by the calls and failed reads in
      it: no interleaving keeps the processes busy for nothing. */
  lemma {:induction false} RunsAreBounded(md: Medium, s: State, acts: seq<Action>)
    requires Inv(md, s) && CanRun(Machine(md), s, acts)
    ensures Charges(acts) <= Work(s) + Credits(acts)
    decreases |acts|
  {
    if acts == [] {
      WorkIsNatural(md, s);
    } else {
      WorkDecreases(md, s, acts[0]);
      InvKept(md, s, acts[0]);
      RunsAreBounded(md, Apply(md, s, acts[0]), acts[1..]);
    }
  }

  /** Work, and the token that await_data still has to put back. */
  ghost function Remaining(md: Medium, s: State): (n: nat)
    requires Inv(md, s)
  {
    WorkIsNatural(md, s);
    Work(s) + if s.r.pc.Probing? then 1 else 0
  }

  lemma ProbeEnds(md: Medium, s: State)
    requires Tokens(s) && Enabled(md, s, ByReader(ProbePost))
    ensures var t := Apply(md, s, ByReader(ProbePost)); Tokens(t) && Work(t) == Work(s) && t.r.pc.Away?
  {
  }

  lemma AdvanceKeepsAway(md: Medium, s: State, a: Action)
    requires Enabled(md, s, a) && Advances(a)
    ensures Apply(md, s, a).r.pc.Probing? == s.r.pc.Probing?
  {
  }

  lemma ChargeOfAdvance(a: Action)
    requires Advances(a)
    ensures Charge(a) == 1 && Credit(a) == 0
  {
  }

  lemma WorkFalls(md: Medium, s: State, a: Action)
    requires Inv(md, s) && Enabled(md, s, a) && Advances(a)
    ensures Tokens(Apply(md, s, a)) && Work(Apply(md, s, a)) < Work(s)
  {
    ChargeOfAdvance(a);
    WorkDecreases(md, s, a);
  }

  lemma RemainingDecreases(md: Medium, s: State, a: Action)
    requires Inv(md, s) && Enabled(md, s, a) && (Advances(a) || a == ByReader(ProbePost))
    ensures Inv(md, Apply(md, s, a)) && Remaining(md, Apply(md, s, a)) < Remaining(md, s)
  {
    InvKept(md, s, a);
    if a == ByReader(ProbePost) {
      ProbeEnds(md, s);
    } else {
      WorkFalls(md, s, a);
      AdvanceKeepsAway(md, s, a);
    }
  }

  /** From every state a run of at most Work(s) + 1 steps, without new calls and failures, completes
      all that is under way and reads all that is written. */
  lemma {:induction false} CanAlwaysFinish(md: Medium, s: State) returns (acts: seq<Action>)
    requires Inv(md, s)
    ensures CanRun(Machine(md), s, acts) && Quiescent(After(Machine(md), s, acts))
    ensures |acts| <= Remaining(md, s) <= Work(s) + 1
    ensures forall i :: 0 <= i < |acts| ==> Advances(acts[i]) || acts[i] == ByReader(ProbePost)
    decreases Remaining(md, s)
  {
    if Quiescent(s) {
      acts := [];
    } else {
      var a := NextStep(s);
      NeverStuck(md, s);
      RemainingDecreases(md, s, a);
      var rest := CanAlwaysFinish(md, Apply(md, s, a));
      Prepend(Machine(md), s, a, rest);
      acts := [a] + rest;
    }
  }

  lemma FinishingKeeps(md: Medium, s: State, a: Action)
    requires Enabled(md, s, a) && (Advances(a) || a == ByReader(ProbePost))
    ensures Apply(md, s, a).log.failed == s.log.failed && Apply(md, s, a).log.attempts == s.log.attempts
  {
    if a.ByReader? {
      ReaderFrame(md, s, a.ra);
    }
  }

  lemma {:induction false} FinishingFailsNothing(md: Medium, s: State, acts: seq<Action>)
    requires CanRun(Machine(md), s, acts)
    requires forall i :: 0 <= i < |acts| ==> Advances(acts[i]) || acts[i] == ByReader(ProbePost)
    ensures After(Machine(md), s, acts).log.failed == s.log.failed
    ensures After(Machine(md), s, acts).log.attempts == s.log.attempts
    decreases |acts|
  {
    if acts != [] {
      assert Advances(acts[0]) || acts[0] == ByReader(ProbePost);
      FinishingKeeps(md, s, acts[0]);
      FinishingFailsNothing(md, Apply(md, s, acts[0]), acts[1..]);
    }
  }

  /** Every run can be continued, without new calls, so that `read` has returned exactly the messages
      of the writes that did not fail, once and in order. */
  lemma EverythingCanArrive(md: Medium, start: State, acts: seq<Action>) returns (more: seq<Action>)
    requires Reachable(md, start, acts)
    ensures Reachable(md, start, acts + more)
    ensures var s, t := After(Machine(md), start, acts), After(Machine(md), start, acts + more);
            && t.log.attempts == Numbering(Accepted(acts)) && t.log.failed == s.log.failed
            && Ordered(t.log.published, |t.log.attempts|)
            && (forall p :: 0 <= p < |t.log.attempts| ==> (p in t.log.published <==> p !in s.log.failed))
            && |t.log.results| == |t.log.published|
            && forall i :: 0 <= i < |t.log.results| ==> t.log.results[i] == Ok(Sent(t.log, i))
  {
    var s := After(Machine(md), start, acts);
    InvAlways(md, start, acts);
    AttemptsAreTheCalls(md, start, acts);
    more := CanAlwaysFinish(md, s);
    FinishingFailsNothing(md, s, more);
    Compose(Machine(md), start, acts, more);
    ReadsArePrefixOfWrites(md, start, acts + more);
    InvAlways(md, start, acts + more);
  }

  lemma {:induction false} NoFailures(md: Medium, start: State, acts: seq<Action>)
    requires Reachable(md, start, acts)
    requires forall i :: 0 <= i < |acts| ==> !IsWriterFailure(acts[i])
    ensures After(Machine(md), start, acts).log.failed == []
    decreases |acts|
  {
    if acts != [] {
      var front, a := acts[..|acts| - 1], acts[|acts| - 1];
      assert acts == front + [a];
      Extend(Machine(md), start, front, a);
      assert forall i :: 0 <= i < |front| ==> front[i] == acts[i];
      NoFailures(md, start, front);
      if a.ByReader? {
        ReaderFrame(md, After(Machine(md), start, front), a.ra);
      }
    }
  }

  /** Strictly increasing positions that leave out none of 0..n are 0..n. */
  lemma {:induction false} AllOfThem(published: seq<nat>, n: nat)
    requires Ordered(published, n) && forall i :: 0 <= i < n ==> i in published
    ensures |published| == n
    ensures forall i :: 0 <= i < n ==> published[i] == i
  {
    if n == 0 {
      assert |published| == 0;
    } else {
      var last := |published| - 1;
      assert n - 1 in published;
      var p :| 0 <= p < |published| && published[p] == n - 1;
      assert published[last] <= n - 1;
      assert p == last;
      var front := published[..last];
      forall i | 0 <= i < n - 1
        ensures i in front
      {
        assert i in published;
        var q :| 0 <= q < |published| && published[q] == i;
        assert front[q] == i;
      }
      AllOfThem(front, n - 1);
    }
  }

  /** When a run without write failures has come to rest, `read` has returned every message that
      was written, once, in order, with ids 1, 2, 3, ... */
  lemma EverythingArrives(md: Medium, start: State, acts: seq<Action>)
    requires Reachable(md, start, acts) && Quiescent(After(Machine(md), start, acts))
    requires forall i :: 0 <= i < |acts| ==> !IsWriterFailure(acts[i])
    ensures var results := After(Machine(md), start, acts).log.results;
            var calls := Accepted(acts);
            && |results| == |calls|
            && forall i :: 0 <= i < |calls| ==>
                 && results[i].Ok? && results[i].value.body == calls[i].0
                 && results[i].value.header.timestamp == calls[i].1
                 && results[i].value.header.id == Counter(i + 1)
  {
    ReadsArePrefixOfWrites(md, start, acts);
    InvAlways(md, start, acts);
    NoFailures(md, start, acts);
    var s := After(Machine(md), start, acts);
    AllOfThem(s.log.published, |s.log.attempts|);
  }
}
