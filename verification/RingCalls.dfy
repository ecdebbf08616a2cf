/** Whole calls of `write` and `read`, when the other process does not interfere: the steps they
    consist of, and their combined effect. */
module RingCalls {
  import opened Integers
  import opened Bytes
  import opened Codec
  import opened Transitions
  import opened Ring
  import opened RingInvariant

  /** What the system calls of one call report. */
  datatype WriteFault = NoWriteFault | SeekFails | WaitFails | PutFails(after: nat)

  datatype ReadFault = NoReadFault | TryWaitFails | GetFails(after: nat)

  function Repeat(a: Action, n: nat): (s: seq<Action>)
    ensures |s| == n
  {
    if n == 0 then [] else Repeat(a, n - 1) + [a]
  }

  // ---- write -------------------------------------------------------------------

  /** `data` stored from `at` on. */
  function StoreAll(bytes: seq<byte>, at: nat, data: seq<byte>): (r: seq<byte>)
    ensures |r| == if data == [] || at + |data| <= |bytes| then |bytes| else at + |data|
  {
    if data == [] then bytes
    else Store(StoreAll(bytes, at, data[..|data| - 1]), at + |data| - 1, data[|data| - 1])
  }

  lemma StoreAllNext(bytes: seq<byte>, at: nat, data: seq<byte>, k: nat)
    requires k < |data|
    ensures StoreAll(bytes, at, data[..k + 1]) == Store(StoreAll(bytes, at, data[..k]), at + k, data[k])
  {
    assert data[..k + 1][..k] == data[..k];
  }

  /** The message a call of `write` builds. */
  function Built(s: State, o: Object, timestamp: i64): Message
  {
    MakeMessage(Increment(s.w.lastId), o, timestamp)
  }

  /** The call has its id. */
  function Begun(s: State, o: Object, timestamp: i64): State
  {
    s.(w := s.w.(pc := Ready, lastId := Increment(s.w.lastId)),
       log := s.log.(attempts := s.log.attempts + [Built(s, o, timestamp)]))
  }

  /** The writer of `s` holds a token and has written `k` bytes of `m`. */
  function Partly(s: State, m: Message, k: nat): State
    requires k <= |Frame(m)| && s.writerSem > 0
  {
    s.(bytes := StoreAll(s.bytes, Address(s.w.offset, 0), Frame(m)[..k]),
       writerSem := s.writerSem - 1,
       w := s.w.(pc := Filling(k)))
  }

  /** The call is at `sem_wait` and there is no token for it. */
  predicate MustWait(t: State, fault: WriteFault)
  {
    !fault.SeekFails? && !fault.WaitFails? && t.writerSem == 0
  }

  /** How much of an n-byte frame a call writes. */
  function Done(t: State, fault: WriteFault, n: nat): (d: nat)
    ensures d <= n
  {
    if t.writerSem == 0 then 0 else
    match fault
    case NoWriteFault => n
    case PutFails(k) => Min(k, n)
    case _ => 0
  }

  /** What a call does from a state in which it has its id: it completes, fails, or waits. */
  function FinishSteps(t: State, fault: WriteFault): seq<Action>
    requires t.log.attempts != []
  {
    if MustWait(t, fault) then [] else
    match fault
    case SeekFails => [ByWriter(FailSeek)]
    case WaitFails => [ByWriter(FailWait)]
    case _ =>
      [ByWriter(TakeSlot)] + Repeat(ByWriter(PutByte), Done(t, fault, |Frame(Current(t.log))|))
      + [ByWriter(if fault.NoWriteFault? then Publish else FailPut)]
  }

  function FinishEffect(t: State, fault: WriteFault): State
    requires t.log.attempts != []
  {
    if MustWait(t, fault) then t
    else if fault.SeekFails? || fault.WaitFails? then GiveUp(t)
    else
      var p := Partly(t, Current(t.log), Done(t, fault, |Frame(Current(t.log))|));
      if fault.PutFails? then GiveUp(p).(writerSem := t.writerSem)
      else p.(readerSem := t.readerSem + 1,
              w := Writer(Outside, (t.w.offset + 1) % SLOTS, t.w.lastId),
              log := t.log.(published := t.log.published + [|t.log.attempts| - 1]))
  }

  /** The steps of one call of `write`, as far as it gets. */
  function WriteSteps(s: State, o: Object, timestamp: i64, fault: WriteFault): seq<Action>
  {
    [ByWriter(Call(o, timestamp))] + if Fits(o) then FinishSteps(Begun(s, o, timestamp), fault) else []
  }

  /** The state in which a call of `write` leaves the ring, returned or waiting. */
  function WriteEffect(s: State, o: Object, timestamp: i64, fault: WriteFault): State
  {
    if Fits(o) then FinishEffect(Begun(s, o, timestamp), fault) else s
  }

  /** The effect on the medium, the semaphores and the handler. */
  lemma EffectOfFinish(t: State, fault: WriteFault)
    requires t.log.attempts != []
    ensures var f, u := Frame(Current(t.log)), FinishEffect(t, fault);
            var advance := if fault.NoWriteFault? && t.writerSem > 0 then 1 else 0;
            && u.bytes == StoreAll(t.bytes, Address(t.w.offset, 0), f[..Done(t, fault, |f|)])
            && u.readerSem == t.readerSem + advance && u.writerSem == t.writerSem - advance
            && u.w.lastId == t.w.lastId && u.r == t.r
            && u.w.pc == (if MustWait(t, fault) then t.w.pc else Outside)
            && u.w.offset == if advance == 1 then (t.w.offset + 1) % SLOTS else t.w.offset
  {
  }

  lemma StoredNext(s: State, m: Message, k: nat)
    requires k < |Frame(m)| && s.writerSem > 0
    ensures Partly(s, m, k + 1).bytes == Store(Partly(s, m, k).bytes, Address(s.w.offset, k), Frame(m)[k])
  {
    StoreAllNext(s.bytes, Address(s.w.offset, 0), Frame(m), k);
  }

  lemma PutAdvances(md: Medium, s: State, m: Message, k: nat)
    requires s.w.pc.Ready? && s.writerSem > 0 && s.log.attempts != [] && m == Current(s.log)
    requires k < |Frame(m)|
    ensures Enabled(md, Partly(s, m, k), ByWriter(PutByte))
    ensures Apply(md, Partly(s, m, k), ByWriter(PutByte)) == Partly(s, m, k + 1)
  {
    StoredNext(s, m, k);
  }

  lemma {:induction false} PutsStore(md: Medium, s: State, m: Message, k: nat)
    requires s.w.pc.Ready? && s.writerSem > 0 && s.log.attempts != [] && m == Current(s.log)
    requires k <= |Frame(m)|
    ensures CanRun(Machine(md), Partly(s, m, 0), Repeat(ByWriter(PutByte), k))
    ensures After(Machine(md), Partly(s, m, 0), Repeat(ByWriter(PutByte), k)) == Partly(s, m, k)
    decreases k
  {
    if k > 0 {
      PutsStore(md, s, m, k - 1);
      PutAdvances(md, s, m, k - 1);
      Extend(Machine(md), Partly(s, m, 0), Repeat(ByWriter(PutByte), k - 1), ByWriter(PutByte));
    }
  }

  /** A single step as a run. */
  lemma Single(md: Medium, s: State, a: Action)
    requires Enabled(md, s, a)
    ensures CanRun(Machine(md), s, [a]) && After(Machine(md), s, [a]) == Apply(md, s, a)
  {
    Prepend(Machine(md), s, a, []);
    assert [a] + [] == [a];
  }

  lemma TakeSlotStarts(md: Medium, t: State)
    requires t.w.pc.Ready? && t.writerSem > 0 && t.log.attempts != []
    ensures Apply(md, t, ByWriter(TakeSlot)) == Partly(t, Current(t.log), 0)
  {
    assert Frame(Current(t.log))[..0] == [];
  }

  /** From the token to the k-th byte. */
  lemma FillPrefix(md: Medium, t: State, k: nat)
    requires t.w.pc.Ready? && t.writerSem > 0 && t.log.attempts != [] && k <= |Frame(Current(t.log))|
    ensures var acts := [ByWriter(TakeSlot)] + Repeat(ByWriter(PutByte), k);
            CanRun(Machine(md), t, acts) && After(Machine(md), t, acts) == Partly(t, Current(t.log), k)
  {
    TakeSlotStarts(md, t);
    PutsStore(md, t, Current(t.log), k);
    Prepend(Machine(md), t, ByWriter(TakeSlot), Repeat(ByWriter(PutByte), k));
  }

  /** And to the last step of a write. */
  lemma FillRun(md: Medium, t: State, k: nat, last: WriterAction)
    requires t.w.pc.Ready? && t.writerSem > 0 && t.log.attempts != [] && k <= |Frame(Current(t.log))|
    requires WriterEnabled(md, Partly(t, Current(t.log), k), last)
    ensures var acts := [ByWriter(TakeSlot)] + Repeat(ByWriter(PutByte), k) + [ByWriter(last)];
            && CanRun(Machine(md), t, acts)
            && After(Machine(md), t, acts) == WriterStep(md, Partly(t, Current(t.log), k), last)
  {
    FillPrefix(md, t, k);
    Extend(Machine(md), t, [ByWriter(TakeSlot)] + Repeat(ByWriter(PutByte), k), ByWriter(last));
  }

  lemma PublishEnds(md: Medium, t: State)
    requires t.log.attempts != [] && t.writerSem > 0
    ensures var p := Partly(t, Current(t.log), |Frame(Current(t.log))|);
            WriterEnabled(md, p, Publish) && WriterStep(md, p, Publish) == FinishEffect(t, NoWriteFault)
  {
  }

  lemma FailPutEnds(t: State, fault: WriteFault)
    requires t.log.attempts != [] && t.writerSem > 0 && fault.PutFails?
    ensures var p := Partly(t, Current(t.log), Done(t, fault, |Frame(Current(t.log))|));
            WriterEnabled(File, p, FailPut) && WriterStep(File, p, FailPut) == FinishEffect(t, fault)
  {
  }

  /** A call that has its id, undisturbed from there, is the run of its steps. */
  lemma FinishIsItsSteps(md: Medium, t: State, fault: WriteFault)
    requires t.w.pc.Ready? && t.log.attempts != [] && (md.File? || fault.NoWriteFault? || fault.WaitFails?)
    ensures CanRun(Machine(md), t, FinishSteps(t, fault))
    ensures After(Machine(md), t, FinishSteps(t, fault)) == FinishEffect(t, fault)
  {
    if fault.SeekFails? {
      Single(md, t, ByWriter(FailSeek));
    } else if fault.WaitFails? {
      Single(md, t, ByWriter(FailWait));
    } else if t.writerSem > 0 {
      if fault.NoWriteFault? {
        PublishEnds(md, t);
        FillRun(md, t, |Frame(Current(t.log))|, Publish);
      } else {
        FailPutEnds(t, fault);
        FillRun(md, t, Done(t, fault, |Frame(Current(t.log))|), FailPut);
      }
    }
  }

  /** An undisturbed call of `write` is the run of its steps. */
  lemma WriteIsItsSteps(md: Medium, s: State, o: Object, timestamp: i64, fault: WriteFault)
    requires s.w.pc.Outside? && (md.File? || fault.NoWriteFault? || fault.WaitFails?)
    ensures CanRun(Machine(md), s, WriteSteps(s, o, timestamp, fault))
    ensures After(Machine(md), s, WriteSteps(s, o, timestamp, fault)) == WriteEffect(s, o, timestamp, fault)
  {
    var call := ByWriter(Call(o, timestamp));
    if Fits(o) {
      assert Apply(md, s, call) == Begun(s, o, timestamp);
      FinishIsItsSteps(md, Begun(s, o, timestamp), fault);
      Prepend(Machine(md), s, call, FinishSteps(Begun(s, o, timestamp), fault));
    } else {
      Single(md, s, call);
      assert [call] + [] == [call];
    }
  }

  // ---- read ----------------------------------------------------------------------

  /** The bytes a read of a whole slot finds before the end of the medium. */
  function Available(length: nat, slot: nat): (n: nat)
    ensures n <= BUFFER_SIZE
  {
    if Address(slot, 0) >= length then 0 else Min(BUFFER_SIZE, length - Address(slot, 0))
  }

  /** The steps of one call of `read` in state `s`. */
  function ReadSteps(s: State, fault: ReadFault): seq<Action>
  {
    var n := Available(|s.bytes|, s.r.offset);
    if fault.TryWaitFails? then [ByReader(FailTryWait)]
    else if s.readerSem == 0 then [ByReader(FindEmpty)]
    else if fault.GetFails? then
      [ByReader(TakeMessage)] + Repeat(ByReader(GetByte), Min(fault.after, n)) + [ByReader(FailGet)]
    else
      [ByReader(TakeMessage)] + Repeat(ByReader(GetByte), n) + [ByReader(Release)] + [ByReader(Decode)]
  }

  /** The buffer after the first `k` bytes of a slot were read into it. */
  function Filled(buffer: Buffer, bytes: seq<byte>, slot: nat, k: nat): Buffer
    requires k <= Available(|bytes|, slot)
  {
    seq(BUFFER_SIZE, i requires 0 <= i < BUFFER_SIZE => if i < k then bytes[Address(slot, i)] else buffer[i])
  }

  /** The reader of `s` holds a token and has copied `k` bytes. */
  function PartlyRead(s: State, k: nat): State
    requires s.readerSem > 0 && k <= Available(|s.bytes|, s.r.offset)
  {
    s.(readerSem := s.readerSem - 1, r := s.r.(pc := Copying(k), buffer := Filled(s.r.buffer, s.bytes, s.r.offset, k)))
  }

  /** The body size found in the slot passes the assertion in `read`. */
  predicate Decodable(s: State)
  {
    var b := Filled(s.r.buffer, s.bytes, s.r.offset, Available(|s.bytes|, s.r.offset));
    DecodeHeader(b[..HEADER_SIZE]).bodySize <= BODY_CAPACITY
  }

  /** The call gets as far as decoding only what the assertion lets pass. */
  predicate Sound(s: State, fault: ReadFault)
  {
    fault.NoReadFault? && s.readerSem > 0 ==> Decodable(s)
  }

  /** What a call of `read` returns. */
  function ReadResult(s: State, fault: ReadFault): Result<Message>
    requires Sound(s, fault)
  {
    if fault.TryWaitFails? then Err(ReadError)
    else if s.readerSem == 0 then Err(NoDataAvailable)
    else if fault.GetFails? then Err(ReadError)
    else DecodeFrame(Filled(s.r.buffer, s.bytes, s.r.offset, Available(|s.bytes|, s.r.offset)))
  }

  /** The state in which a call of `read` leaves the ring. */
  function ReadEffect(s: State, fault: ReadFault): State
    requires Sound(s, fault)
  {
    var n := Available(|s.bytes|, s.r.offset);
    if fault.TryWaitFails? || s.readerSem == 0 then s
    else if fault.GetFails? then
      s.(r := s.r.(pc := Away, buffer := Filled(s.r.buffer, s.bytes, s.r.offset, Min(fault.after, n))))
    else
      s.(readerSem := s.readerSem - 1,
         writerSem := s.writerSem + 1,
         r := Reader(Away, (s.r.offset + 1) % SLOTS, Filled(s.r.buffer, s.bytes, s.r.offset, n)),
         log := s.log.(taken := s.log.taken + 1, results := s.log.results + [ReadResult(s, fault)]))
  }

  lemma FilledNext(buffer: Buffer, bytes: seq<byte>, slot: nat, k: nat)
    requires k < Available(|bytes|, slot)
    ensures Filled(buffer, bytes, slot, k + 1) == Filled(buffer, bytes, slot, k)[k := bytes[Address(slot, k)]]
  {
  }

  lemma {:induction false} GetsFill(md: Medium, s: State, k: nat)
    requires s.readerSem > 0 && k <= Available(|s.bytes|, s.r.offset)
    ensures CanRun(Machine(md), PartlyRead(s, 0), Repeat(ByReader(GetByte), k))
    ensures After(Machine(md), PartlyRead(s, 0), Repeat(ByReader(GetByte), k)) == PartlyRead(s, k)
    decreases k
  {
    if k > 0 {
      GetsFill(md, s, k - 1);
      Extend(Machine(md), PartlyRead(s, 0), Repeat(ByReader(GetByte), k - 1), ByReader(GetByte));
      FilledNext(s.r.buffer, s.bytes, s.r.offset, k - 1);
    }
  }

  /** From the token to the last step of a read. */
  lemma CopyRun(md: Medium, s: State, k: nat, last: ReaderAction)
    requires s.r.pc.Away? && s.readerSem > 0 && k <= Available(|s.bytes|, s.r.offset)
    requires ReaderEnabled(md, PartlyRead(s, k), last)
    ensures var acts := [ByReader(TakeMessage)] + Repeat(ByReader(GetByte), k) + [ByReader(last)];
            && CanRun(Machine(md), s, acts)
            && After(Machine(md), s, acts) == ReaderStep(md, PartlyRead(s, k), last)
  {
    assert Filled(s.r.buffer, s.bytes, s.r.offset, 0) == s.r.buffer;
    assert Apply(md, s, ByReader(TakeMessage)) == PartlyRead(s, 0);
    GetsFill(md, s, k);
    Prepend(Machine(md), s, ByReader(TakeMessage), Repeat(ByReader(GetByte), k));
    Extend(Machine(md), s, [ByReader(TakeMessage)] + Repeat(ByReader(GetByte), k), ByReader(last));
  }

  /** The reader has given the slot back and is about to decode. */
  function Received(s: State): State
    requires s.readerSem > 0
  {
    var n := Available(|s.bytes|, s.r.offset);
    s.(readerSem := s.readerSem - 1,
       writerSem := s.writerSem + 1,
       r := Reader(Decoding, (s.r.offset + 1) % SLOTS, Filled(s.r.buffer, s.bytes, s.r.offset, n)),
       log := s.log.(taken := s.log.taken + 1))
  }

  lemma ReceivingReleases(md: Medium, s: State)
    requires s.readerSem > 0
    ensures var t := PartlyRead(s, Available(|s.bytes|, s.r.offset));
            ReaderEnabled(md, t, Release) && ReaderStep(md, t, Release) == Received(s)
  {
  }

  lemma DecodingEnds(md: Medium, s: State)
    requires s.readerSem > 0 && Decodable(s)
    ensures ReaderEnabled(md, Received(s), Decode)
    ensures ReaderStep(md, Received(s), Decode) == ReadEffect(s, NoReadFault)
  {
  }

  lemma CompleteRead(md: Medium, s: State)
    requires s.r.pc.Away? && s.readerSem > 0 && Decodable(s)
    ensures CanRun(Machine(md), s, ReadSteps(s, NoReadFault))
    ensures After(Machine(md), s, ReadSteps(s, NoReadFault)) == ReadEffect(s, NoReadFault)
  {
    var n := Available(|s.bytes|, s.r.offset);
    ReceivingReleases(md, s);
    CopyRun(md, s, n, Release);
    var acts := [ByReader(TakeMessage)] + Repeat(ByReader(GetByte), n) + [ByReader(Release)];
    DecodingEnds(md, s);
    Extend(Machine(md), s, acts, ByReader(Decode));
  }

  lemma BrokenRead(s: State, k: nat)
    requires s.r.pc.Away? && s.readerSem > 0
    ensures CanRun(Machine(File), s, ReadSteps(s, GetFails(k)))
    ensures After(Machine(File), s, ReadSteps(s, GetFails(k))) == ReadEffect(s, GetFails(k))
  {
    CopyRun(File, s, Min(k, Available(|s.bytes|, s.r.offset)), FailGet);
  }

  /** An undisturbed call of `read` is the run of its steps. */
  lemma ReadIsItsSteps(md: Medium, s: State, fault: ReadFault)
    requires s.r.pc.Away? && (md.File? || !fault.GetFails?) && Sound(s, fault)
    ensures CanRun(Machine(md), s, ReadSteps(s, fault))
    ensures After(Machine(md), s, ReadSteps(s, fault)) == ReadEffect(s, fault)
  {
    if fault.TryWaitFails? {
      Single(md, s, ByReader(FailTryWait));
    } else if s.readerSem == 0 {
      Single(md, s, ByReader(FindEmpty));
    } else if fault.GetFails? {
      BrokenRead(s, fault.after);
    } else {
      CompleteRead(md, s);
    }
  }

  /** Between calls of the reader, its semaphore is up exactly when a message is unread. */
  lemma TokenIffUnread(md: Medium, s: State)
    requires Inv(md, s) && s.r.pc.Away?
    ensures s.readerSem > 0 <==> s.log.taken < |s.log.published|
  {
  }

  /** The next read completes soundly and returns the oldest unread message. */
  ghost predicate NextReadReturnsOldest(s: State)
  {
    && s.log.taken < |s.log.published| && s.log.published[s.log.taken] < |s.log.attempts|
    && Sound(s, NoReadFault)
    && ReadResult(s, NoReadFault) == Ok(Sent(s.log, s.log.taken))
  }

  /** A read that finds a token does so. */
  lemma ReadReturnsNext(md: Medium, s: State)
    requires Inv(md, s) && s.r.pc.Away? && s.readerSem > 0
    ensures NextReadReturnsOldest(s)
  {
    var m := Sent(s.log, s.log.taken);
    assert Holds(s.bytes, s.r.offset, Frame(m));
    FrameBound(m);
    var b := Filled(s.r.buffer, s.bytes, s.r.offset, Available(|s.bytes|, s.r.offset));
    assert Frame(m) <= b;
    FrameRoundTrip(m, b);
  }

  // ---- await_data -----------------------------------------------------------------

  /** await_data takes a token and puts it back, or waits in vain: either is a run that ends where it
      began. */
  lemma AwaitIsItsSteps(md: Medium, s: State)
    requires s.r.pc.Away?
    ensures var acts := if s.readerSem > 0 then [ByReader(ProbeTake), ByReader(ProbePost)]
                        else [ByReader(ProbeTimeout)];
            CanRun(Machine(md), s, acts) && After(Machine(md), s, acts) == s
  {
    if s.readerSem > 0 {
      var t := Apply(md, s, ByReader(ProbeTake));
      Single(md, t, ByReader(ProbePost));
      Prepend(Machine(md), s, ByReader(ProbeTake), [ByReader(ProbePost)]);
      assert [ByReader(ProbeTake)] + [ByReader(ProbePost)] == [ByReader(ProbeTake), ByReader(ProbePost)];
    } else {
      Single(md, s, ByReader(ProbeTimeout));
    }
  }
}
