/** What every step of the ring keeps. */
module RingInvariant {
  import opened Bytes
  import opened Codec
  import opened Transitions
  import opened Ring

  /** The j-th published message. */
  function Sent(log: Log, j: nat): Message
    requires j < |log.published| && log.published[j] < |log.attempts|
  {
    log.attempts[log.published[j]]
  }

  function WriterHolds(s: State): nat { if s.w.pc.Filling? then 1 else 0 }

  function ReaderHolds(s: State): nat { if s.r.pc.Probing? || s.r.pc.Copying? then 1 else 0 }

  /** Both offsets follow the message counts modulo 64, and the values of the semaphores
      are the free and the filled slots up to the tokens in flight. */
  ghost predicate Tokens(s: State)
  {
    var W, R := |s.log.published|, s.log.taken;
    && R <= W <= R + SLOTS
    && s.w.offset == W % SLOTS
    && s.r.offset == R % SLOTS
    && s.readerSem + ReaderHolds(s) == W - R
    && s.writerSem + WriterHolds(s) + (W - R) == SLOTS
    && (s.r.pc.Copying? ==> s.r.pc.k <= BUFFER_SIZE)
  }

  /** The i-th accepted write carries id i + 1, wrapping around at 2^32. */
  ghost predicate GoodAttempts(attempts: seq<Message>)
  {
    forall i :: 0 <= i < |attempts| ==> WellFormed(attempts[i]) && attempts[i].header.id == Counter(i + 1)
  }

  /** Strictly increasing positions below n. */
  ghost predicate Ordered(published: seq<nat>, n: nat)
  {
    && (forall j :: 0 <= j < |published| ==> published[j] < n)
    && (forall i, j :: 0 <= i < j < |published| ==> published[i] < published[j])
  }

  /** Each of the first n attempts was either published or failed. */
  ghost predicate Accounted(published: seq<nat>, failed: seq<nat>, n: nat)
  {
    && (forall i :: 0 <= i < n ==> (i in published <==> i !in failed))
    && (forall j :: 0 <= j < |failed| ==> failed[j] < n)
  }

  /** Writes are numbered in order, and publication keeps the order. */
  ghost predicate Numbered(s: State)
  {
    var n := |s.log.attempts|;
    && s.w.lastId == Counter(n)
    && GoodAttempts(s.log.attempts)
    && (s.w.pc.Outside? ==> Ordered(s.log.published, n) && Accounted(s.log.published, s.log.failed, n))
    && (!s.w.pc.Outside? ==>
          n > 0 && Ordered(s.log.published, n - 1) && Accounted(s.log.published, s.log.failed, n - 1))
    && (s.w.pc.Filling? ==> s.w.pc.k <= |Frame(Current(s.log))|)
  }

  /** The medium holds `data` at the start of a slot. */
  ghost predicate Holds(bytes: seq<byte>, slot: nat, data: seq<byte>)
  {
    && Address(slot, |data|) <= |bytes|
    && forall k :: 0 <= k < |data| ==> bytes[Address(slot, k)] == data[k]
  }

  /** Every published and not yet taken message is in its slot. */
  ghost predicate InSlots(bytes: seq<byte>, log: Log)
    requires Ordered(log.published, |log.attempts|)
  {
    forall j :: log.taken <= j < |log.published| ==> Holds(bytes, j % SLOTS, Frame(Sent(log, j)))
  }

  /** Every unread message is in its slot, and the part of the current frame already
      written is in the slot after them. */
  ghost predicate Stored(md: Medium, s: State)
    requires Numbered(s)
  {
    && |s.bytes| <= TOTAL_SIZE
    && (md.Memory? ==> |s.bytes| == TOTAL_SIZE)
    && InSlots(s.bytes, s.log)
    && (s.w.pc.Filling? ==>
          0 == s.w.pc.k || Holds(s.bytes, s.w.offset, Frame(Current(s.log))[..s.w.pc.k]))
  }

  /** The buffer has the first `k` bytes of the frame, as far as the frame goes. */
  ghost predicate Agrees(buffer: Buffer, frame: seq<byte>, k: nat)
  {
    forall i :: 0 <= i < k && i < |frame| && i < BUFFER_SIZE ==> buffer[i] == frame[i]
  }

  /** The reader's buffer has the bytes of the message being copied that were reached so far. */
  ghost predicate Copied(s: State)
    requires Numbered(s) && Tokens(s)
  {
    && (s.r.pc.Copying? ==> Agrees(s.r.buffer, Frame(Sent(s.log, s.log.taken)), s.r.pc.k))
    && (s.r.pc.Decoding? ==> s.log.taken > 0 && Frame(Sent(s.log, s.log.taken - 1)) <= s.r.buffer)
  }

  /** `results` are the published messages from the first on, in order and unchanged. */
  ghost predicate AreSent(results: seq<Result<Message>>, log: Log)
  {
    && |results| <= |log.published|
    && forall i :: 0 <= i < |results| ==>
                     log.published[i] < |log.attempts| && results[i] == Ok(Sent(log, i))
  }

  /** What `read` returned so far. */
  ghost predicate Delivered(s: State)
  {
    && |s.log.results| + (if s.r.pc.Decoding? then 1 else 0) == s.log.taken
    && AreSent(s.log.results, s.log)
  }

  ghost predicate Inv(md: Medium, s: State)
  {
    Tokens(s) && Numbered(s) && Stored(md, s) && Copied(s) && Delivered(s)
  }

  lemma InitialInv(md: Medium, s: State)
    requires Initial(md, s)
    ensures Inv(md, s)
  {
  }

  // ---- Steps of the writer --------------------------------------------------

  lemma NextSlot(n: nat)
    ensures (n % SLOTS + 1) % SLOTS == (n + 1) % SLOTS
  {
  }

  lemma WriterKeepsTokens(md: Medium, s: State, a: WriterAction)
    requires Tokens(s) && WriterEnabled(md, s, a)
    ensures Tokens(WriterStep(md, s, a))
  {
    NextSlot(|s.log.published|);
    match a
    case Call(_, _) =>
    case FailSeek =>
    case FailWait =>
    case TakeSlot =>
    case PutByte =>
    case FailPut =>
    case Publish =>
  }

  lemma AttemptNumbered(attempts: seq<Message>, lastId: u32, o: Object, timestamp: i64)
    requires GoodAttempts(attempts) && lastId == Counter(|attempts|) && Fits(o)
    ensures GoodAttempts(attempts + [MakeMessage(Increment(lastId), o, timestamp)])
  {
    MadeMessagesAreWellFormed(Increment(lastId), o, timestamp);
    var m, n := MakeMessage(Increment(lastId), o, timestamp), |attempts|;
    assert Counter(n + 1) == Increment(Counter(n));
    forall i | 0 <= i < n + 1
      ensures WellFormed((attempts + [m])[i]) && (attempts + [m])[i].header.id == Counter(i + 1)
    {
      assert i < n ==> (attempts + [m])[i] == attempts[i];
    }
  }

  lemma PublishAccounted(published: seq<nat>, failed: seq<nat>, n: nat)
    requires Ordered(published, n) && Accounted(published, failed, n)
    ensures Ordered(published + [n], n + 1) && Accounted(published + [n], failed, n + 1)
  {
    forall i | 0 <= i < n + 1
      ensures i in published + [n] <==> i !in failed
    {
    }
  }

  lemma FailureAccounted(published: seq<nat>, failed: seq<nat>, n: nat)
    requires Ordered(published, n) && Accounted(published, failed, n)
    ensures Ordered(published, n + 1) && Accounted(published, failed + [n], n + 1)
  {
    forall i | 0 <= i < n + 1
      ensures i in published <==> i !in failed + [n]
    {
    }
  }

  lemma WriterKeepsNumbers(md: Medium, s: State, a: WriterAction)
    requires Numbered(s) && WriterEnabled(md, s, a)
    ensures Numbered(WriterStep(md, s, a))
  {
    var t := WriterStep(md, s, a);
    match a
    case Call(o, timestamp) =>
      if Fits(o) {
        AttemptNumbered(s.log.attempts, s.w.lastId, o, timestamp);
      }
    case Publish => PublishAccounted(s.log.published, s.log.failed, |s.log.attempts| - 1);
    case FailSeek => FailureAccounted(s.log.published, s.log.failed, |s.log.attempts| - 1);
    case FailWait => FailureAccounted(s.log.published, s.log.failed, |s.log.attempts| - 1);
    case FailPut => FailureAccounted(s.log.published, s.log.failed, |s.log.attempts| - 1);
    case TakeSlot =>
    case PutByte =>
  }

  /** The writer only appends to the log. */
  ghost predicate Grew(a: Log, b: Log)
  {
    a.attempts <= b.attempts && a.published <= b.published && a.taken == b.taken && a.results == b.results
  }

  lemma WriterGrows(md: Medium, s: State, a: WriterAction)
    requires WriterEnabled(md, s, a)
    ensures Grew(s.log, WriterStep(md, s, a).log) && WriterStep(md, s, a).r == s.r
  {
  }

  /** Messages published before stay what they were. */
  lemma SentKept(a: Log, b: Log, j: nat)
    requires Grew(a, b) && j < |a.published| && a.published[j] < |a.attempts|
    ensures j < |b.published| && b.published[j] < |b.attempts| && Sent(b, j) == Sent(a, j)
  {
    assert b.published[j] == b.published[..|a.published|][j];
  }

  /** Two positions less than 64 apart lie in different slots. */
  lemma DifferentSlots(i: nat, j: nat)
    requires i < j < i + SLOTS
    ensures i % SLOTS != j % SLOTS
  {
  }

  /** A byte written into one slot leaves the others alone. */
  lemma StoreElsewhere(bytes: seq<byte>, slot: nat, k: nat, b: byte, other: nat, data: seq<byte>)
    requires Holds(bytes, other, data) && slot != other && k < BUFFER_SIZE && |data| <= BUFFER_SIZE
    ensures Holds(Store(bytes, Address(slot, k), b), other, data)
  {
    var r := Store(bytes, Address(slot, k), b);
    forall i | 0 <= i < |data|
      ensures r[Address(other, i)] == data[i]
    {
      assert Address(other, i) != Address(slot, k);
    }
  }

  /** The next byte written into a slot extends what it holds. */
  lemma StoreNext(bytes: seq<byte>, slot: nat, data: seq<byte>, k: nat)
    requires k < |data| && (k == 0 || Holds(bytes, slot, data[..k]))
    ensures Holds(Store(bytes, Address(slot, k), data[k]), slot, data[..k + 1])
  {
    var r := Store(bytes, Address(slot, k), data[k]);
    forall i | 0 <= i < k + 1
      ensures r[Address(slot, i)] == data[i]
    {
      if i < k {
        assert bytes[Address(slot, i)] == data[..k][i];
      }
    }
  }

  lemma FrameBound(m: Message)
    requires WellFormed(m)
    ensures HEADER_SIZE <= |Frame(m)| <= BUFFER_SIZE
  {
  }

  lemma PutKeepsSlots(bytes: seq<byte>, log: Log, k: nat, b: byte)
    requires GoodAttempts(log.attempts) && Ordered(log.published, |log.attempts|) && InSlots(bytes, log)
    requires |log.published| < log.taken + SLOTS && k < BUFFER_SIZE
    ensures InSlots(Store(bytes, Address(|log.published| % SLOTS, k), b), log)
  {
    var W := |log.published|;
    forall j | log.taken <= j < W
      ensures Holds(Store(bytes, Address(W % SLOTS, k), b), j % SLOTS, Frame(Sent(log, j)))
    {
      DifferentSlots(j, W);
      FrameBound(Sent(log, j));
      StoreElsewhere(bytes, W % SLOTS, k, b, j % SLOTS, Frame(Sent(log, j)));
    }
  }

  lemma PutKeepsStored(md: Medium, s: State)
    requires Tokens(s) && Numbered(s) && Stored(md, s) && WriterEnabled(md, s, PutByte)
    requires Numbered(WriterStep(md, s, PutByte))
    ensures Stored(md, WriterStep(md, s, PutByte))
  {
    var k, f := s.w.pc.k, Frame(Current(s.log));
    FrameBound(Current(s.log));
    PutKeepsSlots(s.bytes, s.log, k, f[k]);
    StoreNext(s.bytes, s.w.offset, f, k);
    assert Address(s.w.offset, k) < TOTAL_SIZE;
  }

  /** Publishing adds the current frame, which the slot after the others holds. */
  lemma PublishKeepsSlots(bytes: seq<byte>, a: Log, b: Log)
    requires a.attempts != [] && Ordered(a.published, |a.attempts|) && InSlots(bytes, a)
    requires b == a.(published := a.published + [|a.attempts| - 1]) && Ordered(b.published, |b.attempts|)
    requires Holds(bytes, |a.published| % SLOTS, Frame(Current(a)))
    ensures InSlots(bytes, b)
  {
    forall j | b.taken <= j < |b.published|
      ensures Holds(bytes, j % SLOTS, Frame(Sent(b, j)))
    {
      if j < |a.published| {
        assert Sent(b, j) == Sent(a, j);
      } else {
        assert Sent(b, j) == Current(a);
      }
    }
  }

  lemma PublishKeepsStored(md: Medium, s: State)
    requires Tokens(s) && Numbered(s) && Stored(md, s) && WriterEnabled(md, s, Publish)
    requires Numbered(WriterStep(md, s, Publish))
    ensures Stored(md, WriterStep(md, s, Publish))
  {
    var f := Frame(Current(s.log));
    assert f[..|f|] == f;
    PublishKeepsSlots(s.bytes, s.log, WriterStep(md, s, Publish).log);
  }

  /** Appending attempts without publishing, or taking messages, changes no unread message. */
  lemma SlotsUntouched(bytes: seq<byte>, a: Log, b: Log)
    requires Ordered(a.published, |a.attempts|) && InSlots(bytes, a)
    requires a.attempts <= b.attempts && b.published == a.published && a.taken <= b.taken
    ensures Ordered(b.published, |b.attempts|) && InSlots(bytes, b)
  {
    forall j | b.taken <= j < |b.published|
      ensures Holds(bytes, j % SLOTS, Frame(Sent(b, j)))
    {
      assert Sent(b, j) == Sent(a, j);
    }
  }

  lemma WriterKeepsStored(md: Medium, s: State, a: WriterAction)
    requires Tokens(s) && Numbered(s) && Stored(md, s) && WriterEnabled(md, s, a)
    requires Numbered(WriterStep(md, s, a))
    ensures Stored(md, WriterStep(md, s, a))
  {
    if a.PutByte? {
      PutKeepsStored(md, s);
    } else if a.Publish? {
      PublishKeepsStored(md, s);
    } else {
      WriterGrows(md, s, a);
      SlotsUntouched(s.bytes, s.log, WriterStep(md, s, a).log);
    }
  }

  lemma ReaderSideUntouched(s: State, t: State)
    requires Tokens(s) && Numbered(s) && Copied(s) && Delivered(s)
    requires Tokens(t) && Numbered(t) && Grew(s.log, t.log) && t.r == s.r
    ensures Copied(t) && Delivered(t)
  {
    if s.r.pc.Copying? {
      SentKept(s.log, t.log, s.log.taken);
    }
    if s.r.pc.Decoding? {
      SentKept(s.log, t.log, s.log.taken - 1);
    }
    forall i | 0 <= i < |t.log.results|
      ensures t.log.published[i] < |t.log.attempts| && t.log.results[i] == Ok(Sent(t.log, i))
    {
      SentKept(s.log, t.log, i);
    }
  }

  lemma WriterKeepsInv(md: Medium, s: State, a: WriterAction)
    requires Inv(md, s) && WriterEnabled(md, s, a)
    ensures Inv(md, WriterStep(md, s, a))
  {
    WriterKeepsTokens(md, s, a);
    WriterKeepsNumbers(md, s, a);
    WriterKeepsStored(md, s, a);
    WriterGrows(md, s, a);
    ReaderSideUntouched(s, WriterStep(md, s, a));
  }

  // ---- Steps of the reader --------------------------------------------------

  /** The reader leaves the medium and the writer's side of the log alone. */
  lemma ReaderFrame(md: Medium, s: State, a: ReaderAction)
    requires ReaderEnabled(md, s, a)
    ensures ReaderStep(md, s, a).bytes == s.bytes && ReaderStep(md, s, a).w == s.w
    ensures ReaderStep(md, s, a).log.attempts == s.log.attempts
    ensures ReaderStep(md, s, a).log.published == s.log.published
    ensures ReaderStep(md, s, a).log.failed == s.log.failed
    ensures ReaderStep(md, s, a).log.taken >= s.log.taken
  {
  }

  lemma ReaderKeepsTokens(md: Medium, s: State, a: ReaderAction)
    requires Tokens(s) && ReaderEnabled(md, s, a)
    ensures Tokens(ReaderStep(md, s, a))
  {
    NextSlot(s.log.taken);
  }

  /** The message the reader holds a token for is in its slot. */
  lemma CopiedSlot(md: Medium, s: State)
    requires Inv(md, s) && s.r.pc.Copying?
    ensures Holds(s.bytes, s.r.offset, Frame(Sent(s.log, s.log.taken)))
    ensures |Frame(Sent(s.log, s.log.taken))| <= BUFFER_SIZE
  {
    FrameBound(Sent(s.log, s.log.taken));
  }

  lemma ReaderKeepsCopied(md: Medium, s: State, a: ReaderAction)
    requires Inv(md, s) && ReaderEnabled(md, s, a)
    requires Tokens(ReaderStep(md, s, a)) && Numbered(ReaderStep(md, s, a))
    ensures Copied(ReaderStep(md, s, a))
  {
    ReaderFrame(md, s, a);
    var t := ReaderStep(md, s, a);
    match a
    case GetByte => CopiedSlot(md, s);
    case Release =>
      CopiedSlot(md, s);
      var f := Frame(Sent(s.log, s.log.taken));
      assert s.r.pc.k >= |f|;
      assert f <= t.r.buffer;
    case _ =>
  }

  lemma ReaderKeepsDelivered(md: Medium, s: State, a: ReaderAction)
    requires Tokens(s) && Numbered(s) && Copied(s) && Delivered(s) && ReaderEnabled(md, s, a)
    ensures Delivered(ReaderStep(md, s, a))
  {
    ReaderFrame(md, s, a);
    var t := ReaderStep(md, s, a);
    if a.Decode? {
      var m := Sent(s.log, s.log.taken - 1);
      FrameRoundTrip(m, s.r.buffer);
      assert t.log.results == s.log.results + [Ok(m)];
    } else {
      assert t.log.results == s.log.results;
    }
  }

  lemma ReaderKeepsInv(md: Medium, s: State, a: ReaderAction)
    requires Inv(md, s) && ReaderEnabled(md, s, a)
    ensures Inv(md, ReaderStep(md, s, a))
  {
    ReaderFrame(md, s, a);
    ReaderKeepsTokens(md, s, a);
    assert Numbered(ReaderStep(md, s, a));
    ReaderKeepsCopied(md, s, a);
    ReaderKeepsDelivered(md, s, a);
    SlotsUntouched(s.bytes, s.log, ReaderStep(md, s, a).log);
  }

  // ---- Every run ------------------------------------------------------------

  lemma InvKept(md: Medium, s: State, a: Action)
    requires Inv(md, s) && Enabled(md, s, a)
    ensures Inv(md, Apply(md, s, a))
  {
    match a
    case ByWriter(wa) => WriterKeepsInv(md, s, wa);
    case ByReader(ra) => ReaderKeepsInv(md, s, ra);
  }

  lemma InvRun(md: Medium, start: State, acts: seq<Action>)
    requires Inv(md, start) && CanRun(Machine(md), start, acts)
    ensures Inv(md, After(Machine(md), start, acts))
  {
    forall s, a | Inv(md, s) && Machine(md).enabled(s, a)
      ensures Inv(md, Machine(md).apply(s, a))
    {
      InvKept(md, s, a);
    }
    Always(Machine(md), s => Inv(md, s), start, acts);
  }

  lemma InvAlways(md: Medium, start: State, acts: seq<Action>)
    requires Reachable(md, start, acts)
    ensures Inv(md, After(Machine(md), start, acts))
  {
    InitialInv(md, start);
    InvRun(md, start, acts);
  }
}
