/** The handler classes. Each method updates the handler, the shared medium and the semaphores
    in place; its contract says that the change is the effect of a whole call on the ring, which
    RingCalls shows to be the run of the call's steps. */
module RingHandlers {
  import opened Integers
  import opened Bytes
  import opened Codec
  import opened CodecMethods
  import opened Ring
  import opened RingInvariant
  import opened RingCalls

  /** A call of `write` returns, or it waits in `sem_wait` with a frame of some length in buffer_. */
  datatype WriteOutcome = Returned(ok: bool) | Waiting(length: nat)

  /** The outcome of a call that has its id, from the state it leaves. */
  function OutcomeOf(u: State, fault: WriteFault, length: nat): WriteOutcome
  {
    if u.w.pc.Ready? then Waiting(length) else Returned(fault.NoWriteFault?)
  }

  /** A call of `await_data` returns true, or false after a timeout or an interruption, or still waits. */
  datatype AwaitOutcome = Found | GaveUp | StillWaiting

  class Semaphore {
    var value: nat

    constructor (value: nat)
      ensures this.value == value
    {
      this.value := value;
    }
  }

  /** One end of the ring over a memory mapping. */
  class SharedMemory {
    const address: array<byte>
    const reader: Semaphore
    const writer: Semaphore
    const buffer: array<byte>
    var isOpen: bool
    var offset: nat
    var lastId: u32

    ghost predicate Valid()
      reads this
    {
      && address.Length == TOTAL_SIZE && buffer.Length == BUFFER_SIZE && address != buffer
      && reader != writer && offset < SLOTS
    }

    /** A freshly opened handler on a mapping and the two semaphores. */
    constructor (address: array<byte>, reader: Semaphore, writer: Semaphore)
      requires address.Length == TOTAL_SIZE && reader != writer
      ensures Valid() && isOpen && offset == 0 && lastId == 0 && fresh(buffer)
      ensures this.address == address && this.reader == reader && this.writer == writer
    {
      this.address := address;
      this.reader := reader;
      this.writer := writer;
      this.buffer := new byte[BUFFER_SIZE](_ => 0);
      this.isOpen := true;
      this.offset := 0;
      this.lastId := 0;
    }

    /** `s` is a state of the ring with this handler as its idle writer. */
    ghost predicate Writes(s: State)
      reads this, address, reader, writer
    {
      && address[..] == s.bytes && reader.value == s.readerSem && writer.value == s.writerSem
      && s.w == Writer(Outside, offset, lastId)
    }

    /** `s` is a state of the ring with this handler as its idle reader. */
    ghost predicate Reads(s: State)
      reads this, address, reader, writer, buffer
    {
      && address[..] == s.bytes && reader.value == s.readerSem && writer.value == s.writerSem
      && s.r.pc == Away && s.r.offset == offset && s.r.buffer == buffer[..]
    }

    /** `t` is a state of the ring with this handler as its writer, in a call of `write` that is about
        to wait for a slot, its frame in buffer_. */
    ghost predicate Waits(t: State)
      reads this, address, reader, writer, buffer
    {
      && address[..] == t.bytes && reader.value == t.readerSem && writer.value == t.writerSem
      && t.w == Writer(Ready, offset, lastId) && t.log.attempts != []
      && |Frame(Current(t.log))| <= buffer.Length && buffer[..|Frame(Current(t.log))|] == Frame(Current(t.log))
    }

    ghost predicate IsWriter(u: State)
      reads this, address, reader, writer, buffer
    {
      if u.w.pc.Ready? then Waits(u) else Writes(u)
    }

    /** SharedMemory::write, until it returns or waits in `sem_wait`. */
    method Write(o: Object, timestamp: i64, interrupted: bool, ghost s: State) returns (outcome: WriteOutcome)
      requires Valid() && Writes(s)
      modifies this`offset, this`lastId, address, buffer, reader, writer
      ensures Valid() && isOpen == old(isOpen)
      ensures !isOpen || !Fits(o) ==> outcome == Returned(false) && Writes(s)
      ensures isOpen && Fits(o) ==>
                var fault := if interrupted then WaitFails else NoWriteFault;
                var u := WriteEffect(s, o, timestamp, fault);
                IsWriter(u) && outcome == OutcomeOf(u, fault, |Frame(Built(s, o, timestamp))|)
      ensures outcome == Returned(true) <==> isOpen && Fits(o) && !interrupted && old(writer.value) > 0
      ensures outcome.Waiting? <==> isOpen && Fits(o) && !interrupted && old(writer.value) == 0
    {
      if !isOpen {
        return Returned(false);
      }
      var size := BuildFrame(o, Increment(lastId), timestamp, buffer);
      if size == -1 {
        return Returned(false);
      }
      lastId := Increment(lastId);
      outcome := Finish(HEADER_SIZE + size, interrupted, Begun(s, o, timestamp));
    }

    /** `write` from `sem_wait` on: right after it has built the frame, or when it has waited. */
    method Finish(length: nat, interrupted: bool, ghost t: State) returns (outcome: WriteOutcome)
      requires Valid() && Waits(t) && length == |Frame(Current(t.log))|
      modifies this`offset, address, reader, writer
      ensures Valid()
      ensures var fault := if interrupted then WaitFails else NoWriteFault;
              var u := FinishEffect(t, fault);
              IsWriter(u) && outcome == OutcomeOf(u, fault, length)
      ensures outcome == Returned(true) <==> !interrupted && old(writer.value) > 0
      ensures outcome.Waiting? <==> !interrupted && old(writer.value) == 0
    {
      if interrupted {
        return Returned(false);
      }
      if writer.value == 0 {
        return Waiting(length);
      }
      EffectOfFinish(t, NoWriteFault);
      ghost var f := Frame(Current(t.log));
      assert f[..Done(t, NoWriteFault, |f|)] == f;
      Transfer(length, t.bytes, f);
      outcome := Returned(true);
    }

    /** From the return of `sem_wait` to `sem_post`. */
    method Transfer(length: nat, ghost bytes: seq<byte>, ghost f: seq<byte>)
      requires Valid() && length <= BUFFER_SIZE && writer.value > 0
      requires address[..] == bytes && buffer[..length] == f
      modifies this`offset, address, reader, writer
      ensures Valid()
      ensures address[..] == StoreAll(bytes, Address(old(offset), 0), f)
      ensures reader.value == old(reader.value) + 1 && writer.value == old(writer.value) - 1
      ensures offset == (old(offset) + 1) % SLOTS
    {
      writer.value := writer.value - 1;
      CopyToSlot(length);
      offset := (offset + 1) % SLOTS;
      reader.value := reader.value + 1;
    }

    /** memcpy of the first `length` bytes of buffer_ into the current slot. */
    method CopyToSlot(length: nat)
      requires Valid() && length <= BUFFER_SIZE
      modifies address
      ensures address[..] == StoreAll(old(address[..]), Address(offset, 0), buffer[..length])
    {
      ghost var before, f := address[..], buffer[..length];
      var k := 0;
      while k < length
        invariant 0 <= k <= length
        invariant buffer[..length] == f
        invariant address[..] == StoreAll(before, Address(offset, 0), f[..k])
      {
        StoreAllNext(before, Address(offset, 0), f, k);
        address[offset * BUFFER_SIZE + k] := buffer[k];
        k := k + 1;
      }
      assert f[..length] == f;
    }

    /** SharedMemory::read. The assertion on the body size is a requirement here; it holds in
        every state the two processes can reach. */
    method Read(interrupted: bool, ghost s: State) returns (result: Result<Message>)
      requires Valid() && Reads(s)
      requires isOpen && !interrupted ==> Sound(s, NoReadFault)
      modifies this`offset, buffer, reader, writer
      ensures Valid() && isOpen == old(isOpen)
      ensures !isOpen ==> result == Err(ConnectionClosed) && Reads(s)
      ensures isOpen && interrupted ==> result == ReadResult(s, TryWaitFails) && Reads(ReadEffect(s, TryWaitFails))
      ensures isOpen && !interrupted ==> result == ReadResult(s, NoReadFault) && Reads(ReadEffect(s, NoReadFault))
      ensures isOpen && interrupted ==> result == Err(ReadError)
      ensures isOpen && !interrupted && old(reader.value) == 0 ==> result == Err(NoDataAvailable)
    {
      if !isOpen {
        return Err(ConnectionClosed);
      }
      if interrupted {
        return Err(ReadError);
      }
      if reader.value == 0 {
        return Err(NoDataAvailable);
      }
      reader.value := reader.value - 1;
      CopyFromSlot();
      assert Available(|s.bytes|, s.r.offset) == BUFFER_SIZE;
      offset := (offset + 1) % SLOTS;
      writer.value := writer.value + 1;
      assert buffer[..HEADER_SIZE] == buffer[..][..HEADER_SIZE];
      result := ParseFrame(buffer);
    }

    /** memcpy of the current slot into buffer_. */
    method CopyFromSlot()
      requires Valid()
      modifies buffer
      ensures buffer[..] == Filled(old(buffer[..]), address[..], offset, BUFFER_SIZE)
    {
      ghost var before, bytes := buffer[..], address[..];
      var k := 0;
      while k < BUFFER_SIZE
        invariant 0 <= k <= BUFFER_SIZE
        invariant address[..] == bytes
        invariant buffer[..] == Filled(before, bytes, offset, k)
      {
        FilledNext(before, bytes, offset, k);
        buffer[k] := address[offset * BUFFER_SIZE + k];
        k := k + 1;
      }
    }

    /** SharedMemory::await_data: a token is taken and put back. A call that still waits goes on like a new
        one, in the state that the writer has made of the ring by then. */
    method AwaitData(givesUp: bool, ghost s: State) returns (outcome: AwaitOutcome)
      requires Valid() && Reads(s) && Inv(Memory, s)
      modifies reader
      ensures Valid() && Reads(s)
      ensures outcome == GaveUp <==> !isOpen || givesUp
      ensures isOpen && !givesUp ==> (outcome == Found <==> s.log.taken < |s.log.published|)
      ensures outcome == Found ==> NextReadReturnsOldest(s)
    {
      if !isOpen || givesUp {
        return GaveUp;
      }
      TokenIffUnread(Memory, s);
      if reader.value == 0 {
        return StillWaiting;
      }
      ReadReturnsNext(Memory, s);
      reader.value := reader.value - 1;
      reader.value := reader.value + 1;
      outcome := Found;
    }

    /** SharedMemory::has_data; `fails` is a failing `sem_getvalue`. */
    method HasData(fails: bool, ghost s: State) returns (found: bool)
      requires Valid() && Reads(s) && Inv(Memory, s)
      ensures found <==> isOpen && !fails && s.log.taken < |s.log.published|
      ensures found ==> NextReadReturnsOldest(s)
    {
      TokenIffUnread(Memory, s);
      if isOpen && !fails && reader.value > 0 {
        ReadReturnsNext(Memory, s);
        return true;
      }
      found := false;
    }
  }

  class FileContent {
    var bytes: seq<byte>

    constructor ()
      ensures bytes == []
    {
      bytes := [];
    }
  }

  /** One end of the ring over a file, reached through a stream whose operations may fail. */
  class SharedFile {
    const file: FileContent
    const reader: Semaphore
    const writer: Semaphore
    const buffer: array<byte>
    var isOpen: bool
    var offset: nat
    var lastId: u32

    ghost predicate Valid()
      reads this
    {
      buffer.Length == BUFFER_SIZE && reader != writer && offset < SLOTS
    }

    /** A freshly opened handler on a file and the two semaphores. */
    constructor (file: FileContent, reader: Semaphore, writer: Semaphore)
      requires reader != writer
      ensures Valid() && isOpen && offset == 0 && lastId == 0 && fresh(buffer)
      ensures this.file == file && this.reader == reader && this.writer == writer
    {
      this.file := file;
      this.reader := reader;
      this.writer := writer;
      this.buffer := new byte[BUFFER_SIZE](_ => 0);
      this.isOpen := true;
      this.offset := 0;
      this.lastId := 0;
    }

    /** `s` is a state of the ring with this handler as its idle writer. */
    ghost predicate Writes(s: State)
      reads this, file, reader, writer
    {
      && file.bytes == s.bytes && reader.value == s.readerSem && writer.value == s.writerSem
      && s.w == Writer(Outside, offset, lastId)
    }

    /** `s` is a state of the ring with this handler as its idle reader. */
    ghost predicate Reads(s: State)
      reads this, file, reader, writer, buffer
    {
      && file.bytes == s.bytes && reader.value == s.readerSem && writer.value == s.writerSem
      && s.r.pc == Away && s.r.offset == offset && s.r.buffer == buffer[..]
    }

    /** `t` is a state of the ring with this handler as its writer, in a call of `write` that is about
        to seek or wait for a slot, its frame in buffer_. */
    ghost predicate Waits(t: State)
      reads this, file, reader, writer, buffer
    {
      && file.bytes == t.bytes && reader.value == t.readerSem && writer.value == t.writerSem
      && t.w == Writer(Ready, offset, lastId) && t.log.attempts != []
      && |Frame(Current(t.log))| <= buffer.Length && buffer[..|Frame(Current(t.log))|] == Frame(Current(t.log))
    }

    ghost predicate IsWriter(u: State)
      reads this, file, reader, writer, buffer
    {
      if u.w.pc.Ready? then Waits(u) else Writes(u)
    }

    /** SharedFile::write, until it returns or waits in `sem_wait`. */
    method Write(o: Object, timestamp: i64, fault: WriteFault, ghost s: State) returns (outcome: WriteOutcome)
      requires Valid() && Writes(s)
      modifies this`offset, this`lastId, file, buffer, reader, writer
      ensures Valid() && isOpen == old(isOpen)
      ensures !isOpen || !Fits(o) ==> outcome == Returned(false) && Writes(s)
      ensures isOpen && Fits(o) ==>
                var u := WriteEffect(s, o, timestamp, fault);
                IsWriter(u) && outcome == OutcomeOf(u, fault, |Frame(Built(s, o, timestamp))|)
      ensures outcome == Returned(true) <==> isOpen && Fits(o) && fault.NoWriteFault? && old(writer.value) > 0
      ensures outcome.Waiting? <==>
              isOpen && Fits(o) && !fault.SeekFails? && !fault.WaitFails? && old(writer.value) == 0
    {
      if !isOpen {
        return Returned(false);
      }
      var size := BuildFrame(o, Increment(lastId), timestamp, buffer);
      if size == -1 {
        return Returned(false);
      }
      lastId := Increment(lastId);
      outcome := Finish(HEADER_SIZE + size, fault, Begun(s, o, timestamp));
    }

    /** `write` from the use of the frame on: right after it has been built, or when the call has
        waited, and then without another seek. */
    method Finish(length: nat, fault: WriteFault, ghost t: State) returns (outcome: WriteOutcome)
      requires Valid() && Waits(t) && length == |Frame(Current(t.log))|
      modifies this`offset, file, reader, writer
      ensures Valid()
      ensures IsWriter(FinishEffect(t, fault)) && outcome == OutcomeOf(FinishEffect(t, fault), fault, length)
      ensures outcome == Returned(true) <==> fault.NoWriteFault? && old(writer.value) > 0
      ensures outcome.Waiting? <==> !fault.SeekFails? && !fault.WaitFails? && old(writer.value) == 0
    {
      if fault.SeekFails? || fault.WaitFails? {
        return Returned(false);
      }
      if writer.value == 0 {
        return Waiting(length);
      }
      EffectOfFinish(t, fault);
      Transfer(length, fault, t, Frame(Current(t.log)));
      outcome := Returned(fault.NoWriteFault?);
    }

    /** From the return of `sem_wait` on; a failed write of the stream gives the token back. */
    method Transfer(length: nat, fault: WriteFault, ghost t: State, ghost f: seq<byte>)
      requires Valid() && length == |f| <= BUFFER_SIZE && buffer[..length] == f
      requires (fault.NoWriteFault? || fault.PutFails?) && writer.value > 0 && writer.value == t.writerSem
      modifies this`offset, file, reader, writer
      ensures Valid()
      ensures file.bytes == StoreAll(old(file.bytes), Address(old(offset), 0), f[..Done(t, fault, |f|)])
      ensures reader.value == old(reader.value) + (if fault.NoWriteFault? then 1 else 0)
      ensures writer.value == old(writer.value) - (if fault.NoWriteFault? then 1 else 0)
      ensures offset == if fault.NoWriteFault? then (old(offset) + 1) % SLOTS else old(offset)
    {
      var n := if fault.PutFails? then Min(fault.after, length) else length;
      assert buffer[..n] == f[..n];
      writer.value := writer.value - 1;
      PutBytes(n);
      if fault.PutFails? {
        writer.value := writer.value + 1;
        return;
      }
      offset := (offset + 1) % SLOTS;
      reader.value := reader.value + 1;
    }

    /** The stream's write of the first `n` bytes of buffer_, extending the file where needed. */
    method PutBytes(n: nat)
      requires Valid() && n <= BUFFER_SIZE
      modifies file
      ensures file.bytes == StoreAll(old(file.bytes), Address(offset, 0), buffer[..n])
    {
      ghost var before, f := file.bytes, buffer[..n];
      var k := 0;
      while k < n
        invariant 0 <= k <= n
        invariant file.bytes == StoreAll(before, Address(offset, 0), f[..k])
      {
        StoreAllNext(before, Address(offset, 0), f, k);
        file.bytes := Store(file.bytes, Address(offset, k), buffer[k]);
        k := k + 1;
      }
      assert f[..n] == f;
    }

    /** SharedFile::read. The assertion on the body size is a requirement here; it holds in
        every state the two processes can reach. */
    method Read(fault: ReadFault, ghost s: State) returns (result: Result<Message>)
      requires Valid() && Reads(s)
      requires isOpen ==> Sound(s, fault)
      modifies this`offset, buffer, reader, writer
      ensures Valid() && isOpen == old(isOpen)
      ensures !isOpen ==> result == Err(ConnectionClosed) && Reads(s)
      ensures isOpen ==> result == ReadResult(s, fault) && Reads(ReadEffect(s, fault))
      ensures isOpen && fault.TryWaitFails? ==> result == Err(ReadError)
      ensures isOpen && !fault.TryWaitFails? && old(reader.value) == 0 ==> result == Err(NoDataAvailable)
      ensures isOpen && fault.GetFails? && old(reader.value) > 0 ==> result == Err(ReadError)
    {
      if !isOpen {
        return Err(ConnectionClosed);
      }
      if fault.TryWaitFails? {
        return Err(ReadError);
      }
      if reader.value == 0 {
        return Err(NoDataAvailable);
      }
      reader.value := reader.value - 1;
      var n := Available(|file.bytes|, offset);
      if fault.GetFails? {
        CopyFromSlot(Min(fault.after, n));
        reader.value := reader.value + 1;
        return Err(ReadError);
      }
      CopyFromSlot(n);
      offset := (offset + 1) % SLOTS;
      writer.value := writer.value + 1;
      assert buffer[..HEADER_SIZE] == buffer[..][..HEADER_SIZE];
      result := ParseFrame(buffer);
    }

    /** The stream's read of a slot: the bytes behind the first `n` stay what they were. */
    method CopyFromSlot(n: nat)
      requires Valid() && n <= Available(|file.bytes|, offset)
      modifies buffer
      ensures buffer[..] == Filled(old(buffer[..]), file.bytes, offset, n)
    {
      ghost var before := buffer[..];
      assert before == Filled(before, file.bytes, offset, 0);
      var k := 0;
      while k < n
        invariant 0 <= k <= n
        invariant buffer[..] == Filled(before, file.bytes, offset, k)
      {
        FilledNext(before, file.bytes, offset, k);
        buffer[k] := file.bytes[Address(offset, k)];
        k := k + 1;
      }
    }

    /** SharedFile::await_data: a token is taken and put back. A call that still waits goes on like a new
        one, in the state that the writer has made of the ring by then. */
    method AwaitData(givesUp: bool, ghost s: State) returns (outcome: AwaitOutcome)
      requires Valid() && Reads(s) && Inv(File, s)
      modifies reader
      ensures Valid() && Reads(s)
      ensures outcome == GaveUp <==> !isOpen || givesUp
      ensures isOpen && !givesUp ==> (outcome == Found <==> s.log.taken < |s.log.published|)
      ensures outcome == Found ==> NextReadReturnsOldest(s)
    {
      if !isOpen || givesUp {
        return GaveUp;
      }
      TokenIffUnread(File, s);
      if reader.value == 0 {
        return StillWaiting;
      }
      ReadReturnsNext(File, s);
      reader.value := reader.value - 1;
      reader.value := reader.value + 1;
      outcome := Found;
    }

    /** SharedFile::has_data; `fails` is a failing `sem_getvalue`. */
    method HasData(fails: bool, ghost s: State) returns (found: bool)
      requires Valid() && Reads(s) && Inv(File, s)
      ensures found <==> isOpen && !fails && s.log.taken < |s.log.published|
      ensures found ==> NextReadReturnsOldest(s)
    {
      TokenIffUnread(File, s);
      if isOpen && !fails && reader.value > 0 {
        ReadReturnsNext(File, s);
        return true;
      }
      found := false;
    }
  }
}
