/** The two-semaphore ring of SharedMemory and SharedFile as a step system.

    One writer process and one reader process share 64 slots of 528 bytes and two
    counting semaphores. A step is one semaphore operation, one byte moved by memcpy or
    by the stream's read and write, or work on private data only; the two processes
    interleave freely between steps. */
module Ring {
  import opened Bytes
  import opened Codec
  import opened Transitions

  const SLOTS := 64
  const TOTAL_SIZE := 33792  // SLOTS * BUFFER_SIZE

  /** A mapping of fixed size, or a file that starts empty and grows and whose stream
      operations may fail. */
  datatype Medium = Memory | File

  type Buffer = s: seq<byte> | |s| == BUFFER_SIZE witness Zeros(BUFFER_SIZE)

  /** Where the writer is: outside `write`; with the frame in buffer_ but no token yet;
      holding a token of writer_ and having written `k` bytes of the frame. */
  datatype WriterPc = Outside | Ready | Filling(k: nat)

  /** Where the reader is: outside; between the wait and the post of `await_data`; holding
      a token of reader_ in `read` with `k` bytes copied; past the post of `read`, with
      buffer_ still to be decoded. */
  datatype ReaderPc = Away | Probing | Copying(k: nat) | Decoding

  datatype Writer = Writer(pc: WriterPc, offset: nat, lastId: u32)
  datatype Reader = Reader(pc: ReaderPc, offset: nat, buffer: Buffer)

  /** History, used to state what happened: every message that was given an id, the
      positions in `attempts` of those that were published and of those whose write failed
      after that, the number of messages the reader took out of the ring, and what `read`
      returned for them. */
  datatype Log = Log(attempts: seq<Message>, published: seq<nat>, failed: seq<nat>,
                     taken: nat, results: seq<Result<Message>>)

  datatype State = State(bytes: seq<byte>, readerSem: nat, writerSem: nat, w: Writer, r: Reader, log: Log)

  datatype WriterAction =
    | Call(o: Object, timestamp: i64)
    | FailSeek
    | FailWait
    | TakeSlot
    | PutByte
    | FailPut
    | Publish

  datatype ReaderAction =
    // read
    | FindEmpty
    | FailTryWait
    | TakeMessage
    | GetByte
    | FailGet
    | Release
    | Decode
    // await_data
    | ProbeTake
    | ProbePost
    | ProbeTimeout

  datatype Action = ByWriter(wa: WriterAction) | ByReader(ra: ReaderAction)

  predicate Initial(md: Medium, s: State)
  {
    && |s.bytes| == (if md.Memory? then TOTAL_SIZE else 0)
    && s.readerSem == 0
    && s.writerSem == SLOTS
    && s.w == Writer(Outside, 0, 0)
    && s.r.pc == Away && s.r.offset == 0
    && s.log == Log([], [], [], 0, [])
  }

  function Address(slot: nat, k: nat): nat
  {
    slot * BUFFER_SIZE + k
  }

  function Zeros(n: nat): (s: seq<byte>)
    ensures |s| == n
  {
    seq(n, _ => 0)
  }

  /** Writing one byte; past the end of a file the gap reads as zeros. */
  function Store(bytes: seq<byte>, at: nat, b: byte): (r: seq<byte>)
    ensures |r| == if at < |bytes| then |bytes| else at + 1
    ensures r[at] == b
    ensures forall i :: 0 <= i < |bytes| && i != at ==> r[i] == bytes[i]
  {
    if at < |bytes| then bytes[at := b] else bytes + Zeros(at - |bytes|) + [b]
  }

  /** The message the writer is working on. */
  function Current(log: Log): Message
    requires log.attempts != []
  {
    log.attempts[|log.attempts| - 1]
  }

  predicate WriterEnabled(md: Medium, s: State, a: WriterAction)
  {
    match a
    case Call(_, _) => s.w.pc.Outside?
    case FailSeek => s.w.pc.Ready? && s.log.attempts != [] && md.File?
    case FailWait => s.w.pc.Ready? && s.log.attempts != []
    case TakeSlot => s.w.pc.Ready? && s.writerSem > 0
    case PutByte => s.w.pc.Filling? && s.log.attempts != [] && s.w.pc.k < |Frame(Current(s.log))|
    case FailPut => s.w.pc.Filling? && s.log.attempts != [] && md.File?
    case Publish => s.w.pc.Filling? && s.log.attempts != [] && s.w.pc.k == |Frame(Current(s.log))|
  }

  /** `write` returns false after last_id_ was incremented. */
  function GiveUp(s: State): State
    requires s.log.attempts != []
  {
    s.(w := s.w.(pc := Outside), log := s.log.(failed := s.log.failed + [|s.log.attempts| - 1]))
  }

  function WriterStep(md: Medium, s: State, a: WriterAction): State
    requires WriterEnabled(md, s, a)
  {
    match a
    case Call(o, timestamp) =>
      if Fits(o) then
        var id := Increment(s.w.lastId);
        s.(w := s.w.(pc := Ready, lastId := id),
           log := s.log.(attempts := s.log.attempts + [MakeMessage(id, o, timestamp)]))
      else s
    case FailSeek => GiveUp(s)
    case FailWait => GiveUp(s)
    case TakeSlot => s.(writerSem := s.writerSem - 1, w := s.w.(pc := Filling(0)))
    case PutByte =>
      s.(bytes := Store(s.bytes, Address(s.w.offset, s.w.pc.k), Frame(Current(s.log))[s.w.pc.k]),
         w := s.w.(pc := Filling(s.w.pc.k + 1)))
    case FailPut => GiveUp(s).(writerSem := s.writerSem + 1)
    case Publish =>
      s.(readerSem := s.readerSem + 1,
         w := s.w.(pc := Outside, offset := (s.w.offset + 1) % SLOTS),
         log := s.log.(published := s.log.published + [|s.log.attempts| - 1]))
  }

  predicate ReaderEnabled(md: Medium, s: State, a: ReaderAction)
  {
    match a
    case FindEmpty => s.r.pc.Away? && s.readerSem == 0
    case FailTryWait => s.r.pc.Away?
    case TakeMessage => s.r.pc.Away? && s.readerSem > 0
    case GetByte =>
      s.r.pc.Copying? && s.r.pc.k < BUFFER_SIZE && Address(s.r.offset, s.r.pc.k) < |s.bytes|
    case FailGet => md.File? && s.r.pc.Copying?
    case Release =>
      s.r.pc.Copying? && (s.r.pc.k == BUFFER_SIZE || Address(s.r.offset, s.r.pc.k) >= |s.bytes|)
    case Decode =>
      s.r.pc.Decoding? && DecodeHeader(s.r.buffer[..HEADER_SIZE]).bodySize <= BODY_CAPACITY
    case ProbeTake => s.r.pc.Away? && s.readerSem > 0
    case ProbePost => s.r.pc.Probing?
    case ProbeTimeout => s.r.pc.Away?
  }

  function ReaderStep(md: Medium, s: State, a: ReaderAction): State
    requires ReaderEnabled(md, s, a)
  {
    match a
    case FindEmpty => s
    case FailTryWait => s
    case TakeMessage => s.(readerSem := s.readerSem - 1, r := s.r.(pc := Copying(0)))
    case GetByte =>
      s.(r := s.r.(pc := Copying(s.r.pc.k + 1),
                   buffer := s.r.buffer[s.r.pc.k := s.bytes[Address(s.r.offset, s.r.pc.k)]]))
    case FailGet => s.(readerSem := s.readerSem + 1, r := s.r.(pc := Away))
    case Release =>
      s.(writerSem := s.writerSem + 1,
         r := s.r.(pc := Decoding, offset := (s.r.offset + 1) % SLOTS),
         log := s.log.(taken := s.log.taken + 1))
    case Decode =>
      s.(r := s.r.(pc := Away), log := s.log.(results := s.log.results + [DecodeFrame(s.r.buffer)]))
    case ProbeTake => s.(readerSem := s.readerSem - 1, r := s.r.(pc := Probing))
    case ProbePost => s.(readerSem := s.readerSem + 1, r := s.r.(pc := Away))
    case ProbeTimeout => s
  }

  predicate Enabled(md: Medium, s: State, a: Action)
  {
    match a
    case ByWriter(wa) => WriterEnabled(md, s, wa)
    case ByReader(ra) => ReaderEnabled(md, s, ra)
  }

  /** The state after one step; an action that is not enabled changes nothing. */
  function Apply(md: Medium, s: State, a: Action): State
  {
    if !Enabled(md, s, a) then s else
    match a
    case ByWriter(wa) => WriterStep(md, s, wa)
    case ByReader(ra) => ReaderStep(md, s, ra)
  }

  function Machine(md: Medium): System<State, Action>
  {
    System((s, a) => Enabled(md, s, a), (s, a) => Apply(md, s, a))
  }

  /** Every state some interleaving of the two processes leads to. */
  ghost predicate Reachable(md: Medium, start: State, acts: seq<Action>)
  {
    Initial(md, start) && CanRun(Machine(md), start, acts)
  }

  predicate IsWriterFailure(a: Action)
  {
    a.ByWriter? && (a.wa.FailSeek? || a.wa.FailWait? || a.wa.FailPut?)
  }

  /** Steps that change nothing or only borrow a token: empty polls and await_data. */
  predicate IsProbe(a: Action)
  {
    a.ByReader? &&
    (a.ra.FindEmpty? || a.ra.FailTryWait? || a.ra.ProbeTake? || a.ra.ProbePost? || a.ra.ProbeTimeout?)
  }
}
