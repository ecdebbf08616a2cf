/** The message format: a 16-byte header followed by a body whose layout depends
    on the type field (src/object, src/utility.cpp). */
module Codec {
  import opened Bytes

  const HEADER_SIZE := 16
  const BUFFER_SIZE := 528
  const BODY_CAPACITY := 512

  const INVALID: u16 := 0
  const PING: u16 := 1
  const JAVA_SYMBOL_LOOKUP: u16 := 2
  const BINARY_DATA: u16 := 3

  datatype Error = ConnectionClosed | NoDataAvailable | ReadError | InvalidHeader | InvalidData | UnknownData

  datatype Result<+T> = Ok(value: T) | Err(error: Error)

  datatype Header = Header(id: u32, kind: u16, bodySize: u16, timestamp: i64)

  datatype Object =
    | Ping
    | JavaSymbol(address: u64, length: u32, symbol: seq<byte>)
    | BinaryData(data: seq<byte>)

  datatype Message = Message(header: Header, body: Object)

  // ---- Header -----------------------------------------------------------

  function EncodeHeader(h: Header): (s: seq<byte>)
    ensures |s| == HEADER_SIZE
  {
    LittleEndian(h.id, 4) + LittleEndian(h.kind, 2) + LittleEndian(h.bodySize, 2)
    + LittleEndian(Unsigned(h.timestamp), 8)
  }

  function DecodeHeader(s: seq<byte>): (h: Header)
    requires |s| == HEADER_SIZE
  {
    WidthBounds(s[..4]);
    WidthBounds(s[4..6]);
    WidthBounds(s[6..8]);
    WidthBounds(s[8..]);
    Header(FromLittleEndian(s[..4]), FromLittleEndian(s[4..6]), FromLittleEndian(s[6..8]),
           Signed(FromLittleEndian(s[8..])))
  }

  /** The header codec is a bijection between headers and 16-byte sequences. */
  lemma HeaderBijection(h: Header, s: seq<byte>)
    requires |s| == HEADER_SIZE
    ensures EncodeHeader(h) == s <==> DecodeHeader(s) == h
  {
    HeaderRoundTrip(h);
    HeaderImage(s);
  }

  lemma HeaderRoundTrip(h: Header)
    ensures DecodeHeader(EncodeHeader(h)) == h
  {
    PowersOf256();
    var s := EncodeHeader(h);
    PrefixParts(LittleEndian(h.id, 4), LittleEndian(h.kind, 2), LittleEndian(h.bodySize, 2),
                LittleEndian(Unsigned(h.timestamp), 8), s);
    LittleEndianRoundTrip(h.id, 4);
    LittleEndianRoundTrip(h.kind, 2);
    LittleEndianRoundTrip(h.bodySize, 2);
    LittleEndianRoundTrip(Unsigned(h.timestamp), 8);
  }

  lemma HeaderImage(s: seq<byte>)
    requires |s| == HEADER_SIZE
    ensures EncodeHeader(DecodeHeader(s)) == s
  {
    FromLittleEndianRoundTrip(s[..4]);
    FromLittleEndianRoundTrip(s[4..6]);
    FromLittleEndianRoundTrip(s[6..8]);
    FromLittleEndianRoundTrip(s[8..]);
    assert s == s[..4] + s[4..6] + s[6..8] + s[8..];
  }

  /** Where the fields of a header are: id, type, body size and timestamp in 4, 2, 2 and 8 bytes. */
  lemma HeaderLayout(h: Header)
    ensures forall i :: 0 <= i < 4 ==> EncodeHeader(h)[i] == h.id / Pow256(i) % 256
    ensures forall i :: 0 <= i < 2 ==> EncodeHeader(h)[4 + i] == h.kind / Pow256(i) % 256
    ensures forall i :: 0 <= i < 2 ==> EncodeHeader(h)[6 + i] == h.bodySize / Pow256(i) % 256
    ensures forall i :: 0 <= i < 8 ==> EncodeHeader(h)[8 + i] == Unsigned(h.timestamp) / Pow256(i) % 256
  {
    forall i | 0 <= i < 4 ensures EncodeHeader(h)[i] == h.id / Pow256(i) % 256 {
      ByteOf(h.id, 4, i);
    }
    forall i | 0 <= i < 2 ensures EncodeHeader(h)[4 + i] == h.kind / Pow256(i) % 256 {
      ByteOf(h.kind, 2, i);
    }
    forall i | 0 <= i < 2 ensures EncodeHeader(h)[6 + i] == h.bodySize / Pow256(i) % 256 {
      ByteOf(h.bodySize, 2, i);
    }
    forall i | 0 <= i < 8 ensures EncodeHeader(h)[8 + i] == Unsigned(h.timestamp) / Pow256(i) % 256 {
      ByteOf(Unsigned(h.timestamp), 8, i);
    }
  }

  // ---- Bodies -----------------------------------------------------------

  function KindOf(o: Object): u16
  {
    match o
    case Ping => PING
    case JavaSymbol(_, _, _) => JAVA_SYMBOL_LOOKUP
    case BinaryData(_) => BINARY_DATA
  }

  /** The size of an object's encoding. */
  function BodySize(o: Object): nat
  {
    match o
    case Ping => 0
    case JavaSymbol(_, _, symbol) => 16 + |symbol|
    case BinaryData(data) => 4 + |data|
  }

  function EncodeBody(o: Object): (s: seq<byte>)
    ensures |s| == BodySize(o)
  {
    match o
    case Ping => []
    case JavaSymbol(address, length, symbol) =>
      LittleEndian(address, 8) + LittleEndian(length, 4) + LittleEndian(|symbol|, 4) + symbol
    case BinaryData(data) => LittleEndian(|data|, 4) + data
  }

  /** Where the fields of a symbol are: address, length and the length of the name in 8, 4 and 4 bytes,
      and then the name. */
  lemma JavaSymbolLayout(address: u64, length: u32, symbol: seq<byte>)
    ensures var s := EncodeBody(JavaSymbol(address, length, symbol));
            && |s| == 16 + |symbol| && s[16..] == symbol
            && (forall i :: 0 <= i < 8 ==> s[i] == address / Pow256(i) % 256)
            && (forall i :: 0 <= i < 4 ==> s[8 + i] == length / Pow256(i) % 256)
            && (forall i :: 0 <= i < 4 ==> s[12 + i] == |symbol| / Pow256(i) % 256)
  {
    var s := EncodeBody(JavaSymbol(address, length, symbol));
    forall i | 0 <= i < 8 ensures s[i] == address / Pow256(i) % 256 {
      ByteOf(address, 8, i);
    }
    forall i | 0 <= i < 4 ensures s[8 + i] == length / Pow256(i) % 256 {
      ByteOf(length, 4, i);
    }
    forall i | 0 <= i < 4 ensures s[12 + i] == |symbol| / Pow256(i) % 256 {
      ByteOf(|symbol|, 4, i);
    }
  }

  /** Binary data: its length in 4 bytes, then the data; and a ping has no body. */
  lemma BinaryDataLayout(data: seq<byte>)
    ensures var s := EncodeBody(BinaryData(data));
            && |s| == 4 + |data| && s[4..] == data
            && forall i :: 0 <= i < 4 ==> s[i] == |data| / Pow256(i) % 256
    ensures EncodeBody(Ping) == []
  {
    forall i | 0 <= i < 4 ensures EncodeBody(BinaryData(data))[i] == |data| / Pow256(i) % 256 {
      ByteOf(|data|, 4, i);
    }
  }

  function DecodeJavaSymbol(s: seq<byte>): Result<Object>
  {
    if |s| < 16 then Err(InvalidData) else
      WidthBounds(s[..8]);
      WidthBounds(s[8..12]);
      var n := FromLittleEndian(s[12..16]);
      if |s| < 16 + n then Err(InvalidData)
      else Ok(JavaSymbol(FromLittleEndian(s[..8]), FromLittleEndian(s[8..12]), s[16..16 + n]))
  }

  function DecodeBinaryData(s: seq<byte>): Result<Object>
  {
    if |s| < 4 then Err(InvalidData) else
      var n := FromLittleEndian(s[..4]);
      if |s| < 4 + n then Err(InvalidData) else Ok(BinaryData(s[4..4 + n]))
  }

  /** Dispatch on the type field (deserialize_data_object). */
  function DecodeBody(kind: u16, s: seq<byte>): Result<Object>
  {
    if kind == INVALID then Err(InvalidData)
    else if kind == PING then Ok(Ping)
    else if kind == JAVA_SYMBOL_LOOKUP then DecodeJavaSymbol(s)
    else if kind == BINARY_DATA then DecodeBinaryData(s)
    else Err(UnknownData)
  }

  /** Decoding finds exactly the objects whose encoding is a prefix of the bytes given:
      the round trip, its converse, and indifference to trailing bytes in one statement. */
  lemma DecodesExactly(kind: u16, s: seq<byte>, o: Object)
    requires |s| < U32
    ensures DecodeBody(kind, s) == Ok(o) <==> kind == KindOf(o) && EncodeBody(o) <= s
  {
    PowersOf256();
    match o
    case Ping =>
    case JavaSymbol(_, _, _) => JavaSymbolDecodesExactly(s, o);
    case BinaryData(_) => BinaryDataDecodesExactly(s, o);
  }

  /** The types are 1, 2 and 3. Decoding fails with greater ones as unknown; all else that fails is
      invalid, be it for the type 0 or for the bytes. */
  lemma DecodingOutcomes(kind: u16, s: seq<byte>)
    requires |s| < U32
    ensures DecodeBody(kind, s) == Err(UnknownData) <==> kind > 3
    ensures DecodeBody(kind, s) == Err(InvalidData) <==>
            kind <= 3 && forall o :: KindOf(o) == kind ==> !(EncodeBody(o) <= s)
    ensures match DecodeBody(kind, s)
            case Ok(Ping) => kind == 1
            case Ok(JavaSymbol(_, _, _)) => kind == 2
            case Ok(BinaryData(_)) => kind == 3
            case Err(e) => e in {InvalidData, UnknownData}
  {
    if DecodeBody(kind, s).Ok? {
      DecodesExactly(kind, s, DecodeBody(kind, s).value);
    } else {
      forall o | KindOf(o) == kind ensures !(EncodeBody(o) <= s) {
        DecodesExactly(kind, s, o);
      }
    }
  }

  lemma JavaSymbolDecodesExactly(s: seq<byte>, o: Object)
    requires o.JavaSymbol? && |s| < U32
    ensures DecodeJavaSymbol(s) == Ok(o) <==> EncodeBody(o) <= s
  {
    if EncodeBody(o) <= s {
      JavaSymbolRoundTrip(s, o);
    }
    if DecodeJavaSymbol(s) == Ok(o) {
      JavaSymbolImage(s, o);
    }
  }

  lemma JavaSymbolRoundTrip(s: seq<byte>, o: Object)
    requires o.JavaSymbol? && |s| < U32 && EncodeBody(o) <= s
    ensures DecodeJavaSymbol(s) == Ok(o)
  {
    PowersOf256();
    PrefixParts(LittleEndian(o.address, 8), LittleEndian(o.length, 4), LittleEndian(|o.symbol|, 4), o.symbol, s);
    LittleEndianRoundTrip(o.address, 8);
    LittleEndianRoundTrip(o.length, 4);
    LittleEndianRoundTrip(|o.symbol|, 4);
  }

  lemma JavaSymbolImage(s: seq<byte>, o: Object)
    requires DecodeJavaSymbol(s) == Ok(o)
    ensures EncodeBody(o) <= s
  {
    hide LittleEndian, FromLittleEndian;
    FromLittleEndianRoundTrip(s[..8]);
    FromLittleEndianRoundTrip(s[8..12]);
    FromLittleEndianRoundTrip(s[12..16]);
    assert LittleEndian(|o.symbol|, 4) == s[12..16];
    Slices(s, 8, 12, 16, 16 + |o.symbol|);
  }

  lemma Slices(s: seq<byte>, a: nat, b: nat, c: nat, d: nat)
    requires a <= b <= c <= d <= |s|
    ensures s[..a] + s[a..b] + s[b..c] + s[c..d] == s[..d]
  {
    assert s[..a] + s[a..b] == s[..b];
    assert s[..b] + s[b..c] == s[..c];
  }

  lemma BinaryDataDecodesExactly(s: seq<byte>, o: Object)
    requires o.BinaryData? && |s| < U32
    ensures DecodeBinaryData(s) == Ok(o) <==> EncodeBody(o) <= s
  {
    PowersOf256();
    if EncodeBody(o) <= s {
      var e := EncodeBody(o);
      assert s[..4] == e[..4] == LittleEndian(|o.data|, 4);
      LittleEndianRoundTrip(|o.data|, 4);
      assert s[4..4 + |o.data|] == e[4..] == o.data;
    }
    if DecodeBinaryData(s) == Ok(o) {
      FromLittleEndianRoundTrip(s[..4]);
      assert EncodeBody(o) == s[..4] + s[4..4 + |o.data|];
      assert EncodeBody(o) == s[..4 + |o.data|];
    }
  }

  // ---- Frames -----------------------------------------------------------

  /** The object fits the body part of a handler's buffer. */
  predicate Fits(o: Object)
  {
    BodySize(o) <= BODY_CAPACITY
  }

  /** The message a handler builds for `o`; the size goes through a uint16 parameter. */
  function MakeMessage(id: u32, o: Object, timestamp: i64): Message
  {
    Message(Header(id, KindOf(o), Low16(BodySize(o)), timestamp), o)
  }

  function Frame(m: Message): (s: seq<byte>)
    ensures |s| >= HEADER_SIZE
  {
    EncodeHeader(m.header) + EncodeBody(m.body)
  }

  /** A message whose header describes its object, as every handler's write builds it. */
  predicate WellFormed(m: Message)
  {
    && Fits(m.body)
    && m.header.kind == KindOf(m.body)
    && m.header.bodySize == BodySize(m.body)
  }

  /** A message carries the id, the object and the timestamp it was made of, and the type of the object. */
  lemma MadeMessageCarries(id: u32, o: Object, timestamp: i64)
    ensures var m := MakeMessage(id, o, timestamp);
            && m.body == o && m.header.id == id && m.header.timestamp == timestamp
            && m.header.kind == match o case Ping => 1 case JavaSymbol(_, _, _) => 2 case BinaryData(_) => 3
  {
  }

  /** What `read` makes of a header and the body bytes it announces. */
  function Interpret(h: Header, body: seq<byte>): Result<Message>
  {
    match DecodeBody(h.kind, body)
    case Ok(o) => Ok(Message(h, o))
    case Err(e) => Err(e)
  }

  /** A result carries its header, and an object decoded from the body; a failure is that of decoding. */
  lemma InterpretCarries(h: Header, body: seq<byte>, m: Message, e: Error)
    requires |body| < U32
    ensures Interpret(h, body) == Ok(m) <==> m.header == h && h.kind == KindOf(m.body) && EncodeBody(m.body) <= body
    ensures Interpret(h, body) == Err(e) <==> DecodeBody(h.kind, body) == Err(e)
  {
    DecodesExactly(h.kind, body, m.body);
  }

  /** Decoding a whole buffer: the header first, then the announced part of the rest. */
  function DecodeFrame(buffer: seq<byte>): Result<Message>
    requires |buffer| >= HEADER_SIZE
    requires HEADER_SIZE + DecodeHeader(buffer[..HEADER_SIZE]).bodySize <= |buffer|
  {
    var h := DecodeHeader(buffer[..HEADER_SIZE]);
    Interpret(h, buffer[HEADER_SIZE..HEADER_SIZE + h.bodySize])
  }

  /** The size field of any message holds the size modulo 2^16, so the size itself exactly below 2^16. */
  lemma SizeTruncates(id: u32, o: Object, timestamp: i64)
    ensures MakeMessage(id, o, timestamp).header.bodySize == |EncodeBody(o)| % U16
    ensures MakeMessage(id, o, timestamp).header.bodySize == |EncodeBody(o)| <==> |EncodeBody(o)| < U16
  {
    Low16IsModulo(BodySize(o));
  }

  /** With the 512-byte capacity the uint16 size never truncates. */
  lemma MadeMessagesAreWellFormed(id: u32, o: Object, timestamp: i64)
    requires Fits(o)
    ensures WellFormed(MakeMessage(id, o, timestamp))
    ensures 16 <= |Frame(MakeMessage(id, o, timestamp))| <= 528
  {
  }

  /** The messages a fresh handler builds for calls of write with some objects and timestamps:
      ids count from 1 and wrap around at 2^32. */
  function Numbering(calls: seq<(Object, i64)>): (r: seq<Message>)
    ensures |r| == |calls|
  {
    if calls == [] then [] else
      var n := |calls|;
      Numbering(calls[..n - 1]) + [MakeMessage(Counter(n), calls[n - 1].0, calls[n - 1].1)]
  }

  /** Message i carries the object and the timestamp of call i, and its number. */
  lemma {:induction false} NumberingAt(calls: seq<(Object, i64)>, i: nat)
    requires i < |calls|
    ensures Numbering(calls)[i].body == calls[i].0
    ensures Numbering(calls)[i].header.timestamp == calls[i].1
    ensures Numbering(calls)[i].header.id == Counter(i + 1)
    ensures Numbering(calls)[i].header.kind == KindOf(calls[i].0)
    decreases |calls|
  {
    if i < |calls| - 1 {
      NumberingAt(calls[..|calls| - 1], i);
    }
  }

  /** The next call of a handler whose last_id_ has kept count. */
  lemma NumberingNext(calls: seq<(Object, i64)>, call: (Object, i64), lastId: u32)
    requires lastId == Counter(|calls|)
    ensures Numbering(calls + [call]) == Numbering(calls) + [MakeMessage(Increment(lastId), call.0, call.1)]
    ensures Increment(lastId) == Counter(|calls + [call]|)
  {
    assert (calls + [call])[..|calls|] == calls;
  }

  /** A frame decodes to its message whatever bytes follow it in the buffer. */
  lemma FrameRoundTrip(m: Message, buffer: seq<byte>)
    requires WellFormed(m) && Frame(m) <= buffer
    ensures DecodeHeader(buffer[..HEADER_SIZE]) == m.header
    ensures HEADER_SIZE + m.header.bodySize == |Frame(m)|
    ensures DecodeFrame(buffer) == Ok(m)
  {
    assert buffer[..HEADER_SIZE] == Frame(m)[..HEADER_SIZE] == EncodeHeader(m.header);
    HeaderRoundTrip(m.header);
    var body := buffer[HEADER_SIZE..HEADER_SIZE + m.header.bodySize];
    assert body == Frame(m)[HEADER_SIZE..] == EncodeBody(m.body);
    DecodesExactly(m.header.kind, body, m.body);
  }
}

/** The serialize and deserialize members, working on a caller's buffer. */
module CodecMethods {
  import opened Bytes
  import opened Codec

  /** DataHeader::serialize. */
  method SerializeHeader(h: Header, buffer: array<byte>, at: nat, size: u32) returns (n: int)
    requires at + size <= buffer.Length
    modifies buffer
    ensures size < HEADER_SIZE ==> n == -1 && buffer[..] == old(buffer[..])
    ensures size >= HEADER_SIZE ==>
              n == HEADER_SIZE && buffer[..] == Splice(old(buffer[..]), at, EncodeHeader(h))
  {
    if size < HEADER_SIZE {
      return -1;
    }
    ghost var before := buffer[..];
    PutInteger(buffer, at, h.id, 4);
    PutInteger(buffer, at + 4, h.kind, 2);
    SpliceTwice(before, at, LittleEndian(h.id, 4), LittleEndian(h.kind, 2));
    PutInteger(buffer, at + 6, h.bodySize, 2);
    SpliceTwice(before, at, LittleEndian(h.id, 4) + LittleEndian(h.kind, 2), LittleEndian(h.bodySize, 2));
    PutInteger(buffer, at + 8, Unsigned(h.timestamp), 8);
    SpliceTwice(before, at, LittleEndian(h.id, 4) + LittleEndian(h.kind, 2) + LittleEndian(h.bodySize, 2),
                LittleEndian(Unsigned(h.timestamp), 8));
    n := HEADER_SIZE;
  }

  /** DataHeader::deserialize; InvalidHeader stands for the empty optional. */
  method DeserializeHeader(buffer: array<byte>, at: nat, size: u32) returns (r: Result<Header>)
    requires at + size <= buffer.Length
    ensures r == if size < HEADER_SIZE then Err(InvalidHeader)
                 else Ok(DecodeHeader(buffer[at..at + HEADER_SIZE]))
  {
    if size < HEADER_SIZE {
      return Err(InvalidHeader);
    }
    ghost var s := buffer[at..at + HEADER_SIZE];
    WidthBounds(s[..4]);
    WidthBounds(s[4..6]);
    WidthBounds(s[6..8]);
    WidthBounds(s[8..]);
    assert s[..4] == buffer[at..at + 4] && s[4..6] == buffer[at + 4..at + 4 + 2];
    assert s[6..8] == buffer[at + 6..at + 6 + 2] && s[8..] == buffer[at + 8..at + 8 + 8];
    var id := GetInteger(buffer, at, 4);
    var kind := GetInteger(buffer, at + 4, 2);
    var bodySize := GetInteger(buffer, at + 6, 2);
    var timestamp := GetInteger(buffer, at + 8, 8);
    r := Ok(Header(id, kind, bodySize, Signed(timestamp)));
  }

  /** JavaSymbol::serialize. */
  method SerializeJavaSymbol(o: Object, buffer: array<byte>, at: nat, size: u32) returns (n: int)
    requires o.JavaSymbol? && at + size <= buffer.Length
    modifies buffer
    ensures BodySize(o) > size ==> n == -1 && buffer[..] == old(buffer[..])
    ensures BodySize(o) <= size ==>
              n == ToInt32(BodySize(o)) && buffer[..] == Splice(old(buffer[..]), at, EncodeBody(o))
  {
    var total := 16 + |o.symbol|;
    if total > size {
      return -1;
    }
    ghost var before := buffer[..];
    ghost var a, b, c := LittleEndian(o.address, 8), LittleEndian(o.length, 4), LittleEndian(|o.symbol|, 4);
    var offset := at;
    PutInteger(buffer, offset, o.address, 8);
    offset := offset + 8;
    PutInteger(buffer, offset, o.length, 4);
    offset := offset + 4;
    SpliceTwice(before, at, a, b);
    PutInteger(buffer, offset, |o.symbol|, 4);
    offset := offset + 4;
    SpliceTwice(before, at, a + b, c);
    CopyIn(buffer, offset, o.symbol);
    SpliceTwice(before, at, a + b + c, o.symbol);
    n := ToInt32(total);
  }

  /** BinaryData::serialize. */
  method SerializeBinaryData(o: Object, buffer: array<byte>, at: nat, size: u32) returns (n: int)
    requires o.BinaryData? && at + size <= buffer.Length
    modifies buffer
    ensures BodySize(o) > size ==> n == -1 && buffer[..] == old(buffer[..])
    ensures BodySize(o) <= size ==>
              n == ToInt32(BodySize(o)) && buffer[..] == Splice(old(buffer[..]), at, EncodeBody(o))
  {
    var total := 4 + |o.data|;
    if total > size {
      return -1;
    }
    ghost var before := buffer[..];
    PutInteger(buffer, at, |o.data|, 4);
    CopyIn(buffer, at + 4, o.data);
    SpliceTwice(before, at, LittleEndian(|o.data|, 4), o.data);
    n := ToInt32(total);
  }

  /** IDataObject::serialize: all or nothing, and no byte past the encoding is touched.
      The returned total goes through a cast to int. */
  method SerializeBody(o: Object, buffer: array<byte>, at: nat, size: u32) returns (n: int)
    requires at + size <= buffer.Length
    modifies buffer
    ensures BodySize(o) > size ==> n == -1 && buffer[..] == old(buffer[..])
    ensures BodySize(o) <= size ==>
              n == ToInt32(BodySize(o)) && buffer[..] == Splice(old(buffer[..]), at, EncodeBody(o))
  {
    match o {
      case Ping =>
        assert Splice(buffer[..], at, []) == buffer[..];
        n := 0;
      case JavaSymbol(_, _, _) => n := SerializeJavaSymbol(o, buffer, at, size);
      case BinaryData(_) => n := SerializeBinaryData(o, buffer, at, size);
    }
  }

  /** JavaSymbol::deserialize. */
  method DeserializeJavaSymbol(buffer: array<byte>, at: nat, size: u32) returns (r: Result<Object>)
    requires at + size <= buffer.Length
    ensures r == DecodeJavaSymbol(buffer[at..at + size])
  {
    if size < 16 {
      return Err(InvalidData);
    }
    WidthBounds(buffer[at..at + 8]);
    WidthBounds(buffer[at + 8..at + 8 + 4]);
    SubSlice(buffer[..], at, size, 0, 8);
    SubSlice(buffer[..], at, size, 8, 12);
    SubSlice(buffer[..], at, size, 12, 16);
    var address := GetInteger(buffer, at, 8);
    var length := GetInteger(buffer, at + 8, 4);
    var symbolLength := GetInteger(buffer, at + 12, 4);
    if size < 16 + symbolLength {
      return Err(InvalidData);
    }
    var symbol := buffer[at + 16..at + 16 + symbolLength];
    SubSlice(buffer[..], at, size, 16, 16 + symbolLength);
    r := Ok(JavaSymbol(address, length, symbol));
  }

  /** BinaryData::deserialize. */
  method DeserializeBinaryData(buffer: array<byte>, at: nat, size: u32) returns (r: Result<Object>)
    requires at + size <= buffer.Length
    ensures r == DecodeBinaryData(buffer[at..at + size])
  {
    if size < 4 {
      return Err(InvalidData);
    }
    ghost var s := buffer[at..at + size];
    assert s[..4] == buffer[at..at + 4];
    var length := GetInteger(buffer, at, 4);
    if size < 4 + length {
      return Err(InvalidData);
    }
    var data := buffer[at + 4..at + 4 + length];
    assert s[4..4 + length] == data;
    r := Ok(BinaryData(data));
  }

  /** deserialize_data_object. */
  method DeserializeBody(kind: u16, buffer: array<byte>, at: nat, size: u32) returns (r: Result<Object>)
    requires at + size <= buffer.Length
    ensures r == DecodeBody(kind, buffer[at..at + size])
  {
    if kind == INVALID {
      r := Err(InvalidData);
    } else if kind == PING {
      r := Ok(Ping);
    } else if kind == JAVA_SYMBOL_LOOKUP {
      r := DeserializeJavaSymbol(buffer, at, size);
    } else if kind == BINARY_DATA {
      r := DeserializeBinaryData(buffer, at, size);
    } else {
      r := Err(UnknownData);
    }
  }

  /** The common head of every handler's write: the body goes behind the space of the
      header, then the header in front, leaving the whole frame at the start of buffer_. */
  method BuildFrame(o: Object, id: u32, timestamp: i64, buffer: array<byte>) returns (size: int)
    requires buffer.Length == BUFFER_SIZE
    modifies buffer
    ensures size == -1 <==> 16 + |EncodeBody(o)| > 528
    ensures !Fits(o) ==> size == -1 && buffer[..] == old(buffer[..])
    ensures Fits(o) ==>
              && size == BodySize(o)
              && HEADER_SIZE + size == |Frame(MakeMessage(id, o, timestamp))|
              && buffer[..HEADER_SIZE + size] == Frame(MakeMessage(id, o, timestamp))
    ensures Fits(o) ==>
              && BodySize(o) == size <= 512
              && buffer[..16 + size] == EncodeHeader(Header(id, KindOf(o), size, timestamp)) + EncodeBody(o)
  {
    ghost var before := buffer[..];
    size := SerializeBody(o, buffer, HEADER_SIZE, BODY_CAPACITY);
    if size == -1 {
      return;
    }
    ghost var h := EncodeHeader(MakeMessage(id, o, timestamp).header);
    var n := SerializeHeader(Header(id, KindOf(o), Low16(size), timestamp), buffer, 0, HEADER_SIZE);
    SpliceInFront(before, h, EncodeBody(o));
    assert buffer[..HEADER_SIZE + size] == buffer[..][0..HEADER_SIZE + size];
  }

  /** The common tail of a ring handler's read, on a buffer holding header and body. */
  method ParseFrame(buffer: array<byte>) returns (r: Result<Message>)
    requires buffer.Length == BUFFER_SIZE
    requires DecodeHeader(buffer[..HEADER_SIZE]).bodySize <= BODY_CAPACITY
    ensures r == DecodeFrame(buffer[..])
  {
    assert buffer[0..0 + HEADER_SIZE] == buffer[..][..HEADER_SIZE] == buffer[..HEADER_SIZE];
    var optional := DeserializeHeader(buffer, 0, HEADER_SIZE);
    var h := optional.value;
    var body := DeserializeBody(h.kind, buffer, HEADER_SIZE, h.bodySize);
    assert buffer[HEADER_SIZE..HEADER_SIZE + h.bodySize] == buffer[..][HEADER_SIZE..HEADER_SIZE + h.bodySize];
    r := match body case Ok(o) => Ok(Message(h, o)) case Err(e) => Err(e);
  }
}
