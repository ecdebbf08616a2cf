/** Frames in a byte stream: what a reader that takes one frame after the other makes of it,
    without regard to how the bytes arrive. */
module Framing {
  import opened Bytes
  import opened Codec

  /** A header with as many body bytes as it announces, of whatever type and content. */
  datatype RawFrame = RawFrame(header: Header, body: seq<byte>)

  predicate Proper(f: RawFrame)
  {
    |f.body| == f.header.bodySize <= BUFFER_SIZE
  }

  function RawBytes(f: RawFrame): seq<byte>
  {
    EncodeHeader(f.header) + f.body
  }

  function Stream(frames: seq<RawFrame>): seq<byte>
  {
    if frames == [] then [] else RawBytes(frames[0]) + Stream(frames[1..])
  }

  /** The outcome of reading one frame off a stream that ends after `p`, and what is left. */
  function ParseOne(p: seq<byte>): (r: (Result<Message>, seq<byte>))
    ensures r.0 == Err(ConnectionClosed) || |r.1| < |p|
  {
    if |p| < HEADER_SIZE then (Err(ConnectionClosed), []) else
      var h := DecodeHeader(p[..HEADER_SIZE]);
      if |p| < HEADER_SIZE + h.bodySize then (Err(ConnectionClosed), [])
      else (Interpret(h, p[HEADER_SIZE..HEADER_SIZE + h.bodySize]), p[HEADER_SIZE + h.bodySize..])
  }

  /** The next header announces a body that `read`'s buffer cannot take, and that much arrives. */
  predicate Overruns(p: seq<byte>)
  {
    |p| > HEADER_SIZE + BUFFER_SIZE && DecodeHeader(p[..HEADER_SIZE]).bodySize > BUFFER_SIZE
  }

  /** The outcomes of reading until the end, or until a body leaves the buffer. */
  function Scan(p: seq<byte>): (r: (seq<Result<Message>>, bool))
    decreases |p|
  {
    if Overruns(p) then ([], true) else
      var (result, rest) := ParseOne(p);
      if result == Err(ConnectionClosed) then ([], false) else
        var (results, overruns) := Scan(rest);
        ([result] + results, overruns)
  }

  /** Reading one more frame, after `results`. */
  lemma ScanStep(p: seq<byte>, results: seq<Result<Message>>)
    ensures var (result, rest) := ParseOne(p);
            if Overruns(p) || result == Err(ConnectionClosed) then
              results + Scan(p).0 == results && Scan(p).1 == Overruns(p)
            else
              (results + [result]) + Scan(rest).0 == results + Scan(p).0 && Scan(rest).1 == Scan(p).1
  {
  }

  /** A stream leaves the buffer in its first frame exactly when the header announces more than 528
      bytes and more than 528 bytes follow it. */
  lemma OverrunsIff(h: Header, rest: seq<byte>)
    ensures Overruns(EncodeHeader(h) + rest) <==> h.bodySize > 528 && |rest| > 528
  {
    var p := EncodeHeader(h) + rest;
    assert p[..HEADER_SIZE] == EncodeHeader(h);
    HeaderRoundTrip(h);
  }

  /** One such stream, and one that announces as much but ends in time. */
  lemma OverrunExample(rest: seq<byte>)
    requires |rest| == BUFFER_SIZE + 1
    ensures var h := EncodeHeader(Header(1, BINARY_DATA, BUFFER_SIZE + 1, 0));
            && Scan(h + rest) == ([], true)
            && Scan(h + rest[..BUFFER_SIZE]) == ([], false)
  {
    var h := Header(1, BINARY_DATA, BUFFER_SIZE + 1, 0);
    var p := EncodeHeader(h) + rest[..BUFFER_SIZE];
    OverrunsIff(h, rest);
    OverrunsIff(h, rest[..BUFFER_SIZE]);
    assert p[..HEADER_SIZE] == EncodeHeader(h);
    HeaderRoundTrip(h);
  }

  /** What `read` should return for each of some frames. */
  function Outcomes(frames: seq<RawFrame>): (r: seq<Result<Message>>)
    ensures |r| == |frames|
    ensures forall i :: 0 <= i < |r| ==> r[i] == Interpret(frames[i].header, frames[i].body)
  {
    if frames == [] then [] else [Interpret(frames[0].header, frames[0].body)] + Outcomes(frames[1..])
  }

  /** Reading takes exactly one frame, even one with an unknown type or an undecodable body. */
  lemma FrameIsConsumed(f: RawFrame, rest: seq<byte>)
    requires Proper(f)
    ensures ParseOne(RawBytes(f) + rest) == (Interpret(f.header, f.body), rest)
    ensures !Overruns(RawBytes(f) + rest)
  {
    var p := RawBytes(f) + rest;
    assert p[..HEADER_SIZE] == EncodeHeader(f.header);
    HeaderRoundTrip(f.header);
    assert p[HEADER_SIZE..HEADER_SIZE + |f.body|] == f.body;
    assert p[HEADER_SIZE + |f.body|..] == rest;
  }

  lemma InterpretNeverCloses(h: Header, body: seq<byte>)
    ensures Interpret(h, body) != Err(ConnectionClosed)
  {
  }

  lemma ScanFrame(f: RawFrame, rest: seq<byte>)
    requires Proper(f)
    ensures Scan(RawBytes(f) + rest) == ([Interpret(f.header, f.body)] + Scan(rest).0, Scan(rest).1)
  {
    FrameIsConsumed(f, rest);
    InterpretNeverCloses(f.header, f.body);
  }

  /** Resynchronisation: whatever the types and bodies of the frames, reading finds the frame
      boundaries, so an unreadable frame costs nothing that comes later. */
  lemma {:induction false} StreamsParse(frames: seq<RawFrame>, tail: seq<byte>)
    requires forall i :: 0 <= i < |frames| ==> Proper(frames[i])
    ensures Scan(Stream(frames) + tail) == (Outcomes(frames) + Scan(tail).0, Scan(tail).1)
    decreases |frames|
  {
    if frames == [] {
      assert Stream(frames) + tail == tail;
      assert Outcomes(frames) + Scan(tail).0 == Scan(tail).0;
    } else {
      StreamStep(frames, tail);
      ScanFrame(frames[0], Stream(frames[1..]) + tail);
      StreamsParse(frames[1..], tail);
      OutcomesStep(frames, Scan(tail).0);
    }
  }

  /** What these outcomes are: an object of the frame's type if the body starts with the encoding of one;
      otherwise the type is unknown or the data invalid. */
  lemma OutcomesAre(frames: seq<RawFrame>, i: nat, m: Message)
    requires i < |frames| && Proper(frames[i])
    ensures Outcomes(frames)[i] == Ok(m) <==>
            m.header == frames[i].header && m.header.kind == KindOf(m.body) && EncodeBody(m.body) <= frames[i].body
    ensures Outcomes(frames)[i] == Err(UnknownData) <==> frames[i].header.kind > 3
    ensures Outcomes(frames)[i] == Err(InvalidData) <==>
            && frames[i].header.kind <= 3
            && forall o :: KindOf(o) == frames[i].header.kind ==> !(EncodeBody(o) <= frames[i].body)
  {
    var f := frames[i];
    InterpretCarries(f.header, f.body, m, UnknownData);
    InterpretCarries(f.header, f.body, m, InvalidData);
    DecodingOutcomes(f.header.kind, f.body);
  }

  /** A stream that ends within a frame, or before one, ends the reading with a closed connection. */
  lemma IncompleteFrameCloses(f: RawFrame, p: seq<byte>)
    requires Proper(f) && p <= RawBytes(f) && p != RawBytes(f)
    ensures ParseOne(p) == (Err(ConnectionClosed), []) && Scan(p) == ([], false)
  {
    if |p| >= HEADER_SIZE {
      assert p[..HEADER_SIZE] == RawBytes(f)[..HEADER_SIZE] == EncodeHeader(f.header);
      HeaderRoundTrip(f.header);
    }
  }

  lemma StreamStep(frames: seq<RawFrame>, tail: seq<byte>)
    requires frames != []
    ensures Stream(frames) + tail == RawBytes(frames[0]) + (Stream(frames[1..]) + tail)
  {
  }

  lemma OutcomesStep(frames: seq<RawFrame>, more: seq<Result<Message>>)
    requires frames != []
    ensures [Interpret(frames[0].header, frames[0].body)] + (Outcomes(frames[1..]) + more) == Outcomes(frames) + more
  {
  }

  // ---- Frames that writers send ---------------------------------------------

  function Raw(m: Message): RawFrame
  {
    RawFrame(m.header, EncodeBody(m.body))
  }

  function Raws(messages: seq<Message>): (r: seq<RawFrame>)
    ensures |r| == |messages|
    ensures forall i :: 0 <= i < |r| ==> r[i] == Raw(messages[i])
  {
    if messages == [] then [] else [Raw(messages[0])] + Raws(messages[1..])
  }

  lemma {:induction false} StreamConcat(a: seq<RawFrame>, b: seq<RawFrame>)
    ensures Stream(a + b) == Stream(a) + Stream(b)
    decreases |a|
  {
    if a == [] {
      assert a + b == b;
    } else {
      assert (a + b)[1..] == a[1..] + b;
      StreamConcat(a[1..], b);
    }
  }

  /** The bytes a connection has carried after some messages. */
  function Sent(messages: seq<Message>): seq<byte>
  {
    Stream(Raws(messages))
  }

  lemma SentAll(a: seq<Message>, b: seq<Message>)
    ensures Sent(a + b) == Sent(a) + Sent(b)
  {
    var r, r' := Raws(a + b), Raws(a) + Raws(b);
    forall i | 0 <= i < |r|
      ensures r[i] == r'[i]
    {
      assert r[i] == Raw((a + b)[i]);
    }
    assert r == r';
    StreamConcat(Raws(a), Raws(b));
  }

  lemma SentOne(m: Message)
    ensures Sent([m]) == Frame(m)
  {
    assert Raws([m])[1..] == [];
    assert Stream(Raws([m])) == RawBytes(Raw(m)) + Stream([]);
  }

  lemma SentNext(messages: seq<Message>, m: Message)
    ensures Sent(messages + [m]) == Sent(messages) + Frame(m)
  {
    SentAll(messages, [m]);
    SentOne(m);
  }

  /** Everything sent is received: all messages, in order, and nothing else. */
  lemma SentIsReceived(messages: seq<Message>)
    requires forall i :: 0 <= i < |messages| ==> WellFormed(messages[i])
    ensures |Scan(Sent(messages)).0| == |messages| && !Scan(Sent(messages)).1
    ensures forall i :: 0 <= i < |messages| ==> Scan(Sent(messages)).0[i] == Ok(messages[i])
  {
    StreamsParse(Raws(messages), []);
    assert Stream(Raws(messages)) + [] == Stream(Raws(messages));
    assert Outcomes(Raws(messages)) + Scan([]).0 == Outcomes(Raws(messages));
    forall i | 0 <= i < |messages|
      ensures Outcomes(Raws(messages))[i] == Ok(messages[i])
    {
      var m := messages[i];
      DecodesExactly(m.header.kind, EncodeBody(m.body), m.body);
    }
  }
}
