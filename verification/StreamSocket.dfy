/** StreamSocket: messages over a connection that delivers its bytes in arbitrary pieces. */
module StreamSockets {
  import opened Integers
  import opened Bytes
  import opened Codec
  import opened CodecMethods
  import opened Framing
  import opened Sendings

  /** What one `recv` meets: some bytes, at most `extra` + 1 of them; none yet (EAGAIN); or
      another error. */
  datatype Event = Fragment(extra: nat) | Again | Fail

  /** How `read` ends: with a result, or with a byte of the body to be stored behind buffer_, after
      which the program's behaviour is undefined. */
  datatype Reading = Returned(result: Result<Message>) | Overrun

  /** Why a reader stops. */
  datatype End = Closed | Failed | Overran

  /** A socket. `sent` are the bytes it has sent. On the receiving side `stream` are the bytes that
      arrive before the peer closes, the first `received` of which have been taken, and `script`
      says what the calls of `recv` meet, `calls` of which are over; once it is used up, all that
      is asked for is there. */
  class StreamSocket {
    var isOpen: bool
    var lastId: u32
    var sent: seq<byte>
    var connected: bool
    var stream: seq<byte>
    var received: nat
    var script: seq<Event>
    var calls: nat
    const buffer: array<byte>

    ghost predicate Valid()
      reads this
    {
      buffer.Length == BUFFER_SIZE && received <= |stream| && calls <= |script|
    }

    /** The bytes still to come. */
    ghost function Pending(): seq<byte>
      requires Valid()
      reads this
    {
      stream[received..]
    }

    /** No call of `recv` from the i-th to before the j-th meets an error. */
    ghost predicate NoFailures(i: nat, j: nat)
      requires j <= |script|
      reads this
    {
      forall k :: i <= k < j ==> !script[k].Fail?
    }

    /** A freshly opened socket. */
    constructor ()
      ensures Valid() && isOpen && lastId == 0 && sent == [] && !connected && fresh(buffer)
    {
      buffer := new byte[BUFFER_SIZE](_ => 0);
      isOpen, lastId, sent := true, 0, [];
      connected, stream, received, script, calls := false, [], 0, [], 0;
    }

    /** StreamSocket::write; a successful `send` takes the whole frame. */
    method Write(o: Object, timestamp: i64, sendFails: bool) returns (ok: bool)
      requires Valid()
      modifies this`lastId, this`sent, buffer
      ensures Valid()
      ensures ok <==> isOpen && Fits(o) && !sendFails
      ensures lastId == if isOpen && Fits(o) then Increment(old(lastId)) else old(lastId)
      ensures sent == old(sent) + if ok then Frame(MakeMessage(lastId, o, timestamp)) else []
    {
      if !isOpen {
        return false;
      }
      var size := BuildFrame(o, Increment(lastId), timestamp, buffer);
      if size == -1 {
        return false;
      }
      lastId := Increment(lastId);
      if sendFails {
        return false;
      }
      sent := sent + buffer[..HEADER_SIZE + size];
      ok := true;
    }

    /** A new client replaces the old one, together with what was left of its stream. */
    method Accept(ready: bool, stream: seq<byte>, script: seq<Event>) returns (ok: bool)
      requires Valid() && (!isOpen ==> !connected)
      modifies this`connected, this`stream, this`received, this`script, this`calls
      ensures Valid() && ok == connected == (isOpen && ready)
      ensures ok ==> this.stream == stream && this.script == script && received == calls == 0
    {
      if !isOpen {
        return false;
      }
      connected := false;
      if !ready {
        return false;
      }
      this.stream, received, this.script, calls := stream, 0, script, 0;
      connected := true;
      ok := true;
    }

    /** One `recv` of up to `want` bytes to `at`: -1 for an error, 0 at the end of the stream. Bytes
        that do not fit behind `at` are not stored by the model; the caller sees that they came. */
    method Recv(at: nat, want: nat) returns (n: int, again: bool)
      requires Valid() && want > 0 && at <= BUFFER_SIZE
      modifies this`received, this`calls, buffer
      ensures Valid()
      ensures calls == if old(calls) == |script| then old(calls) else old(calls) + 1
      ensures n == -1 <==> old(calls) < |script| && !script[old(calls)].Fragment?
      ensures n == -1 ==>
                && again == script[old(calls)].Again?
                && received == old(received) && buffer[..] == old(buffer[..])
      ensures n != -1 ==> 0 <= n <= want && (n == 0 <==> old(received) == |stream|)
      ensures n != -1 ==> received == old(received) + n
      ensures n != -1 && at + n <= BUFFER_SIZE ==>
                && buffer[..at] == old(buffer[..at])
                && buffer[at..at + n] == stream[old(received)..received]
    {
      var limit := want;
      if calls < |script| {
        var event := script[calls];
        calls := calls + 1;
        if !event.Fragment? {
          return -1, event.Again?;
        }
        limit := Min(want, event.extra + 1);
      }
      n, again := Min(limit, |stream| - received), false;
      if at + n <= BUFFER_SIZE {
        ghost var before := buffer[..];
        CopyIn(buffer, at, stream[received..received + n]);
        assert buffer[..at] == buffer[..][..at] == before[..at];
        assert buffer[at..at + n] == buffer[..][at..at + n];
      }
      received := received + n;
    }

    /** StreamSocket::read. For every stream and script: the body leaves the buffer only on a stream
        that overruns it, and always does on such a stream unless `recv` fails first. */
    method Read() returns (reading: Reading)
      requires Valid()
      modifies this`received, this`calls, buffer
      ensures Valid() && old(calls) <= calls
      ensures !connected ==>
                reading == Returned(Err(ConnectionClosed)) && received == old(received) && calls == old(calls)
      ensures reading == Returned(Err(NoDataAvailable)) <==>
                connected && old(calls) < |script| && script[old(calls)].Again?
      ensures reading == Returned(Err(NoDataAvailable)) ==>
                received == old(received) && calls == old(calls) + 1
      ensures reading == Returned(Err(ReadError)) <==> !NoFailures(old(calls), calls)
      ensures reading == Overrun ==> connected && Overruns(old(Pending()))
      ensures connected && reading != Returned(Err(NoDataAvailable)) && NoFailures(old(calls), calls) ==>
                (reading == Overrun <==> Overruns(old(Pending())))
      ensures connected && reading.Returned? && reading.result !in {Err(NoDataAvailable), Err(ReadError)} ==>
                !Overruns(old(Pending())) && (reading.result, Pending()) == ParseOne(old(Pending()))
    {
      if !connected {
        return Returned(Err(ConnectionClosed));
      }
      ScanAt(stream, received);
      var optional := ReadHeader();
      if optional.Err? {
        assert optional == Err(ConnectionClosed) ==> Pending() == [];
        return Returned(Err(optional.error));
      }
      reading := ReadBody(optional.value);
      assert reading == Returned(Err(ConnectionClosed)) ==> Pending() == [];
    }

    /** The first loop of `read`: nothing yet is reported, but a header that has begun to arrive
        is waited for. */
    method ReadHeader() returns (r: Result<Header>)
      requires Valid()
      modifies this`received, this`calls, buffer
      ensures Valid() && old(calls) <= calls
      ensures r == Err(NoDataAvailable) <==> old(calls) < |script| && script[old(calls)].Again?
      ensures r == Err(NoDataAvailable) ==> received == old(received) && calls == old(calls) + 1
      ensures r == Err(ReadError) <==> !NoFailures(old(calls), calls)
      ensures r == Err(ConnectionClosed) ==> |stream| < old(received) + HEADER_SIZE && received == |stream|
      ensures r.Ok? ==>
                && received == old(received) + HEADER_SIZE
                && r.value == DecodeHeader(stream[old(received)..received])
      ensures r.Err? ==> r.error in {NoDataAvailable, ReadError, ConnectionClosed}
    {
      ghost var start, first := received, calls;
      var amount := 0;
      while amount < HEADER_SIZE
        invariant Valid() && 0 <= amount <= HEADER_SIZE && first <= calls
        invariant received == start + amount && buffer[..amount] == stream[start..received]
        invariant NoFailures(first, calls) && (amount == 0 ==> calls == first)
        invariant amount > 0 ==> first == |script| || !script[first].Again?
        decreases HEADER_SIZE - amount, |script| - calls
      {
        var n, again := Recv(amount, HEADER_SIZE - amount);
        if n == -1 {
          if again {
            if amount > 0 {
              continue;
            }
            return Err(NoDataAvailable);
          }
          assert script[calls - 1].Fail?;
          return Err(ReadError);
        }
        if n == 0 {
          return Err(ConnectionClosed);
        }
        JoinSlices(stream, start, start + amount, received);
        assert buffer[..amount + n] == buffer[..amount] + buffer[amount..amount + n];
        amount := amount + n;
      }
      assert buffer[0..0 + HEADER_SIZE] == buffer[..HEADER_SIZE];
      r := DeserializeHeader(buffer, 0, HEADER_SIZE);
    }

    /** The second loop of `read`: the body is waited for, none is asked for when it is empty. The
        first byte to be stored behind the buffer ends the model of the call. */
    method ReadBody(header: Header) returns (reading: Reading)
      requires Valid()
      modifies this`received, this`calls, buffer
      ensures Valid() && old(calls) <= calls
      ensures header.bodySize == 0 ==> calls == old(calls)
      ensures reading == Overrun ==>
                header.bodySize > BUFFER_SIZE && |stream| > old(received) + BUFFER_SIZE
      ensures reading == Returned(Err(ReadError)) <==> !NoFailures(old(calls), calls)
      ensures reading == Returned(Err(ConnectionClosed)) ==>
                && |stream| < old(received) + header.bodySize && received == |stream|
                && |stream| <= old(received) + BUFFER_SIZE
      ensures reading.Returned? && reading.result !in {Err(ReadError), Err(ConnectionClosed)} ==>
                && header.bodySize <= BUFFER_SIZE
                && received == old(received) + header.bodySize
                && reading.result == Interpret(header, stream[old(received)..received])
    {
      ghost var start, first := received, calls;
      var amount := 0;
      while amount < header.bodySize
        invariant Valid() && 0 <= amount <= Min(header.bodySize, BUFFER_SIZE) && first <= calls
        invariant received == start + amount && buffer[..amount] == stream[start..received]
        invariant NoFailures(first, calls) && (header.bodySize == 0 ==> calls == first)
        decreases header.bodySize - amount, |script| - calls
      {
        var n, again := Recv(amount, header.bodySize - amount);
        if n == -1 {
          if again {
            continue;
          }
          assert script[calls - 1].Fail?;
          return Returned(Err(ReadError));
        }
        if n == 0 {
          return Returned(Err(ConnectionClosed));
        }
        if amount + n > BUFFER_SIZE {
          return Overrun;
        }
        JoinSlices(stream, start, start + amount, received);
        assert buffer[..amount + n] == buffer[..amount] + buffer[amount..amount + n];
        amount := amount + n;
      }
      assert buffer[0..0 + header.bodySize] == buffer[..header.bodySize];
      var body := DeserializeBody(header.kind, buffer, 0, header.bodySize);
      reading := Returned(match body case Ok(o) => Ok(Message(header, o)) case Err(e) => Err(e));
    }

    /** Reading until the peer's close, as a server does, or until `recv` fails or a body leaves the
        buffer. */
    method Drain() returns (results: seq<Result<Message>>, end: End)
      requires Valid() && connected
      modifies this`received, this`calls, buffer
      ensures Valid() && calls >= old(calls)
      ensures end == Failed ==>
                results <= Scan(old(Pending())).0 && !NoFailures(old(calls), calls)
      ensures end != Failed ==> (results, end == Overran) == Scan(old(Pending())) && NoFailures(old(calls), calls)
    {
      ghost var all := Scan(Pending());
      results := [];
      while true
        invariant Valid() && connected && calls >= old(calls) && NoFailures(old(calls), calls)
        invariant results + Scan(Pending()).0 == all.0 && Scan(Pending()).1 == all.1
        decreases |Pending()|, |script| - calls
      {
        ScanStep(Pending(), results);
        var reading := Read();
        if reading == Overrun {
          return results, Overran;
        }
        if reading.result == Err(ReadError) {
          return results, Failed;
        }
        if reading.result == Err(ConnectionClosed) {
          return results, Closed;
        }
        if reading.result != Err(NoDataAvailable) {
          results := results + [reading.result];
        }
      }
    }
  }

  lemma JoinSlices(s: seq<byte>, a: nat, b: nat, c: nat)
    requires a <= b <= c <= |s|
    ensures s[a..b] + s[b..c] == s[a..c]
  {
  }

  /** What is left of a stream from `at` on, in terms of the stream. */
  lemma ScanAt(s: seq<byte>, at: nat)
    requires at <= |s|
    ensures |s| < at + HEADER_SIZE ==> !Overruns(s[at..]) && ParseOne(s[at..]) == (Err(ConnectionClosed), [])
    ensures |s| >= at + HEADER_SIZE ==>
              var h := DecodeHeader(s[at..at + HEADER_SIZE]);
              var end := at + HEADER_SIZE + h.bodySize;
              && (Overruns(s[at..]) <==> h.bodySize > BUFFER_SIZE && |s| > at + HEADER_SIZE + BUFFER_SIZE)
              && ParseOne(s[at..]) == if |s| < end then (Err(ConnectionClosed), [])
                                      else (Interpret(h, s[at + HEADER_SIZE..end]), s[end..])
  {
    if |s| >= at + HEADER_SIZE {
      var p, h := s[at..], DecodeHeader(s[at..at + HEADER_SIZE]);
      assert p[..HEADER_SIZE] == s[at..at + HEADER_SIZE];
      if |s| >= at + HEADER_SIZE + h.bodySize {
        assert p[HEADER_SIZE..HEADER_SIZE + h.bodySize] == s[at + HEADER_SIZE..at + HEADER_SIZE + h.bodySize];
        assert p[HEADER_SIZE + h.bodySize..] == s[at + HEADER_SIZE + h.bodySize..];
      }
    }
  }

  // ---- From one socket to the other -----------------------------------------------

  /** What one more call does to the last id and to the bytes sent. */
  lemma SendStep(calls: seq<Sending>, fates: seq<Fate>, i: nat, lastId: u32)
    requires i < |calls| && fates == Fates(calls, |calls|) && lastId == Counter(IdsUsed(fates, i))
    ensures fates[i] == FateOf(calls[i])
    ensures var c, id := calls[i], if fates[i].Refused? then lastId else Increment(lastId);
            && Counter(IdsUsed(fates, i + 1)) == id
            && Sent(Arrivals(calls, fates, i + 1))
            == Sent(Arrivals(calls, fates, i))
               + if fates[i].Arrived? then Frame(MakeMessage(id, c.o, c.timestamp)) else []
  {
    hide *;
    FateAt(calls, |calls|, i);
    ArrivalsStep(calls, fates, i);
    CounterStep(IdsUsed(fates, i));
    if fates[i].Arrived? {
      SentNext(Arrivals(calls, fates, i),
               MakeMessage(Counter(IdsUsed(fates, i + 1)), calls[i].o, calls[i].timestamp));
    } else {
      assert Arrivals(calls, fates, i) + [] == Arrivals(calls, fates, i);
      NothingSent(Sent(Arrivals(calls, fates, i)));
    }
  }

  lemma NothingSent(s: seq<byte>)
    ensures s + [] == s
  {
  }

  /** What the calls return. */
  function Verdicts(fates: seq<Fate>, n: nat): (r: seq<bool>)
    requires n <= |fates|
    ensures |r| == n
  {
    if n == 0 then [] else Verdicts(fates, n - 1) + [fates[n - 1].Arrived?]
  }

  method SendOne(client: StreamSocket, calls: seq<Sending>, i: nat, ghost fates: seq<Fate>) returns (ok: bool)
    requires i < |calls| && fates == Fates(calls, |calls|) && client.Valid() && client.isOpen
    requires client.lastId == Counter(IdsUsed(fates, i)) && client.sent == Sent(Arrivals(calls, fates, i))
    modifies client`lastId, client`sent, client.buffer
    ensures client.Valid() && ok == fates[i].Arrived?
    ensures client.lastId == Counter(IdsUsed(fates, i + 1))
    ensures client.sent == Sent(Arrivals(calls, fates, i + 1))
  {
    SendStep(calls, fates, i, client.lastId);
    ok := client.Write(calls[i].o, calls[i].timestamp, calls[i].fails);
  }

  lemma {:induction false} VerdictsAre(calls: seq<Sending>, fates: seq<Fate>, n: nat)
    requires n <= |calls| && fates == Fates(calls, |calls|)
    ensures forall i :: 0 <= i < n ==> (Verdicts(fates, n)[i] <==> Fits(calls[i].o) && !calls[i].fails)
  {
    if n > 0 {
      VerdictsAre(calls, fates, n - 1);
      FateIs(calls, n - 1);
    }
  }

  /** A client makes its calls one after the other. */
  method SendAll(client: StreamSocket, calls: seq<Sending>) returns (oks: seq<bool>)
    requires client.Valid() && client.isOpen && client.lastId == 0 && client.sent == []
    modifies client`lastId, client`sent, client.buffer
    ensures client.Valid() && client.sent == Sent(ArrivalsOf(calls))
    ensures |oks| == |calls| && forall i :: 0 <= i < |oks| ==> (oks[i] <==> Fits(calls[i].o) && !calls[i].fails)
  {
    ghost var fates := Fates(calls, |calls|);
    oks := [];
    for i := 0 to |calls|
      invariant client.Valid() && client.isOpen && client.lastId == Counter(IdsUsed(fates, i))
      invariant client.sent == Sent(Arrivals(calls, fates, i))
      invariant oks == Verdicts(fates, i)
    {
      var ok := SendOne(client, calls, i, fates);
      oks := oks + [ok];
    }
    VerdictsAre(calls, fates, |calls|);
  }

  /** A server reads to the end what was sent to it. */
  method ReceiveAll(stream: seq<byte>, script: seq<Event>, ghost messages: seq<Message>)
    returns (results: seq<Result<Message>>, end: End)
    requires stream == Sent(messages) && forall i :: 0 <= i < |messages| ==> WellFormed(messages[i])
    ensures |results| <= |messages| && forall i :: 0 <= i < |results| ==> results[i] == Ok(messages[i])
    ensures end != Overran && (end == Closed ==> |results| == |messages|) && (end == Failed ==> Fail in script)
  {
    SentIsReceived(messages);
    var server := new StreamSocket();
    var ok := server.Accept(true, stream, script);
    assert server.Pending() == stream;
    results, end := server.Drain();
    if end == Failed {
      var k :| 0 <= k < server.calls && server.script[k].Fail?;
      assert script[k].Fail?;
    }
  }

  /** What one socket writes, the other reads, whatever the fragmentation: the objects and timestamps of
      the calls that returned true, in order, all of them unless `recv` fails, and never more than the
      buffer takes. Result i belongs to call at[i]. */
  method Transmit(calls: seq<Sending>, script: seq<Event>)
    returns (oks: seq<bool>, results: seq<Result<Message>>, end: End, ghost at: seq<nat>)
    ensures |oks| == |calls| && forall i :: 0 <= i < |oks| ==> (oks[i] <==> Fits(calls[i].o) && !calls[i].fails)
    ensures |results| <= |ArrivalsOf(calls)|
    ensures forall i :: 0 <= i < |results| ==> results[i] == Ok(ArrivalsOf(calls)[i])
    ensures |at| == |results| && forall i, j :: 0 <= i < j < |at| ==> at[i] < at[j]
    ensures forall i :: 0 <= i < |at| ==>
              && at[i] < |calls| && oks[at[i]] && results[i].Ok?
              && var m, c := results[i].value, calls[at[i]];
                 && m.body == c.o && m.header.timestamp == c.timestamp
                 && m.header.id == Counter(IdsUsed(Fates(calls, |calls|), at[i] + 1))
    ensures end != Overran && (end == Closed ==> forall k :: 0 <= k < |oks| && oks[k] ==> k in at)
    ensures end == Failed ==> Fail in script
  {
    var client := new StreamSocket();
    oks := SendAll(client, calls);
    ArrivalsAreWellFormed(calls, Fates(calls, |calls|), |calls|);
    results, end := ReceiveAll(client.sent, script, ArrivalsOf(calls));
    at := CallsOfResults(calls, results);
  }

  lemma CallsOfResults(calls: seq<Sending>, results: seq<Result<Message>>) returns (at: seq<nat>)
    requires |results| <= |ArrivalsOf(calls)|
    requires forall i :: 0 <= i < |results| ==> results[i] == Ok(ArrivalsOf(calls)[i])
    ensures |at| == |results| && forall i, j :: 0 <= i < j < |at| ==> at[i] < at[j]
    ensures forall i :: 0 <= i < |at| ==>
              && at[i] < |calls| && Fits(calls[at[i]].o) && !calls[at[i]].fails && results[i].Ok?
              && var m, c := results[i].value, calls[at[i]];
                 && m.body == c.o && m.header.timestamp == c.timestamp
                 && m.header.id == Counter(IdsUsed(Fates(calls, |calls|), at[i] + 1))
    ensures |results| == |ArrivalsOf(calls)| ==>
              forall k :: 0 <= k < |calls| && Fits(calls[k].o) && !calls[k].fails ==> k in at
  {
    hide *;
    var all := ArrivalsAreTheCalls(calls);
    at := all[..|results|];
    assert |results| == |all| ==> at == all;
    forall i | 0 <= i < |at|
      ensures at[i] < |calls| && Fits(calls[at[i]].o) && !calls[at[i]].fails && results[i].Ok?
              && var m, c := results[i].value, calls[at[i]];
                 && m.body == c.o && m.header.timestamp == c.timestamp
                 && m.header.id == Counter(IdsUsed(Fates(calls, |calls|), at[i] + 1))
    {
      assert at[i] == all[i] && all[i] in all;
    }
  }
}
