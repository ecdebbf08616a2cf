/** Calls of `write` on a connection that takes a whole frame or fails: which ids they use and which
    messages arrive. */
module Sendings {
  import opened Bytes
  import opened Codec

  /** A call of `write`, and whether the system call that sends the frame fails. */
  datatype Sending = Sending(o: Object, timestamp: i64, fails: bool)

  /** What becomes of a call: refused before it has an id, given an id but not sent, or sent. */
  datatype Fate = Refused | Lost | Arrived

  function FateOf(c: Sending): Fate
  {
    if !Fits(c.o) then Refused else if c.fails then Lost else Arrived
  }

  function Fates(calls: seq<Sending>, n: nat): (r: seq<Fate>)
    requires n <= |calls|
    ensures |r| == n
  {
    if n == 0 then [] else Fates(calls, n - 1) + [FateOf(calls[n - 1])]
  }

  lemma {:induction false} FateAt(calls: seq<Sending>, n: nat, i: nat)
    requires i < n <= |calls|
    ensures Fates(calls, n)[i] == FateOf(calls[i])
  {
    if i < n - 1 {
      FateAt(calls, n - 1, i);
    }
  }

  /** What becomes of call i: it is refused if its object does not fit, and lost if only its system call fails. */
  lemma FateIs(calls: seq<Sending>, i: nat)
    requires i < |calls|
    ensures Fates(calls, |calls|)[i] == Refused <==> !Fits(calls[i].o)
    ensures Fates(calls, |calls|)[i] == Lost <==> Fits(calls[i].o) && calls[i].fails
    ensures Fates(calls, |calls|)[i] == Arrived <==> Fits(calls[i].o) && !calls[i].fails
  {
    FateAt(calls, |calls|, i);
  }

  /** How many of the first n calls used an id. */
  function IdsUsed(fates: seq<Fate>, n: nat): nat
    requires n <= |fates|
  {
    if n == 0 then 0 else IdsUsed(fates, n - 1) + if fates[n - 1].Refused? then 0 else 1
  }

  /** Those of them whose system call failed. */
  function LostIds(fates: seq<Fate>, n: nat): nat
    requires n <= |fates|
  {
    if n == 0 then 0 else LostIds(fates, n - 1) + if fates[n - 1].Lost? then 1 else 0
  }

  /** The calls among the first n that fit, and those of them that fail. */
  ghost function Fitting(calls: seq<Sending>, n: nat): set<nat>
    requires n <= |calls|
  {
    set i: nat | i < n && Fits(calls[i].o)
  }

  ghost function Failing(calls: seq<Sending>, n: nat): set<nat>
    requires n <= |calls|
  {
    set i: nat | i < n && Fits(calls[i].o) && calls[i].fails
  }

  lemma FittingNext(calls: seq<Sending>, n: nat)
    requires n < |calls|
    ensures |Fitting(calls, n + 1)| == |Fitting(calls, n)| + if Fits(calls[n].o) then 1 else 0
  {
    hide Fits;
    assert Fitting(calls, n + 1) == if Fits(calls[n].o) then Fitting(calls, n) + {n} else Fitting(calls, n);
  }

  lemma FailingNext(calls: seq<Sending>, n: nat)
    requires n < |calls|
    ensures |Failing(calls, n + 1)| == |Failing(calls, n)| + if Fits(calls[n].o) && calls[n].fails then 1 else 0
  {
    hide Fits;
    assert Failing(calls, n + 1)
        == if Fits(calls[n].o) && calls[n].fails then Failing(calls, n) + {n} else Failing(calls, n);
  }

  lemma {:induction false} CountsAreSizes(calls: seq<Sending>, n: nat)
    requires n <= |calls|
    ensures IdsUsed(Fates(calls, |calls|), n) == |Fitting(calls, n)|
    ensures LostIds(Fates(calls, |calls|), n) == |Failing(calls, n)|
  {
    if n > 0 {
      hide Fitting, Failing, Fits;
      CountsAreSizes(calls, n - 1);
      FateIs(calls, n - 1);
      FittingNext(calls, n - 1);
      FailingNext(calls, n - 1);
    }
  }

  /** Ids are used by the calls that fit, and lost by those of them that fail. */
  lemma IdsAreCounted(calls: seq<Sending>, n: nat)
    requires n <= |calls|
    ensures IdsUsed(Fates(calls, |calls|), n) == |set i: nat | i < n && Fits(calls[i].o)|
    ensures LostIds(Fates(calls, |calls|), n) == |set i: nat | i < n && Fits(calls[i].o) && calls[i].fails|
  {
    CountsAreSizes(calls, n);
  }

  /** The messages that arrive of the first n calls: those of the calls that return true. */
  function Arrivals(calls: seq<Sending>, fates: seq<Fate>, n: nat): seq<Message>
    requires n <= |calls| == |fates|
  {
    if n == 0 then []
    else if fates[n - 1].Arrived? then
      Arrivals(calls, fates, n - 1)
      + [MakeMessage(Counter(IdsUsed(fates, n)), calls[n - 1].o, calls[n - 1].timestamp)]
    else Arrivals(calls, fates, n - 1)
  }

  /** Every id used belongs to a message that arrived or to a failed call. */
  lemma {:induction false} IdsAreAccountedFor(calls: seq<Sending>, fates: seq<Fate>, n: nat)
    requires n <= |calls| == |fates|
    ensures |Arrivals(calls, fates, n)| + LostIds(fates, n) == IdsUsed(fates, n)
  {
    if n > 0 {
      IdsAreAccountedFor(calls, fates, n - 1);
    }
  }

  /** Strictly increasing ids from 1 to n. */
  ghost predicate IdsAscend(messages: seq<Message>, n: nat)
  {
    && (forall i :: 0 <= i < |messages| ==> 1 <= messages[i].header.id <= n)
    && forall i, j :: 0 <= i < j < |messages| ==> messages[i].header.id < messages[j].header.id
  }

  lemma IdsAscendNext(messages: seq<Message>, n: nat, m: Message)
    requires IdsAscend(messages, n)
    ensures IdsAscend(messages, n + 1)
    ensures m.header.id == n + 1 ==> IdsAscend(messages + [m], n + 1)
  {
  }

  /** Below 2^32 of them, the ids of the messages that arrive strictly increase from at least 1, and
      those missing are as many as the calls that failed. */
  lemma {:induction false} GapsAreFailedSends(calls: seq<Sending>, fates: seq<Fate>, n: nat)
    requires n <= |calls| == |fates| && IdsUsed(fates, n) < U32
    ensures |Arrivals(calls, fates, n)| + LostIds(fates, n) == IdsUsed(fates, n)
    ensures IdsAscend(Arrivals(calls, fates, n), IdsUsed(fates, n))
  {
    IdsAreAccountedFor(calls, fates, n);
    if n > 0 {
      GapsAreFailedSends(calls, fates, n - 1);
      CounterCounts(IdsUsed(fates, n));
      IdsAscendNext(Arrivals(calls, fates, n - 1), IdsUsed(fates, n - 1),
                    MakeMessage(Counter(IdsUsed(fates, n)), calls[n - 1].o, calls[n - 1].timestamp));
    }
  }

  lemma {:induction false} ArrivalsAreWellFormed(calls: seq<Sending>, fates: seq<Fate>, n: nat)
    requires n <= |calls| && fates == Fates(calls, |calls|)
    ensures forall i :: 0 <= i < |Arrivals(calls, fates, n)| ==> WellFormed(Arrivals(calls, fates, n)[i])
  {
    if n > 0 {
      ArrivalsAreWellFormed(calls, fates, n - 1);
      FateAt(calls, |calls|, n - 1);
    }
  }

  /** Messages i is that of call at[i], and these are the calls that succeed. */
  ghost predicate AreOf(messages: seq<Message>, calls: seq<Sending>, fates: seq<Fate>, n: nat, at: seq<nat>)
    requires n <= |calls| == |fates|
  {
    && |at| == |messages|
    && (forall i :: 0 <= i < |at| ==> at[i] < n)
    && (forall i, j :: 0 <= i < j < |at| ==> at[i] < at[j])
    && (forall k :: 0 <= k < n ==> (k in at <==> fates[k].Arrived?))
    && forall i :: 0 <= i < |at| ==>
         && messages[i].body == calls[at[i]].o && messages[i].header.timestamp == calls[at[i]].timestamp
         && messages[i].header.id == Counter(IdsUsed(fates, at[i] + 1))
  }

  lemma OneMoreOf(messages: seq<Message>, calls: seq<Sending>, fates: seq<Fate>, n: nat, at: seq<nat>)
    requires n < |calls| == |fates| && AreOf(messages, calls, fates, n, at)
    ensures if fates[n].Arrived?
            then var m := MakeMessage(Counter(IdsUsed(fates, n + 1)), calls[n].o, calls[n].timestamp);
                 AreOf(messages + [m], calls, fates, n + 1, at + [n])
            else AreOf(messages, calls, fates, n + 1, at)
  {
    hide IdsUsed;
    assert n !in at;
  }

  lemma NoneOf(calls: seq<Sending>, fates: seq<Fate>)
    requires |calls| == |fates|
    ensures AreOf([], calls, fates, 0, [])
  {
  }

  lemma {:induction false} ArrivalsAreOf(calls: seq<Sending>, fates: seq<Fate>, n: nat) returns (at: seq<nat>)
    requires n <= |calls| == |fates|
    ensures AreOf(Arrivals(calls, fates, n), calls, fates, n, at)
  {
    hide AreOf, IdsUsed;
    if n == 0 {
      at := [];
      NoneOf(calls, fates);
    } else {
      at := ArrivalsAreOf(calls, fates, n - 1);
      OneMoreOf(Arrivals(calls, fates, n - 1), calls, fates, n - 1, at);
      if fates[n - 1].Arrived? {
        at := at + [n - 1];
      }
    }
  }

  /** The messages that arrive carry the objects and the timestamps of the calls that succeed, in the
      order of these calls, and as ids the numbers of ids used up to then. */
  lemma ArrivalsAreTheCalls(calls: seq<Sending>) returns (at: seq<nat>)
    ensures |at| == |ArrivalsOf(calls)|
    ensures forall i, j :: 0 <= i < j < |at| ==> at[i] < at[j]
    ensures forall i :: 0 <= i < |at| ==> at[i] < |calls|
    ensures forall k :: 0 <= k < |calls| ==> (k in at <==> Fits(calls[k].o) && !calls[k].fails)
    ensures forall i :: 0 <= i < |at| ==>
              var m := ArrivalsOf(calls)[i];
              && m.body == calls[at[i]].o && m.header.timestamp == calls[at[i]].timestamp
              && m.header.id == Counter(IdsUsed(Fates(calls, |calls|), at[i] + 1))
  {
    var fates := Fates(calls, |calls|);
    at := ArrivalsAreOf(calls, fates, |calls|);
    forall k | 0 <= k < |calls| ensures k in at <==> Fits(calls[k].o) && !calls[k].fails {
      FateIs(calls, k);
    }
  }

  /** What call i adds to those before it. */
  lemma ArrivalsStep(calls: seq<Sending>, fates: seq<Fate>, i: nat)
    requires i < |calls| == |fates|
    ensures IdsUsed(fates, i + 1) == IdsUsed(fates, i) + if fates[i].Refused? then 0 else 1
    ensures Arrivals(calls, fates, i + 1)
         == Arrivals(calls, fates, i)
            + if fates[i].Arrived?
              then [MakeMessage(Counter(IdsUsed(fates, i + 1)), calls[i].o, calls[i].timestamp)] else []
  {
    assert Arrivals(calls, fates, i) + [] == Arrivals(calls, fates, i);
  }

  // ---- One more call --------------------------------------------------------------------

  lemma {:induction false} FatesPrefix(calls: seq<Sending>, c: Sending, n: nat)
    requires n <= |calls|
    ensures Fates(calls + [c], n) == Fates(calls, n)
  {
    if n > 0 {
      FatesPrefix(calls, c, n - 1);
    }
  }

  lemma {:induction false} ArrivalsPrefix(calls: seq<Sending>, c: Sending, fates: seq<Fate>, f: Fate, n: nat)
    requires n <= |calls| == |fates|
    ensures IdsUsed(fates + [f], n) == IdsUsed(fates, n)
    ensures Arrivals(calls + [c], fates + [f], n) == Arrivals(calls, fates, n)
  {
    if n > 0 {
      ArrivalsPrefix(calls, c, fates, f, n - 1);
    }
  }

  /** The messages that arrive of all the calls. */
  function ArrivalsOf(calls: seq<Sending>): seq<Message>
  {
    Arrivals(calls, Fates(calls, |calls|), |calls|)
  }

  function IdsUsedBy(calls: seq<Sending>): nat
  {
    IdsUsed(Fates(calls, |calls|), |calls|)
  }

  /** What one more call adds. */
  lemma OneMoreCall(calls: seq<Sending>, c: Sending)
    ensures IdsUsedBy(calls + [c]) == IdsUsedBy(calls) + if Fits(c.o) then 1 else 0
    ensures ArrivalsOf(calls + [c])
         == ArrivalsOf(calls)
            + if Fits(c.o) && !c.fails
              then [MakeMessage(Counter(IdsUsedBy(calls) + 1), c.o, c.timestamp)] else []
  {
    var fates := Fates(calls, |calls|);
    FatesPrefix(calls, c, |calls|);
    ArrivalsPrefix(calls, c, fates, FateOf(c), |calls|);
    assert Fates(calls + [c], |calls| + 1) == fates + [FateOf(c)];
    assert ArrivalsOf(calls) + [] == ArrivalsOf(calls);
  }
}
