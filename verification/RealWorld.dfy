/** The loss accounting of the benchmark's server side (src/benchmark/realworld.cpp). */
module Losses {
  import opened Bytes
  import opened Codec

  function Add(a: u32, b: u32): u32 { if a + b < U32 then a + b else a + b - U32 }

  function Subtract(a: u32, b: u32): u32 { if a >= b then a - b else a - b + U32 }

  /** The ids of the messages among the results of `read`. */
  function Ids(readings: seq<Result<Message>>): seq<u32>
  {
    if readings == [] then [] else
      var front, r := Ids(readings[..|readings| - 1]), readings[|readings| - 1];
      if r.Ok? then front + [r.value.header.id] else front
  }

  lemma {:induction false} IdsOfAll(results: seq<Result<Message>>)
    requires forall i :: 0 <= i < |results| ==> results[i].Ok?
    ensures |Ids(results)| == |results|
    ensures forall i :: 0 <= i < |results| ==> Ids(results)[i] == results[i].value.header.id
  {
    if results != [] {
      IdsOfAll(results[..|results| - 1]);
    }
  }

  /** Errors have no id, every message has one, and their order is that of the messages. */
  lemma {:induction false} IdsOfParts(a: seq<Result<Message>>, b: seq<Result<Message>>, m: Message, e: Error)
    ensures Ids(a + b) == Ids(a) + Ids(b) && Ids([Ok(m)]) == [m.header.id] && Ids([Err(e)]) == []
    decreases |b|
  {
    assert [Ok(m)][..0] == [] && [Result<Message>.Err(e)][..0] == [];
    if b == [] {
      assert a + b == a;
    } else {
      assert (a + b)[..|a + b| - 1] == a + b[..|b| - 1];
      IdsOfParts(a, b[..|b| - 1], m, e);
    }
  }

  function Last(ids: seq<u32>): u32 { if ids == [] then 0 else ids[|ids| - 1] }

  /** misses_ += id - i - 1, in unsigned arithmetic. */
  function Count(misses: u32, i: u32, id: u32): u32
  {
    Add(misses, Subtract(Subtract(id, i), 1))
  }

  /** The value of misses_ after messages with these ids. */
  function Misses(misses: u32, ids: seq<u32>): u32
  {
    if ids == [] then misses else
      var front := ids[..|ids| - 1];
      Count(Misses(misses, front), Last(front), Last(ids))
  }

  /** Ids as a handler that loses or refuses some messages delivers them. */
  ghost predicate Ascending(ids: seq<u32>)
  {
    && (ids != [] ==> ids[0] > 0)
    && forall i, j :: 0 <= i < j < |ids| ==> ids[i] < ids[j]
  }

  /** No operation of Count leaves the range of unsigned int. */
  predicate CountsExactly(misses: u32, i: u32, id: u32)
  {
    i < id && misses + (id - i - 1) < U32
  }

  /** Whatever the ids, and whatever misses_ held before: it grows by the last id less the messages
      read, up to multiples of 2^32. */
  lemma {:induction false} MissesUpToWrap(misses: u32, ids: seq<u32>) returns (wraps: int)
    ensures Misses(misses, ids) + |ids| == misses + Last(ids) + wraps * U32
  {
    if ids == [] {
      wraps := 0;
    } else {
      var front := ids[..|ids| - 1];
      wraps := MissesUpToWrap(misses, front);
      var m, i, id := Misses(misses, front), Last(front), Last(ids);
      var d := Subtract(id, i);
      if id < i { wraps := wraps + 1; }
      if d == 0 { wraps := wraps + 1; }
      if m + Subtract(d, 1) >= U32 { wraps := wraps - 1; }
    }
  }

  /** Loss conservation: misses_ grows by exactly the ids up to the last one that were not read, if and
      only if this number is neither negative nor more than the counter can take. */
  lemma MissesAreExactIff(misses: u32, ids: seq<u32>)
    ensures Misses(misses, ids) == misses + Last(ids) - |ids| <==> |ids| <= misses + Last(ids) < |ids| + U32
  {
    var wraps := MissesUpToWrap(misses, ids);
    if |ids| <= misses + Last(ids) < |ids| + U32 {
      assert -U32 < wraps * U32 < U32;
    }
  }

  /** Ids out of order, as from two writers on one pipe, each with its own counter, or from datagrams
      that overtake each other: two messages read, none lost, and a count of 2^32 - 1. */
  lemma MissesCanBeWrong()
    ensures !Ascending([2, 1]) && Misses(0, [2, 1]) == U32 - 1
  {
    var ids: seq<u32> := [2, 1];
    assert ids[1] < ids[0];
    assert ids[..1] == [2] && [2][..0] == [];
    assert Misses(0, ids[..1]) == Count(0, 0, 2) == 1;
  }

  lemma {:induction false} AscendingIsDense(ids: seq<u32>)
    requires Ascending(ids)
    ensures |ids| <= Last(ids)
  {
    if |ids| > 1 {
      AscendingIsDense(ids[..|ids| - 1]);
    }
  }

  lemma AscendingPrefix(ids: seq<u32>, k: nat)
    requires Ascending(ids) && k <= |ids|
    ensures Ascending(ids[..k])
  {
  }

  /** No update wraps around, if and only if the ids strictly increase from at least 1; and then the
      balance holds after every message. */
  lemma NoWrapIffAscending(ids: seq<u32>)
    ensures (forall k :: 0 <= k < |ids| ==> CountsExactly(Misses(0, ids[..k]), Last(ids[..k]), ids[k]))
            <==> Ascending(ids)
    ensures Ascending(ids) ==> forall k :: 0 <= k <= |ids| ==> Misses(0, ids[..k]) + k == Last(ids[..k])
  {
    if Ascending(ids) {
      forall k | 0 <= k <= |ids| ensures Misses(0, ids[..k]) + k == Last(ids[..k]) {
        AscendingPrefix(ids, k);
        AscendingIsDense(ids[..k]);
        MissesAreExactIff(0, ids[..k]);
      }
    }
    if forall k :: 0 <= k < |ids| ==> CountsExactly(Misses(0, ids[..k]), Last(ids[..k]), ids[k]) {
      assert ids != [] ==> CountsExactly(Misses(0, ids[..0]), Last(ids[..0]), ids[0]);
      forall j | 0 < j < |ids| ensures ids[j - 1] < ids[j] {
        assert CountsExactly(Misses(0, ids[..j]), Last(ids[..j]), ids[j]);
      }
      StepwiseAscending(ids);
    }
  }

  lemma {:induction false} StepwiseAscending(ids: seq<u32>)
    requires ids != [] ==> ids[0] > 0
    requires forall j :: 0 < j < |ids| ==> ids[j - 1] < ids[j]
    ensures Ascending(ids)
  {
    if |ids| > 1 {
      var n := |ids| - 1;
      StepwiseAscending(ids[..n]);
      assert forall i :: 0 <= i < n ==> ids[..n][i] <= ids[n - 1] < ids[n];
    }
  }
}

/** RealWorldBenchmark::run_server. */
module RealWorld {
  import opened Integers
  import opened Bytes
  import opened Codec
  import opened Losses

  /** What run_server returned, or that it still waits for the handler when the script ends. */
  datatype Outcome = Finished(success: bool) | Waiting

  /** A reading that ends the loop: an id from `count` on, or an error that is more than missing data. */
  predicate Ends(count: nat, r: Result<Message>)
  {
    match r
    case Ok(m) => m.header.id >= count
    case Err(e) => e != NoDataAvailable
  }

  /** How often the first n calls of await_data return true. */
  function Trues(polls: seq<bool>, n: nat): nat
    requires n <= |polls|
  {
    if n == 0 then 0 else Trues(polls, n - 1) + if polls[n - 1] then 1 else 0
  }

  /** Reading k is waited for: it is the first, or the one before was no message. */
  predicate IsAwaited(readings: seq<Result<Message>>, k: nat)
    requires k <= |readings|
  {
    k == 0 || readings[k - 1].Err?
  }

  /** How many of the first n readings are waited for. */
  function Awaited(readings: seq<Result<Message>>, n: nat): (a: nat)
    requires n <= |readings|
    ensures a <= n
  {
    if n == 0 then 0 else Awaited(readings, n - 1) + if IsAwaited(readings, n - 1) then 1 else 0
  }

  lemma {:induction false} AwaitedGrows(readings: seq<Result<Message>>, k: nat, n: nat)
    requires k <= n <= |readings|
    ensures Awaited(readings, k) <= Awaited(readings, n)
    decreases n
  {
    if k < n {
      AwaitedGrows(readings, k, n - 1);
    }
  }

  /** Both are sizes of sets. */
  lemma {:induction false} TruesAreCounted(polls: seq<bool>, n: nat)
    requires n <= |polls|
    ensures Trues(polls, n) == |set p: nat | p < n && polls[p]|
  {
    if n > 0 {
      TruesAreCounted(polls, n - 1);
      SizeNext((set p: nat | p < n - 1 && polls[p]), (set p: nat | p < n && polls[p]), n - 1, polls[n - 1]);
    }
  }

  lemma {:induction false} AwaitedAreCounted(readings: seq<Result<Message>>, n: nat)
    requires n <= |readings|
    ensures Awaited(readings, n) == |set k: nat | k < n && IsAwaited(readings, k)|
  {
    if n > 0 {
      AwaitedAreCounted(readings, n - 1);
      SizeNext((set k: nat | k < n - 1 && IsAwaited(readings, k)), (set k: nat | k < n && IsAwaited(readings, k)),
               n - 1, IsAwaited(readings, n - 1));
    }
  }

  /** With a true poll for every reading that is waited for, the server reads on to one that ends the loop. */
  lemma ServerReadsOn(count: nat, polls: seq<bool>, readings: seq<Result<Message>>, used: nat)
    requires used <= |readings| && forall j :: 0 <= j < used ==> !Ends(count, readings[j])
    requires used == |readings| || (IsAwaited(readings, used) && Trues(polls, |polls|) == Awaited(readings, used))
    requires Trues(polls, |polls|) >= Awaited(readings, |readings|)
    ensures forall k :: 0 <= k < |readings| ==> !Ends(count, readings[k])
  {
    if used < |readings| {
      AwaitedGrows(readings, used + 1, |readings|);
      assert false;
    }
  }

  /** Before the first reading. */
  lemma NothingRead(misses: u32, polls: seq<bool>, readings: seq<Result<Message>>)
    ensures Trues(polls, 0) == Awaited(readings, 0) && IsAwaited(readings, 0)
    ensures Last(Ids(readings[..0])) == 0 && Misses(misses, Ids(readings[..0])) == misses
  {
  }

  lemma AwaitedNext(readings: seq<Result<Message>>, k: nat)
    requires k < |readings|
    ensures Awaited(readings, k + 1) == Awaited(readings, k) + if IsAwaited(readings, k) then 1 else 0
  {
  }

  class RealWorldBenchmark {
    const count: nat
    var misses: u32

    constructor (count: nat)
      ensures this.count == count && misses == 0
    {
      this.count := count;
      misses := 0;
    }

    /** The inner loop: await_data until it returns true, unless more data was seen already. */
    method Await(polls: seq<bool>, from: nat, moreData: bool) returns (found: bool, next: nat)
      requires from <= |polls|
      ensures from <= next <= |polls| && (moreData ==> found && next == from)
      ensures !moreData ==> found == (next > from && polls[next - 1]) && (!found ==> next == |polls|)
      ensures forall p :: from <= p < next - 1 ==> !polls[p]
      ensures !found ==> forall p :: from <= p < next ==> !polls[p]
      ensures Trues(polls, next) == Trues(polls, from) + if found && !moreData then 1 else 0
    {
      found, next := moreData, from;
      while !found && next < |polls|
        invariant from <= next <= |polls| && (moreData ==> found && next == from)
        invariant !moreData && found ==> next > from && polls[next - 1]
        invariant forall p :: from <= p < next - 1 ==> !polls[p]
        invariant !found ==> forall p :: from <= p < next ==> !polls[p]
        invariant Trues(polls, next) == Trues(polls, from) + if found && !moreData then 1 else 0
      {
        found, next := polls[next], next + 1;
      }
    }

    /** The handler answers await_data with `polls` and read with `readings`, in order. */
    method RunServer(polls: seq<bool>, readings: seq<Result<Message>>)
      returns (outcome: Outcome, used: nat)
      modifies this
      ensures used <= |readings| && misses == Misses(old(misses), Ids(readings[..used]))
      ensures forall j :: 0 <= j < used - 1 || (0 <= j < used && outcome == Waiting) ==>
                match readings[j] case Ok(m) => m.header.id < count case Err(e) => e == NoDataAvailable
      ensures outcome == Finished(true) ==>
                if used == 0 then count == 0
                else readings[used - 1].Ok? && readings[used - 1].value.header.id >= count
      ensures outcome == Finished(false) ==>
                used > 0 && readings[used - 1].Err? && readings[used - 1].error != NoDataAvailable
      ensures outcome == Waiting ==>
                used == |readings| || (IsAwaited(readings, used) && Trues(polls, |polls|) == Awaited(readings, used))
      ensures outcome == Waiting && Trues(polls, |polls|) >= Awaited(readings, |readings|) ==>
                forall k :: 0 <= k < |readings| ==>
                  match readings[k] case Ok(m) => m.header.id < count case Err(e) => e == NoDataAvailable
    {
      hide Trues, Awaited, Ids, Misses, Last, Count;
      var moreData, p := false, 0;
      var i: u32 := 0;
      NothingRead(misses, polls, readings);
      used := 0;
      while i < count
        invariant used <= |readings| && p <= |polls|
        invariant i == Last(Ids(readings[..used])) && misses == Misses(old(misses), Ids(readings[..used]))
        invariant forall j :: 0 <= j < used - 1 ==> !Ends(count, readings[j])
        invariant if used == 0 then i == 0
                  else match readings[used - 1]
                       case Ok(m) => i == m.header.id
                       case Err(e) => e == NoDataAvailable && i < count
        invariant Trues(polls, p) == Awaited(readings, used) && moreData == !IsAwaited(readings, used)
        decreases |readings| - used
      {
        var found;
        found, p := Await(polls, p, moreData);
        if !found || used == |readings| {
          if Trues(polls, |polls|) >= Awaited(readings, |readings|) {
            ServerReadsOn(count, polls, readings, used);
          }
          return Waiting, used;
        }
        var result := readings[used];
        OneMore(old(misses), readings, used);
        AwaitedNext(readings, used);
        used := used + 1;
        moreData := result.Ok?;
        if result.Err? {
          if result.error != NoDataAvailable {
            return Finished(false), used;
          }
        } else {
          misses := Count(misses, i, result.value.header.id);
          i := result.value.header.id;
        }
      }
      outcome := Finished(true);
    }
  }

  /** What one more reading does to the ids and the count. */
  lemma OneMore(misses: u32, readings: seq<Result<Message>>, k: nat)
    requires k < |readings|
    ensures var before, after := Ids(readings[..k]), Ids(readings[..k + 1]);
            if readings[k].Ok? then
              var id := readings[k].value.header.id;
              Last(after) == id && Misses(misses, after) == Count(Misses(misses, before), Last(before), id)
            else after == before
  {
    assert readings[..k + 1][..k] == readings[..k];
    var before, after := Ids(readings[..k]), Ids(readings[..k + 1]);
    if readings[k].Ok? {
      assert after[..|after| - 1] == before;
    }
  }

  /** A server that succeeds on strictly increasing ids within 1..n has seen id n, and its misses
      are the messages that did not arrive. */
  lemma SuccessfulCount(count: nat, readings: seq<Result<Message>>, used: nat)
    requires used <= |readings|
    requires if used == 0 then count == 0
             else readings[used - 1].Ok? && readings[used - 1].value.header.id >= count
    requires Ascending(Ids(readings[..used]))
    requires forall id :: id in Ids(readings[..used]) ==> id <= count
    ensures Misses(0, Ids(readings[..used])) == count - |Ids(readings[..used])|
  {
    var ids := Ids(readings[..used]);
    if used > 0 {
      OneMore(0, readings, used - 1);
    }
    AscendingIsDense(ids);
    MissesAreExactIff(0, ids);
    if ids != [] {
      assert Last(ids) in ids;
    }
  }
}

/** The accounting on top of the ring. */
module RingLosses {
  import opened Bytes
  import opened Codec
  import opened Transitions
  import opened Ring
  import opened RingInvariant
  import opened RingTheorems
  import opened Losses

  /** How many of the first n attempts failed. */
  function FailedBefore(failed: seq<nat>, n: nat): nat
  {
    if n == 0 then 0 else FailedBefore(failed, n - 1) + if n - 1 in failed then 1 else 0
  }

  lemma {:induction false} AllFailed(failed: seq<nat>, from: nat, to: nat)
    requires from <= to && forall p :: from <= p < to ==> p in failed
    ensures FailedBefore(failed, to) == FailedBefore(failed, from) + to - from
  {
    if from < to {
      AllFailed(failed, from, to - 1);
    }
  }

  /** Positions between the r-th published one and the next are not published. */
  lemma NotPublished(published: seq<nat>, n: nat, r: nat, p: nat)
    requires Ordered(published, n) && r < |published|
    requires (if r == 0 then 0 else published[r - 1] + 1) <= p < published[r]
    ensures p !in published
  {
    forall q | 0 <= q < |published| ensures published[q] != p {
      if q < r {
        assert published[q] <= published[r - 1];
      }
    }
  }

  /** What is missing up to the r-th published position is what failed before it. */
  lemma {:induction false} GapsAreFailures(published: seq<nat>, failed: seq<nat>, n: nat, r: nat)
    requires Ordered(published, n) && 0 < r <= |published|
    requires forall p :: 0 <= p < n ==> (p in published <==> p !in failed)
    ensures FailedBefore(failed, published[r - 1] + 1) == published[r - 1] + 1 - r
  {
    var from := if r == 1 then 0 else published[r - 2] + 1;
    if r > 1 {
      GapsAreFailures(published, failed, n, r - 1);
    }
    forall p | from <= p < published[r - 1] ensures p in failed {
      NotPublished(published, n, r - 1, p);
    }
    AllFailed(failed, from, published[r - 1]);
    assert published[r - 1] in published;
  }

  /** misses_ is the number of writes that failed before the last message read: over any run of the
      ring with fewer than 2^32 writes, and with empty polls between the messages. */
  lemma MissesAreFailedWrites(md: Medium, start: State, acts: seq<Action>, readings: seq<Result<Message>>)
    requires Reachable(md, start, acts) && |Accepted(acts)| < U32
    requires Ids(readings) <= Ids(After(Machine(md), start, acts).log.results)
    ensures Ascending(Ids(readings))
    ensures Misses(0, Ids(readings))
         == FailedBefore(After(Machine(md), start, acts).log.failed, Last(Ids(readings)))
  {
    AttemptsAreTheCalls(md, start, acts);
    InvAlways(md, start, acts);
    MissesOfLog(After(Machine(md), start, acts), readings);
  }

  /** The ids read are those of the published attempts, in order. */
  lemma IdsOfLog(s: State, ids: seq<u32>)
    requires Numbered(s) && Delivered(s) && |s.log.attempts| < U32 && ids <= Ids(s.log.results)
    ensures |ids| <= |s.log.published| && forall i :: 0 <= i < |ids| ==> ids[i] == s.log.published[i] + 1
  {
    IdsOfAll(s.log.results);
    forall i | 0 <= i < |ids| ensures ids[i] == s.log.published[i] + 1 {
      assert ids[i] == Ids(s.log.results)[i];
      CounterCounts(s.log.published[i] + 1);
    }
  }

  lemma MissesOfLog(s: State, readings: seq<Result<Message>>)
    requires Numbered(s) && Delivered(s) && |s.log.attempts| < U32
    requires Ids(readings) <= Ids(s.log.results)
    ensures Ascending(Ids(readings))
    ensures Misses(0, Ids(readings)) == FailedBefore(s.log.failed, Last(Ids(readings)))
  {
    IdsOfLog(s, Ids(readings));
    MissesOfIds(Ids(readings), s.log.published, s.log.failed,
                if s.w.pc.Outside? then |s.log.attempts| else |s.log.attempts| - 1);
  }

  lemma AreAscending(ids: seq<u32>, published: seq<nat>, n: nat)
    requires Ordered(published, n) && |ids| <= |published|
    requires forall i :: 0 <= i < |ids| ==> ids[i] == published[i] + 1
    ensures Ascending(ids)
  {
  }

  lemma MissesOfIds(ids: seq<u32>, published: seq<nat>, failed: seq<nat>, n: nat)
    requires Ordered(published, n) && Accounted(published, failed, n) && |ids| <= |published|
    requires forall i :: 0 <= i < |ids| ==> ids[i] == published[i] + 1
    ensures Ascending(ids)
    ensures Misses(0, ids) == FailedBefore(failed, Last(ids))
  {
    AreAscending(ids, published, n);
    AscendingIsDense(ids);
    MissesAreExactIff(0, ids);
    if ids == [] {
      assert FailedBefore(failed, 0) == 0;
    } else {
      assert Last(ids) == published[|ids| - 1] + 1;
      GapsAreFailures(published, failed, n, |ids|);
    }
  }

  lemma {:induction false} NoneFailed(n: nat)
    ensures FailedBefore([], n) == 0
  {
    if n > 0 {
      NoneFailed(n - 1);
    }
  }

  /** Without failed writes nothing is missed. */
  lemma NothingIsMissed(md: Medium, start: State, acts: seq<Action>, readings: seq<Result<Message>>)
    requires Reachable(md, start, acts) && |Accepted(acts)| < U32
    requires forall i :: 0 <= i < |acts| ==> !IsWriterFailure(acts[i])
    requires Ids(readings) <= Ids(After(Machine(md), start, acts).log.results)
    ensures Misses(0, Ids(readings)) == 0
  {
    NoFailures(md, start, acts);
    MissesAreFailedWrites(md, start, acts, readings);
    NoneFailed(Last(Ids(readings)));
  }
}

/** The accounting on top of a connection, stream or pipe. */
module ConnectionLosses {
  import opened Bytes
  import opened Codec
  import opened Transitions
  import Fifos
  import opened Sendings
  import opened Losses

  function IdsOf(messages: seq<Message>): (r: seq<u32>)
    ensures |r| == |messages| && forall i :: 0 <= i < |r| ==> r[i] == messages[i].header.id
  {
    seq(|messages|, i requires 0 <= i < |messages| => messages[i].header.id)
  }

  /** The first r messages to arrive are those of the first k calls, the last of which is the r-th to
      arrive. */
  lemma {:induction false} CallOfArrival(calls: seq<Sending>, fates: seq<Fate>, n: nat, r: nat) returns (k: nat)
    requires n <= |calls| == |fates| && r <= |Arrivals(calls, fates, n)|
    ensures k <= n && Arrivals(calls, fates, k) == Arrivals(calls, fates, n)[..r]
    ensures r == 0 ==> k == 0
    ensures r > 0 ==> k > 0 && fates[k - 1].Arrived?
    decreases n
  {
    if r == 0 {
      k := 0;
    } else if fates[n - 1].Arrived? && r == |Arrivals(calls, fates, n)| {
      k := n;
    } else {
      k := CallOfArrival(calls, fates, n - 1, r);
    }
  }

  /** misses_ is the number of calls of `write` that used an id and failed before that of the last message
      read, k: over any calls that use fewer than 2^32 ids, and with empty polls between the messages. */
  lemma MissesAreFailedSends(calls: seq<Sending>, fates: seq<Fate>, n: nat, readings: seq<Result<Message>>)
    returns (k: nat)
    requires n <= |calls| == |fates| && IdsUsed(fates, n) < U32
    requires Ids(readings) <= IdsOf(Arrivals(calls, fates, n))
    ensures k <= n && Ids(readings) == IdsOf(Arrivals(calls, fates, k)) && Ascending(Ids(readings))
    ensures Ids(readings) != [] ==> k > 0 && fates[k - 1].Arrived?
    ensures Last(Ids(readings)) == IdsUsed(fates, k)
    ensures Misses(0, Ids(readings)) == LostIds(fates, k)
  {
    var ids := Ids(readings);
    k := CallOfArrival(calls, fates, n, |ids|);
    assert ids == IdsOf(Arrivals(calls, fates, k));
    FewerIds(fates, k, n);
    GapsAreFailedSends(calls, fates, k);
    LastArrival(calls, fates, k);
    AscendingIsDense(ids);
    MissesAreExactIff(0, ids);
  }

  lemma IdsOfResults(results: seq<Result<Message>>, messages: seq<Message>)
    requires |results| <= |messages| && forall i :: 0 <= i < |results| ==> results[i] == Ok(messages[i])
    ensures Ids(results) <= IdsOf(messages)
  {
    IdsOfAll(results);
  }

  /** A stream: `results` as StreamSockets.Transmit returns them, among empty polls. */
  lemma MissesOnAStream(calls: seq<Sending>, results: seq<Result<Message>>, readings: seq<Result<Message>>)
    returns (k: nat)
    requires IdsUsedBy(calls) < U32 && |results| <= |ArrivalsOf(calls)|
    requires forall i :: 0 <= i < |results| ==> results[i] == Ok(ArrivalsOf(calls)[i])
    requires Ids(readings) <= Ids(results)
    ensures k <= |calls| && Last(Ids(readings)) == IdsUsed(Fates(calls, |calls|), k)
    ensures Misses(0, Ids(readings)) == LostIds(Fates(calls, |calls|), k)
  {
    IdsOfResults(results, ArrivalsOf(calls));
    k := MissesAreFailedSends(calls, Fates(calls, |calls|), |calls|, readings);
  }

  /** The pipe: what `read` has returned after any run of writes and reads. */
  lemma MissesOnThePipe(acts: seq<Fifos.Action>, readings: seq<Result<Message>>) returns (k: nat)
    requires CanRun(Fifos.Machine(), Fifos.START, acts) && IdsUsedBy(Fifos.Calls(acts)) < U32
    requires Ids(readings) <= Ids(After(Fifos.Machine(), Fifos.START, acts).results)
    ensures var calls := Fifos.Calls(acts);
            && k <= |calls| && Last(Ids(readings)) == IdsUsed(Fates(calls, |calls|), k)
            && Misses(0, Ids(readings)) == LostIds(Fates(calls, |calls|), k)
  {
    Fifos.WrittenAreTheCalls(acts);
    Fifos.InvAlways(acts);
    k := MissesOnAStream(Fifos.Calls(acts), After(Fifos.Machine(), Fifos.START, acts).results, readings);
  }

  lemma {:induction false} FewerIds(fates: seq<Fate>, k: nat, n: nat)
    requires k <= n <= |fates|
    ensures IdsUsed(fates, k) <= IdsUsed(fates, n)
  {
    if k < n {
      FewerIds(fates, k, n - 1);
    }
  }

  lemma LastArrival(calls: seq<Sending>, fates: seq<Fate>, k: nat)
    requires k <= |calls| == |fates| && IdsUsed(fates, k) < U32 && (k > 0 ==> fates[k - 1].Arrived?)
    ensures Last(IdsOf(Arrivals(calls, fates, k))) == IdsUsed(fates, k)
  {
    CounterCounts(IdsUsed(fates, k));
  }
}
