/** The table of code areas that replace each other (testdata/main.py). */
module Overlaps {
  import opened Integers

  datatype Area = Area(start: int, length: int, name: string)

  predicate Overlaps(x: Area, y: Area)
  {
    Max(x.start, y.start) < Min(x.start + x.length, y.start + y.length)
  }

  predicate Covers(a: Area, address: int)
  {
    a.start <= address < a.start + a.length
  }

  /** Two areas overlap when they share an address; an empty one overlaps nothing. */
  lemma OverlapsIffShared(x: Area, y: Area)
    ensures Overlaps(x, y) <==> exists address :: Covers(x, address) && Covers(y, address)
    ensures Overlaps(x, y) <==> x.length > 0 && y.length > 0 && -x.length < x.start - y.start < y.length
  {
    if Overlaps(x, y) {
      assert Covers(x, Max(x.start, y.start)) && Covers(y, Max(x.start, y.start));
    }
  }

  // ---- The loop ---------------------------------------------------------------

  /** What the reverse scan leaves of the table. */
  function Keep(areas: seq<Area>, add: Area): (r: seq<Area>)
    ensures |r| <= |areas|
  {
    if areas == [] then [] else
      (if Overlaps(add, areas[0]) then [] else [areas[0]]) + Keep(areas[1..], add)
  }

  /** The table after these intervals. */
  function Table(intervals: seq<Area>): (r: seq<Area>)
    ensures |r| <= |intervals|
  {
    if intervals == [] then [] else
      var n := |intervals| - 1;
      Keep(Table(intervals[..n]), intervals[n]) + [intervals[n]]
  }

  /** The inner loop, from the last area to the first. */
  method DeleteOverlapping(before: seq<Area>, add: Area) returns (areas: seq<Area>, deleted: nat)
    ensures areas == Keep(before, add)
    ensures deleted + |areas| == |before|
  {
    areas, deleted := before, 0;
    for i := |before| downto 0
      invariant areas == before[..i] + Keep(before[i..], add)
      invariant deleted + |areas| == |before|
    {
      assert before[i..][1..] == before[i + 1..];
      if Overlaps(add, areas[i]) {
        deleted := deleted + 1;
        areas := areas[..i] + areas[i + 1..];
      }
    }
    assert before[0..] == before;
  }

  method Process(addresses: seq<Area>) returns (areas: seq<Area>, count: nat)
    ensures areas == Table(addresses)
    ensures count + |areas| == |addresses|
  {
    areas, count := [], 0;
    for k := 0 to |addresses|
      invariant areas == Table(addresses[..k])
      invariant count + |areas| == k
    {
      var rest, deleted := DeleteOverlapping(areas, addresses[k]);
      count := count + deleted;
      areas := rest + [addresses[k]];
      assert addresses[..k + 1][..k] == addresses[..k];
    }
    assert addresses[..|addresses|] == addresses;
  }

  // ---- What the table holds ---------------------------------------------------

  /** Interval p is not replaced by any of those after it among the first n. */
  predicate Survives(intervals: seq<Area>, p: nat, n: nat)
    requires p < n <= |intervals|
  {
    forall m :: p < m < n ==> !Overlaps(intervals[m], intervals[p])
  }

  /** The surviving intervals among the first k, in arrival order. */
  function Survivors(intervals: seq<Area>, n: nat, k: nat): seq<Area>
    requires k <= n <= |intervals|
  {
    if k == 0 then [] else
      Survivors(intervals, n, k - 1) + if Survives(intervals, k - 1, n) then [intervals[k - 1]] else []
  }

  lemma {:induction false} KeepConcat(a: seq<Area>, b: seq<Area>, add: Area)
    ensures Keep(a + b, add) == Keep(a, add) + Keep(b, add)
  {
    if a == [] {
      assert a + b == b;
    } else {
      assert (a + b)[1..] == a[1..] + b;
      KeepConcat(a[1..], b, add);
    }
  }

  lemma {:induction false} KeepOfSurvivors(intervals: seq<Area>, n: nat, k: nat)
    requires k <= n < |intervals|
    ensures Keep(Survivors(intervals, n, k), intervals[n]) == Survivors(intervals, n + 1, k)
  {
    if k > 0 {
      KeepOfSurvivors(intervals, n, k - 1);
      assert Survives(intervals, k - 1, n + 1) <==>
             Survives(intervals, k - 1, n) && !Overlaps(intervals[n], intervals[k - 1]);
      KeepConcat(Survivors(intervals, n, k - 1),
                 if Survives(intervals, k - 1, n) then [intervals[k - 1]] else [], intervals[n]);
    }
  }

  lemma {:induction false} TableOfFirst(intervals: seq<Area>, n: nat)
    requires n <= |intervals|
    ensures Table(intervals[..n]) == Survivors(intervals, n, n)
  {
    if n > 0 {
      TableOfFirst(intervals, n - 1);
      assert intervals[..n][..n - 1] == intervals[..n - 1];
      KeepOfSurvivors(intervals, n - 1, n - 1);
    }
  }

  /** The table is the intervals that no later interval overlaps, in arrival order. */
  lemma TableIsSurvivors(intervals: seq<Area>)
    ensures Table(intervals) == Survivors(intervals, |intervals|, |intervals|)
  {
    assert intervals[..|intervals|] == intervals;
    TableOfFirst(intervals, |intervals|);
  }

  lemma {:induction false} SurvivorsAt(intervals: seq<Area>, n: nat, k: nat) returns (ps: seq<nat>)
    requires k <= n <= |intervals|
    ensures |ps| == |Survivors(intervals, n, k)|
    ensures forall j :: 0 <= j < |ps| ==> ps[j] < k && Survivors(intervals, n, k)[j] == intervals[ps[j]]
    ensures forall i, j :: 0 <= i < j < |ps| ==> ps[i] < ps[j]
    ensures forall p :: 0 <= p < k ==> (p in ps <==> Survives(intervals, p, n))
  {
    hide Survives;
    ps := [];
    if k > 0 {
      ps := SurvivorsAt(intervals, n, k - 1);
      if Survives(intervals, k - 1, n) {
        ps := ps + [k - 1];
      }
    }
  }

  /** So the areas of the table are those at some positions, in this order: the positions of the intervals
      that share no address with a later one. */
  lemma TableLaw(intervals: seq<Area>) returns (ps: seq<nat>)
    ensures |ps| == |Table(intervals)|
    ensures forall j :: 0 <= j < |ps| ==> ps[j] < |intervals| && Table(intervals)[j] == intervals[ps[j]]
    ensures forall i, j :: 0 <= i < j < |ps| ==> ps[i] < ps[j]
    ensures forall p :: 0 <= p < |intervals| ==>
              (p in ps <==> forall m :: p < m < |intervals| ==> !Overlaps(intervals[m], intervals[p]))
  {
    TableIsSurvivors(intervals);
    ps := SurvivorsAt(intervals, |intervals|, |intervals|);
    forall p | 0 <= p < |intervals|
      ensures p in ps <==> forall m :: p < m < |intervals| ==> !Overlaps(intervals[m], intervals[p])
    {
      assert p in ps <==> Survives(intervals, p, |intervals|);
    }
  }

  lemma {:induction false} InSurvivors(intervals: seq<Area>, n: nat, k: nat, a: Area)
    requires k <= n <= |intervals|
    ensures a in Survivors(intervals, n, k) <==>
            exists p :: 0 <= p < k && intervals[p] == a && Survives(intervals, p, n)
  {
    if k > 0 {
      InSurvivors(intervals, n, k - 1, a);
    }
  }

  ghost predicate PairwiseDisjoint(areas: seq<Area>)
  {
    forall i, j :: 0 <= i < j < |areas| ==> !Overlaps(areas[i], areas[j])
  }

  lemma {:induction false} SurvivorsAreDisjoint(intervals: seq<Area>, n: nat, k: nat)
    requires k <= n <= |intervals|
    ensures PairwiseDisjoint(Survivors(intervals, n, k))
  {
    if k > 0 {
      SurvivorsAreDisjoint(intervals, n, k - 1);
      var front := Survivors(intervals, n, k - 1);
      forall i | 0 <= i < |front| ensures !Overlaps(front[i], intervals[k - 1]) {
        InSurvivors(intervals, n, k - 1, front[i]);
        var p :| 0 <= p < k - 1 && intervals[p] == front[i] && Survives(intervals, p, n);
        assert !Overlaps(intervals[k - 1], intervals[p]);
      }
    }
  }

  /** No two areas of the table overlap. */
  lemma TableIsDisjoint(intervals: seq<Area>)
    ensures forall i, j :: 0 <= i < j < |Table(intervals)| ==> !Overlaps(Table(intervals)[i], Table(intervals)[j])
  {
    TableIsSurvivors(intervals);
    SurvivorsAreDisjoint(intervals, |intervals|, |intervals|);
  }

  /** Interval p is the last one that covers the address. */
  ghost predicate MostRecent(intervals: seq<Area>, p: nat, address: int)
  {
    && p < |intervals|
    && Covers(intervals[p], address)
    && forall m :: p < m < |intervals| ==> !Covers(intervals[m], address)
  }

  lemma SurvivorIsMostRecent(intervals: seq<Area>, p: nat, address: int)
    requires p < |intervals| && Survives(intervals, p, |intervals|) && Covers(intervals[p], address)
    ensures MostRecent(intervals, p, address)
  {
    forall m | p < m < |intervals| ensures !Covers(intervals[m], address) {
      OverlapsIffShared(intervals[m], intervals[p]);
    }
  }

  /** The area of the table that covers an address is the most recent interval that does, and there
      is one exactly when nothing later has replaced that interval. */
  lemma LookupIsMostRecent(intervals: seq<Area>, address: int, a: Area)
    ensures a in Table(intervals) && Covers(a, address) <==>
            exists p :: 0 <= p < |intervals| && intervals[p] == a && Survives(intervals, p, |intervals|)
                        && MostRecent(intervals, p, address)
  {
    TableIsSurvivors(intervals);
    InSurvivors(intervals, |intervals|, |intervals|, a);
    if a in Table(intervals) && Covers(a, address) {
      var p :| 0 <= p < |intervals| && intervals[p] == a && Survives(intervals, p, |intervals|);
      SurvivorIsMostRecent(intervals, p, address);
    }
  }
}
