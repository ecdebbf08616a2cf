module Integers {

  function Min(a: int, b: int): int { if a < b then a else b }

  function Max(a: int, b: int): int { if a < b then b else a }

  /** One more number is put into a set, or not. */
  lemma SizeNext(s: set<nat>, t: set<nat>, n: nat, more: bool)
    requires n !in s && (n in t <==> more)
    requires forall i :: i != n ==> (i in s <==> i in t)
    ensures |t| == |s| + if more then 1 else 0
  {
    assert t == if more then s + {n} else s;
  }
}
