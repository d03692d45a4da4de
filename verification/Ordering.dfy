/** Finite sets of numbers listed in increasing order, as an ORDER BY on a primary key does. */
module Ordering {

  predicate IsLeast(m: nat, s: set<nat>) {
    m in s && forall x | x in s :: m <= x
  }

  lemma LeastExists(s: set<nat>)
    requires s != {}
    ensures exists m :: IsLeast(m, s)
  {
    var a :| a in s;
    if s == {a} {
      assert IsLeast(a, s);
    } else {
      LeastExists(s - {a});
      var m :| IsLeast(m, s - {a});
      assert forall x | x in s :: x == a || x in s - {a};
      assert IsLeast(if a <= m then a else m, s);
    }
  }

  ghost function Least(s: set<nat>): (m: nat)
    requires s != {}
    ensures IsLeast(m, s)
  {
    LeastExists(s);
    var m :| IsLeast(m, s);
    m
  }

  ghost function Sorted(s: set<nat>): (ids: seq<nat>) {
    if s == {} then [] else [Least(s)] + Sorted(s - {Least(s)})
  }

  ghost predicate Lists(ids: seq<nat>, s: set<nat>) {
    && (forall x | x in s :: x in ids)
    && (forall i | 0 <= i < |ids| :: ids[i] in s)
    && (forall i, j | 0 <= i < j < |ids| :: ids[i] < ids[j])
  }

  lemma LeastFirst(m: nat, rest: seq<nat>, s: set<nat>)
    requires IsLeast(m, s) && Lists(rest, s - {m})
    ensures Lists([m] + rest, s)
  {
    var ids := [m] + rest;
    forall x | x in s ensures x in ids {
      if x != m { assert x in rest; }
    }
    forall i | 0 < i < |ids| ensures ids[i] in s && m < ids[i] {
      assert ids[i] == rest[i - 1];
    }
  }

  /** `Sorted` lists exactly the members, each once, smallest first. */
  lemma {:induction false} SortedFacts(s: set<nat>)
    ensures forall x | x in s :: x in Sorted(s)
    ensures forall i | 0 <= i < |Sorted(s)| :: Sorted(s)[i] in s
    ensures forall i, j | 0 <= i < j < |Sorted(s)| :: Sorted(s)[i] < Sorted(s)[j]
  {
    if s != {} {
      SortedFacts(s - {Least(s)});
      LeastFirst(Least(s), Sorted(s - {Least(s)}), s);
    }
  }

  function UpTo(s: set<nat>, x: nat): set<nat> {
    set y | y in s && y <= x
  }

  lemma UpToSplit(s: set<nat>, m: nat, x: nat)
    requires IsLeast(m, s) && x in s
    ensures UpTo(s, x) == if x == m then {m} else {m} + UpTo(s - {m}, x)
  {
  }

  /** The i-th member has exactly i members before it. */
  lemma {:induction false} SortedRank(s: set<nat>, i: nat)
    requires i < |Sorted(s)|
    ensures |UpTo(s, Sorted(s)[i])| == i + 1
  {
    var m := Least(s);
    var rest := s - {m};
    if i == 0 {
      UpToSplit(s, m, m);
    } else {
      SortedRank(rest, i - 1);
      var x := Sorted(rest)[i - 1];
      assert Sorted(s)[i] == x;
      assert x in rest by { SortedFacts(rest); }
      UpToSplit(s, m, x);
    }
  }

  lemma {:induction false} SortedLength(s: set<nat>)
    ensures |Sorted(s)| == |s|
  {
    if s != {} { SortedLength(s - {Least(s)}); }
  }

  method SortIds(s: set<nat>) returns (ids: seq<nat>)
    ensures ids == Sorted(s)
  {
    ids := [];
    var rest := s;
    while rest != {}
      invariant ids + Sorted(rest) == Sorted(s)
      decreases |rest|
    {
      LeastExists(rest);
      var m :| IsLeast(m, rest);
      assert m == Least(rest);
      ids := ids + [m];
      rest := rest - {m};
    }
  }
}
