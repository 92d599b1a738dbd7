// Move ordering: lists of (score, move) pairs sorted the way Python sorts
// tuples, first by score and then by the move's coordinates.

module Ordering {
  import opened Grid

  /** A move with its one-ply score. */
  type Scored = (real, Move)

  /** Python's tuple order on (score, (x, y)). */
  predicate KeyLess(a: Scored, c: Scored)
  {
    a.0 < c.0 || (a.0 == c.0 && (a.1.0 < c.1.0 || (a.1.0 == c.1.0 && a.1.1 < c.1.1)))
  }

  /** a may precede c: in ascending order c is not smaller, in descending order not larger. */
  predicate InOrder(a: Scored, c: Scored, descending: bool)
  {
    if descending then !KeyLess(a, c) else !KeyLess(c, a)
  }

  predicate Sorted(s: seq<Scored>, descending: bool)
  {
    forall i, j :: 0 <= i < j < |s| ==> InOrder(s[i], s[j], descending)
  }

  /** The key order is total and strict: distinct pairs are ordered one way. */
  lemma KeyTrichotomy(a: Scored, c: Scored)
    ensures a == c || KeyLess(a, c) || KeyLess(c, a)
    ensures !(KeyLess(a, c) && KeyLess(c, a))
    ensures !KeyLess(a, a)
  {
  }

  /** x may precede every element of a sorted list whose head it may precede. */
  lemma InOrderAll(x: Scored, s: seq<Scored>, descending: bool)
    requires Sorted(s, descending) && s != [] && InOrder(x, s[0], descending)
    ensures Sorted([x] + s, descending)
  {
    forall i | 0 <= i < |s|
      ensures InOrder(x, s[i], descending)
    {
      KeyTrichotomy(x, s[0]);
      KeyTrichotomy(s[0], s[i]);
    }
    assert forall i :: 0 < i < |[x] + s| ==> ([x] + s)[i] == s[i - 1];
  }

  /** The head of a sorted list that x may not precede may precede the list with x inserted. */
  lemma HeadBeforeInserted(x: Scored, s: seq<Scored>, tail: seq<Scored>, descending: bool)
    requires Sorted(s, descending) && s != [] && !InOrder(x, s[0], descending)
    requires multiset(tail) == multiset(s[1..]) + multiset{x} && Sorted(tail, descending)
    ensures Sorted([s[0]] + tail, descending)
  {
    forall y | y in tail
      ensures InOrder(s[0], y, descending)
    {
      assert y in multiset(tail);
      KeyTrichotomy(x, s[0]);
      if y != x {
        assert y in multiset(s[1..]);
        var i :| 0 <= i < |s[1..]| && s[1..][i] == y;
        assert s[i + 1] == y;
      }
    }
    assert forall i :: 0 < i < |[s[0]] + tail| ==> ([s[0]] + tail)[i] == tail[i - 1] && tail[i - 1] in tail;
  }

  /** Inserts x before the first element it may precede. */
  function Insert(x: Scored, s: seq<Scored>, descending: bool): (r: seq<Scored>)
    requires Sorted(s, descending)
    ensures multiset(r) == multiset(s) + multiset{x}
    ensures Sorted(r, descending)
  {
    if s == [] then [x]
    else if InOrder(x, s[0], descending) then
      InOrderAll(x, s, descending);
      [x] + s
    else
      var tail := Insert(x, s[1..], descending);
      assert s == [s[0]] + s[1..];
      HeadBeforeInserted(x, s, tail, descending);
      [s[0]] + tail
  }

  /** Insertion sort: a sorted permutation of s. */
  function Sort(s: seq<Scored>, descending: bool): (r: seq<Scored>)
    ensures multiset(r) == multiset(s)
    ensures Sorted(r, descending)
  {
    if s == [] then []
    else
      assert s == [s[0]] + s[1..];
      Insert(s[0], Sort(s[1..], descending), descending)
  }

  /** Two sorted permutations of one list start with the same element. */
  lemma SortedHeads(s: seq<Scored>, t: seq<Scored>, descending: bool)
    requires Sorted(s, descending) && Sorted(t, descending)
    requires multiset(s) == multiset(t) && s != []
    ensures t != [] && s[0] == t[0]
  {
    assert s[0] in multiset(t);
    assert t[0] in multiset(s);
    var i :| 0 <= i < |t| && t[i] == s[0];
    var j :| 0 <= j < |s| && s[j] == t[0];
    KeyTrichotomy(s[0], t[0]);
  }

  lemma TailMultiset(s: seq<Scored>, t: seq<Scored>)
    requires s != [] && t != [] && s[0] == t[0] && multiset(s) == multiset(t)
    ensures multiset(s[1..]) == multiset(t[1..])
  {
    assert s == [s[0]] + s[1..] && t == [t[0]] + t[1..];
    assert multiset(s[1..]) == multiset(s) - multiset{s[0]};
    assert multiset(t[1..]) == multiset(t) - multiset{t[0]};
  }

  /**
   * The sorted order is unique: two sorted permutations of the same list are
   * equal, so any correct sort yields Python's result.
   */
  lemma {:induction false} SortedUnique(s: seq<Scored>, t: seq<Scored>, descending: bool)
    requires Sorted(s, descending) && Sorted(t, descending)
    requires multiset(s) == multiset(t)
    ensures s == t
  {
    if s == [] {
      assert |multiset(t)| == 0;
    } else {
      SortedHeads(s, t, descending);
      TailMultiset(s, t);
      assert Sorted(s[1..], descending) && Sorted(t[1..], descending);
      SortedUnique(s[1..], t[1..], descending);
      assert s == [s[0]] + s[1..] && t == [t[0]] + t[1..];
    }
  }
}
