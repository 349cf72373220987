/** Finite sets of natural numbers listed in increasing order: what a
    `BTreeSet` yields when it is iterated, and what `sort` followed by
    `dedup` leaves of a list. */
module SortedSets {

  function ToSet<T(==)>(s: seq<T>): set<T> {
    set x | x in s
  }

  predicate IsLeast(s: set<nat>, m: nat) {
    m in s && forall y :: y in s ==> m <= y
  }

  lemma {:induction false} LeastExists(s: set<nat>)
    requires s != {}
    ensures exists m :: IsLeast(s, m)
    decreases s
  {
    var x :| x in s;
    if s == {x} {
      assert IsLeast(s, x);
    } else {
      LeastExists(s - {x});
      var m :| IsLeast(s - {x}, m);
      var least := if m <= x then m else x;
      forall y | y in s ensures least <= y {
        assert y == x || y in s - {x};
      }
      assert IsLeast(s, least);
    }
  }

  function Min(s: set<nat>): (m: nat)
    requires s != {}
    ensures m in s && forall y :: y in s ==> m <= y
  {
    LeastExists(s);
    var m :| IsLeast(s, m);
    m
  }

  /** The elements of `s`, each once, in increasing order. */
  function SortedSeq(s: set<nat>): (r: seq<nat>)
    ensures ToSet(r) == s
    decreases |s|
  {
    if s == {} then []
    else
      var m := Min(s);
      var rest := SortedSeq(s - {m});
      assert ToSet([m] + rest) == {m} + ToSet(rest);
      [m] + rest
  }

  lemma {:induction false} SortedSeqIncreases(s: set<nat>, i: nat, j: nat)
    requires i < j < |SortedSeq(s)|
    ensures SortedSeq(s)[i] < SortedSeq(s)[j]
    decreases |s|
  {
    var m := Min(s);
    var rest := SortedSeq(s - {m});
    if i == 0 {
      assert rest[j - 1] in ToSet(rest);
    } else {
      SortedSeqIncreases(s - {m}, i - 1, j - 1);
    }
  }
}
