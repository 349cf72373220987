/** Stable sorting by display name and SID, and removal of adjacent
    duplicates: what the standard library's `sort_by` and `dedup_by` do. */
module StableSort {

  /** The sort key: rank of the lower-cased name, then the SID. */
  datatype Key = Key(fold: nat, sid: string)

  /** Lexicographic order by code point. */
  predicate StrLe(a: string, b: string) {
    a == "" || (b != "" && (a[0] < b[0] || (a[0] == b[0] && StrLe(a[1..], b[1..]))))
  }

  lemma {:induction false} StrTotal(a: string, b: string)
    ensures StrLe(a, b) || StrLe(b, a)
    ensures StrLe(a, b) && StrLe(b, a) ==> a == b
  {
    if a != "" && b != "" {
      StrTotal(a[1..], b[1..]);
      assert a == [a[0]] + a[1..] && b == [b[0]] + b[1..];
    }
  }

  lemma {:induction false} StrTransitive(a: string, b: string, c: string)
    requires StrLe(a, b) && StrLe(b, c)
    ensures StrLe(a, c)
  {
    if a != "" && a[0] == b[0] == c[0] {
      StrTransitive(a[1..], b[1..], c[1..]);
    }
  }

  predicate KeyLe(a: Key, b: Key) {
    a.fold < b.fold || (a.fold == b.fold && StrLe(a.sid, b.sid))
  }

  lemma KeyOrder(a: Key, b: Key, c: Key)
    ensures KeyLe(a, b) || KeyLe(b, a)
    ensures KeyLe(a, b) && KeyLe(b, a) ==> a == b
    ensures KeyLe(a, b) && KeyLe(b, c) ==> KeyLe(a, c)
  {
    StrTotal(a.sid, b.sid);
    if StrLe(a.sid, b.sid) && StrLe(b.sid, c.sid) {
      StrTransitive(a.sid, b.sid, c.sid);
    }
  }

  // ---------- Sorting ----------

  function Insert<T>(x: T, s: seq<T>, key: T -> Key): seq<T> {
    if s == [] then [x]
    else if KeyLe(key(x), key(s[0])) then [x] + s
    else [s[0]] + Insert(x, s[1..], key)
  }

  /** Stable: of two elements with equal keys the earlier one stays first. */
  function Sort<T>(s: seq<T>, key: T -> Key): seq<T> {
    if s == [] then [] else Insert(s[0], Sort(s[1..], key), key)
  }

  predicate Sorted<T>(s: seq<T>, key: T -> Key) {
    |s| >= 2 ==> KeyLe(key(s[0]), key(s[1])) && Sorted(s[1..], key)
  }

  lemma {:induction false} InsertSorted<T>(x: T, s: seq<T>, key: T -> Key)
    requires Sorted(s, key)
    ensures Sorted(Insert(x, s, key), key)
    ensures multiset(Insert(x, s, key)) == multiset(s) + multiset{x}
    ensures s != [] ==> Insert(x, s, key)[0] == x || Insert(x, s, key)[0] == s[0]
  {
    if s != [] {
      KeyOrder(key(x), key(s[0]), key(s[0]));
      assert s == [s[0]] + s[1..];
      if KeyLe(key(x), key(s[0])) {
        assert ([x] + s)[1..] == s;
      } else {
        InsertSorted(x, s[1..], key);
        assert Insert(x, s, key)[1..] == Insert(x, s[1..], key);
      }
    }
  }

  /** The result is sorted and a permutation of the input. */
  lemma {:induction false} SortIsSorted<T>(s: seq<T>, key: T -> Key)
    ensures Sorted(Sort(s, key), key)
    ensures multiset(Sort(s, key)) == multiset(s)
  {
    if s != [] {
      SortIsSorted(s[1..], key);
      InsertSorted(s[0], Sort(s[1..], key), key);
      assert s == [s[0]] + s[1..];
    }
  }

  lemma {:induction false} HeadIsLeast<T>(s: seq<T>, key: T -> Key, x: T)
    requires Sorted(s, key) && x in s
    ensures KeyLe(key(s[0]), key(x))
  {
    KeyOrder(key(s[0]), key(s[0]), key(s[0]));
    if x != s[0] {
      HeadIsLeast(s[1..], key, x);
      KeyOrder(key(s[0]), key(s[1]), key(x));
    }
  }

  /** Elements with the same key are the same element. */
  predicate KeyedBy<T(==)>(s: seq<T>, key: T -> Key) {
    forall i, j :: 0 <= i < |s| && 0 <= j < |s| && key(s[i]) == key(s[j]) ==> s[i] == s[j]
  }

  lemma SameHeads<T>(a: seq<T>, b: seq<T>, key: T -> Key)
    requires Sorted(a, key) && Sorted(b, key) && multiset(a) == multiset(b)
    requires KeyedBy(a, key) && a != []
    ensures b != [] && a[0] == b[0]
  {
    hide Sorted, KeyLe;
    assert a[0] in multiset(a) && a[0] in b;
    assert b != [] && b[0] in multiset(b) && b[0] in a;
    HeadIsLeast(a, key, b[0]);
    HeadIsLeast(b, key, a[0]);
    KeyOrder(key(a[0]), key(b[0]), key(a[0]));
  }

  lemma TailsPermute<T>(a: seq<T>, b: seq<T>)
    requires multiset(a) == multiset(b) && a != [] && b != [] && a[0] == b[0]
    ensures multiset(a[1..]) == multiset(b[1..])
  {
    assert a == [a[0]] + a[1..] && b == [b[0]] + b[1..];
    assert multiset(a[1..]) == multiset(a) - multiset{a[0]};
    assert multiset(b[1..]) == multiset(b) - multiset{b[0]};
  }

  lemma TailKeyed<T>(a: seq<T>, key: T -> Key)
    requires KeyedBy(a, key) && a != []
    ensures KeyedBy(a[1..], key)
  {
  }

  lemma TailSorted<T>(a: seq<T>, key: T -> Key)
    requires Sorted(a, key) && a != []
    ensures Sorted(a[1..], key)
  {
    hide KeyLe;
  }

  lemma {:induction false} SortedUnique<T>(a: seq<T>, b: seq<T>, key: T -> Key)
    requires Sorted(a, key) && Sorted(b, key) && multiset(a) == multiset(b)
    requires KeyedBy(a, key)
    ensures a == b
  {
    if a == [] {
      assert |multiset(b)| == 0;
    } else {
      SameHeads(a, b, key);
      TailsPermute(a, b);
      TailKeyed(a, key);
      TailSorted(a, key);
      TailSorted(b, key);
      SortedUnique(a[1..], b[1..], key);
      assert a == [a[0]] + a[1..] && b == [b[0]] + b[1..];
    }
  }

  /** Sorting forgets the input order when equal keys mean equal elements. */
  lemma SortForgetsOrder<T>(a: seq<T>, b: seq<T>, key: T -> Key)
    requires multiset(a) == multiset(b) && KeyedBy(a, key)
    ensures Sort(a, key) == Sort(b, key)
  {
    SortIsSorted(a, key);
    SortIsSorted(b, key);
    var sa := Sort(a, key);
    forall i, j | 0 <= i < |sa| && 0 <= j < |sa| && key(sa[i]) == key(sa[j]) ensures sa[i] == sa[j] {
      assert sa[i] in multiset(sa) && sa[j] in multiset(sa);
      assert sa[i] in a && sa[j] in a;
    }
    SortedUnique(sa, Sort(b, key), key);
  }

  /** The elements with one key, in order. */
  function WithKey<T>(s: seq<T>, key: T -> Key, k: Key): seq<T> {
    if s == [] then [] else (if key(s[0]) == k then [s[0]] else []) + WithKey(s[1..], key, k)
  }

  lemma WithKeyFirst<T>(y: T, rest: seq<T>, key: T -> Key, k: Key)
    ensures WithKey([y] + rest, key, k) == (if key(y) == k then [y] else []) + WithKey(rest, key, k)
  {
    assert ([y] + rest)[1..] == rest;
  }

  lemma InsertFirst<T>(x: T, y: T, rest: seq<T>, key: T -> Key)
    ensures Insert(x, [y] + rest, key)
         == if KeyLe(key(x), key(y)) then [x] + ([y] + rest) else [y] + Insert(x, rest, key)
  {
    assert ([y] + rest)[1..] == rest;
    hide KeyLe;
  }

  lemma InsertNone<T>(x: T, key: T -> Key, k: Key)
    ensures WithKey(Insert(x, [], key), key, k) == if key(x) == k then [x] else []
    ensures WithKey([], key, k) == []
  {
    assert [x][1..] == [];
  }

  lemma KeyLeReflexive(k: Key)
    ensures KeyLe(k, k)
  {
    KeyOrder(k, k, k);
  }

  lemma {:induction false} InsertKeepsTies<T>(x: T, s: seq<T>, key: T -> Key, k: Key)
    ensures WithKey(Insert(x, s, key), key, k) == (if key(x) == k then [x] else []) + WithKey(s, key, k)
  {
    hide *;
    if s == [] {
      InsertNone(x, key, k);
    } else {
      var y, rest := s[0], s[1..];
      assert s == [y] + rest;
      InsertFirst(x, y, rest, key);
      WithKeyFirst(y, rest, key, k);
      WithKeyFirst(x, s, key, k);
      if !KeyLe(key(x), key(y)) {
        InsertKeepsTies(x, rest, key, k);
        WithKeyFirst(y, Insert(x, rest, key), key, k);
        KeyLeReflexive(key(x));
      }
    }
  }

  /** Stability, for every list: elements with equal keys keep their order. */
  lemma {:induction false} TiesKeepInputOrder<T>(s: seq<T>, key: T -> Key, k: Key)
    ensures WithKey(Sort(s, key), key, k) == WithKey(s, key, k)
  {
    if s != [] {
      TiesKeepInputOrder(s[1..], key, k);
      InsertKeepsTies(s[0], Sort(s[1..], key), key, k);
    }
  }

  /** All orders of the list sort alike. */
  ghost predicate ForgetsOrder<T(!new)>(a: seq<T>, key: T -> Key) {
    forall b :: multiset(a) == multiset(b) ==> Sort(a, key) == Sort(b, key)
  }

  /** The list with one element moved to the front. */
  function ToFront<T>(a: seq<T>, i: nat): seq<T>
    requires i < |a|
  {
    [a[i]] + a[..i] + a[i + 1..]
  }

  lemma ToFrontIs<T>(a: seq<T>, i: nat)
    requires i < |a|
    ensures ToFront(a, i) == [a[i]] + (a[..i] + a[i + 1..])
    ensures a == a[..i] + [a[i]] + a[i + 1..]
  {
  }

  lemma ToFrontPermutes<T>(a: seq<T>, i: nat)
    requires i < |a|
    ensures multiset(ToFront(a, i)) == multiset(a)
  {
    assert a == a[..i] + [a[i]] + a[i + 1..];
  }

  lemma FrontDecides<T>(a: seq<T>, key: T -> Key, i: nat)
    requires i < |a|
    ensures WithKey(Sort(ToFront(a, i), key), key, key(a[i])) != []
    ensures WithKey(Sort(ToFront(a, i), key), key, key(a[i]))[0] == a[i]
  {
    TiesKeepInputOrder(ToFront(a, i), key, key(a[i]));
    hide Sort;
  }

  /** Sorting forgets the input order if and only if equal keys mean equal
      elements. */
  lemma ForgetsOrderExactly<T(!new)>(a: seq<T>, key: T -> Key)
    ensures ForgetsOrder(a, key) <==> KeyedBy(a, key)
  {
    if KeyedBy(a, key) {
      forall b | multiset(a) == multiset(b) ensures Sort(a, key) == Sort(b, key) {
        SortForgetsOrder(a, b, key);
      }
    }
    if ForgetsOrder(a, key) {
      hide Sort, ToFront, WithKey;
      forall i, j | 0 <= i < |a| && 0 <= j < |a| && key(a[i]) == key(a[j]) ensures a[i] == a[j] {
        ToFrontPermutes(a, i);
        ToFrontPermutes(a, j);
        FrontDecides(a, key, i);
        FrontDecides(a, key, j);
      }
    }
  }

  // ---------- Removing adjacent duplicates ----------

  /** Keeps the first of each run of elements with the same SID. */
  function Dedup<T>(s: seq<T>, key: T -> Key): seq<T>
    decreases |s|
  {
    if |s| < 2 then s
    else if key(s[0]).sid == key(s[1]).sid then Dedup([s[0]] + s[2..], key)
    else [s[0]] + Dedup(s[1..], key)
  }

  predicate Strict<T>(s: seq<T>, key: T -> Key) {
    |s| >= 2 ==> KeyLe(key(s[0]), key(s[1])) && key(s[0]) != key(s[1]) && Strict(s[1..], key)
  }

  /** Equal SIDs mean equal elements. */
  predicate SidKeyed<T(==)>(s: seq<T>, key: T -> Key) {
    forall x, y :: x in s && y in s && key(x).sid == key(y).sid ==> x == y
  }

  lemma {:induction false} DedupStrict<T>(s: seq<T>, key: T -> Key)
    requires Sorted(s, key) && SidKeyed(s, key)
    ensures Strict(Dedup(s, key), key)
    ensures s != [] ==> Dedup(s, key) != [] && Dedup(s, key)[0] == s[0]
    ensures forall x :: x in Dedup(s, key) <==> x in s
    decreases |s|
  {
    if |s| >= 2 {
      if key(s[0]).sid == key(s[1]).sid {
        assert s[0] == s[1];
        var t := [s[0]] + s[2..];
        assert t == s[1..];
        DedupStrict(t, key);
        assert s == [s[0]] + t;
      } else {
        DedupStrict(s[1..], key);
        assert s == [s[0]] + s[1..];
      }
    }
  }

  lemma {:induction false} StrictHead<T>(s: seq<T>, key: T -> Key, i: nat)
    requires Strict(s, key) && 0 < i < |s|
    ensures KeyLe(key(s[0]), key(s[i])) && key(s[0]) != key(s[i])
  {
    if i > 1 {
      StrictHead(s[1..], key, i - 1);
      KeyOrder(key(s[0]), key(s[1]), key(s[i]));
      KeyOrder(key(s[1]), key(s[0]), key(s[i]));
    }
  }

  lemma SameEmptiness<T>(a: seq<T>, b: seq<T>)
    requires forall x :: x in a <==> x in b
    ensures a == [] <==> b == []
  {
    if a != [] { assert a[0] in b; }
    if b != [] { assert b[0] in a; }
  }

  lemma {:induction false} StrictUnique<T>(a: seq<T>, b: seq<T>, key: T -> Key)
    requires Strict(a, key) && Strict(b, key) && forall x :: x in a <==> x in b
    ensures a == b
  {
    SameEmptiness(a, b);
    if a != [] {
      SameHead(a, b, key);
      forall x ensures x in a[1..] <==> x in b[1..] {
        TailMember(a, key, x);
        TailMember(b, key, x);
      }
      StrictUnique(a[1..], b[1..], key);
      assert a == [a[0]] + a[1..] && b == [b[0]] + b[1..];
    }
  }

  lemma SameHead<T>(a: seq<T>, b: seq<T>, key: T -> Key)
    requires Strict(a, key) && Strict(b, key) && a != [] && b != [] && a[0] in b && b[0] in a
    ensures a[0] == b[0]
  {
    var i :| 0 <= i < |b| && b[i] == a[0];
    var j :| 0 <= j < |a| && a[j] == b[0];
    if i > 0 && j > 0 {
      StrictHead(b, key, i);
      StrictHead(a, key, j);
      KeyOrder(key(a[0]), key(b[0]), key(a[0]));
    }
  }

  lemma TailMember<T>(s: seq<T>, key: T -> Key, x: T)
    requires Strict(s, key) && s != []
    ensures x in s[1..] <==> x in s && x != s[0]
  {
    if x in s[1..] {
      var i :| 0 <= i < |s[1..]| && s[1..][i] == x;
      StrictHead(s, key, i + 1);
    }
  }
}
