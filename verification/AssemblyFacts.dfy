/** What the scan over the entries and the output order mean, and that leaving
    groups out does not disturb the routes of the remaining ones. */
module AssemblyFacts {
  import opened Wrappers
  import opened SortedSets
  import opened Directory
  import opened Routes
  import opened Assembly

  // ---------- The scan ----------

  /** Entry `i` can become a closure group: its SID is readable and not the principal's. */
  predicate Admissible(inp: Input, i: nat) {
    i < |Entries(inp)| && Entries(inp)[i].sid.Some? && Entries(inp)[i].sid.value != inp.sid
  }

  /** Entry `i` is the first one that can become the group `dn`. */
  predicate FirstFor(inp: Input, i: nat, dn: Dn) {
    && Admissible(inp, i) && Entries(inp)[i].dn == dn
    && forall j: nat :: j < i && Admissible(inp, j) ==> Entries(inp)[j].dn != dn
  }

  lemma {:induction false} ScanClosure(inp: Input, n: nat, dn: Dn)
    requires n <= |Entries(inp)|
    ensures dn in Scan(inp, n).0 <==> exists i: nat :: i < n && FirstFor(inp, i, dn)
    ensures forall i: nat :: i < n && FirstFor(inp, i, dn) ==> dn in Scan(inp, n).0 && Scan(inp, n).0[dn] == GroupOf(inp, i)
  {
    if n > 0 {
      ScanClosure(inp, n - 1, dn);
      var e := Entries(inp)[n - 1];
      if dn !in Scan(inp, n - 1).0 && Admissible(inp, n - 1) && e.dn == dn {
        NoneBefore(inp, n - 1, dn);
        assert FirstFor(inp, n - 1, dn);
      }
    }
  }

  /** When no entry is first for `dn`, no entry can become `dn` at all. */
  lemma {:induction false} NoneBefore(inp: Input, n: nat, dn: Dn)
    requires n <= |Entries(inp)|
    requires forall i: nat :: i < n ==> !FirstFor(inp, i, dn)
    ensures forall j: nat :: j < n && Admissible(inp, j) ==> Entries(inp)[j].dn != dn
  {
    if n > 0 {
      NoneBefore(inp, n - 1, dn);
      assert !FirstFor(inp, n - 1, dn);
    }
  }

  /** A closure group comes from the first entry that can become it. */
  lemma ClosureFrom(inp: Input, dn: Dn) returns (i: nat)
    requires dn in FullClosure(inp)
    ensures FirstFor(inp, i, dn)
    ensures FullClosure(inp)[dn] == GroupOf(inp, i)
  {
    ScanClosure(inp, |Entries(inp)|, dn);
    i :| i < |Entries(inp)| && FirstFor(inp, i, dn);
  }

  lemma ClosureHas(inp: Input, i: nat)
    requires Admissible(inp, i)
    ensures Entries(inp)[i].dn in FullClosure(inp)
  {
    var dn := Entries(inp)[i].dn;
    ScanClosure(inp, |Entries(inp)|, dn);
    if dn !in FullClosure(inp) {
      NoneBefore(inp, |Entries(inp)|, dn);
      assert false;
    }
  }

  /** Entry `i` is reported as a group without SID: its SID is not readable
      and no earlier entry became the same group. */
  predicate LostAt(inp: Input, i: nat, dn: Dn) {
    && i < |Entries(inp)| && Entries(inp)[i].dn == dn && Entries(inp)[i].sid.None?
    && forall j: nat :: j < i && Admissible(inp, j) ==> Entries(inp)[j].dn != dn
  }

  lemma {:induction false} ScanNoSid(inp: Input, n: nat, dn: Dn)
    requires n <= |Entries(inp)|
    ensures dn in Scan(inp, n).1 <==> exists i: nat :: i < n && LostAt(inp, i, dn)
  {
    if n > 0 {
      ScanNoSid(inp, n - 1, dn);
      ScanClosure(inp, n - 1, dn);
      if dn !in Scan(inp, n - 1).0 && Entries(inp)[n - 1].sid.None? && Entries(inp)[n - 1].dn == dn {
        NoneBefore(inp, n - 1, dn);
        assert LostAt(inp, n - 1, dn);
      }
    }
  }

  lemma NoSidExact(inp: Input, dn: Dn)
    ensures dn in NoSid(inp) <==> exists i: nat :: LostAt(inp, i, dn)
  {
    ScanNoSid(inp, |Entries(inp)|, dn);
  }

  /** A closure group never carries the principal's own SID. */
  lemma ClosureSid(inp: Input, dn: Dn)
    requires dn in FullClosure(inp)
    ensures FullClosure(inp)[dn].sid != inp.sid
  {
    var i := ClosureFrom(inp, dn);
  }

  // ---------- The excluded list ----------

  lemma {:induction false} ExcludedUpToExact(c: Closure, seeds: set<Dn>, keys: seq<Dn>, n: nat, x: Exclusion)
    requires n <= |keys| && forall i :: 0 <= i < |keys| ==> keys[i] in c
    ensures x in ExcludedUpTo(c, seeds, keys, n) <==>
              && x.dn in keys[..n] && Excluded(c, seeds, x.dn)
              && (x.Distribution? <==> c[x.dn].security == Some(false))
  {
    if n > 0 {
      ExcludedUpToExact(c, seeds, keys, n - 1, x);
      assert keys[..n] == keys[..n - 1] + [keys[n - 1]];
    }
  }

  /** The excluded list names each group left out, with the right reason. */
  lemma ExcludedListExact(c: Closure, seeds: set<Dn>, x: Exclusion)
    ensures x in ExcludedList(c, seeds) <==>
              && Excluded(c, seeds, x.dn)
              && (x.Distribution? <==> c[x.dn].security == Some(false))
  {
    SortedKeysIn(c);
    var keys := SortedSeq(c.Keys);
    ExcludedUpToExact(c, seeds, keys, |keys|, x);
    assert keys[..|keys|] == keys;
    assert x.dn in c ==> x.dn in ToSet(keys);
  }

  // ---------- Routes of the reduced closure ----------

  /** A closure that keeps some groups unchanged has fewer routes. */
  lemma {:induction false} RouteInLarger(small: Closure, large: Closure, seeds: set<Dn>, chain: seq<Dn>)
    requires forall dn :: dn in small ==> dn in large && large[dn] == small[dn]
    requires IsRoute(small, seeds, chain)
    ensures IsRoute(large, seeds, chain)
  {
    if |chain| > 1 {
      RouteInLarger(small, large, seeds, chain[..|chain| - 1]);
    }
  }

  /** A security-only route meets no excluded group. */
  lemma {:induction false} RouteSurvives(c: Closure, seeds: set<Dn>, chain: seq<Dn>)
    requires IsRoute(Candidates(c), seeds, chain)
    ensures IsRoute(Kept(c, seeds), seeds, chain)
  {
    var last := chain[|chain| - 1];
    RouteStep(Candidates(c), seeds, chain, |chain| - 1);
    assert RouteTo(Candidates(c), seeds, chain, last);
    assert Reachable(Candidates(c), seeds, last);
    if |chain| > 1 {
      RouteSurvives(c, seeds, chain[..|chain| - 1]);
      RouteStep(Kept(c, seeds), seeds, chain[..|chain| - 1], |chain| - 2);
    }
  }

  lemma SameRoutes(c: Closure, seeds: set<Dn>, chain: seq<Dn>)
    ensures IsRoute(Candidates(c), seeds, chain) <==> IsRoute(Kept(c, seeds), seeds, chain)
  {
    if IsRoute(Candidates(c), seeds, chain) {
      RouteSurvives(c, seeds, chain);
    }
    if IsRoute(Kept(c, seeds), seeds, chain) {
      RouteInLarger(Kept(c, seeds), Candidates(c), seeds, chain);
    }
  }

  lemma SameRouteTo(c: Closure, seeds: set<Dn>, dn: Dn)
    ensures forall chain :: RouteTo(Candidates(c), seeds, chain, dn) <==> RouteTo(Kept(c, seeds), seeds, chain, dn)
    ensures Reachable(Candidates(c), seeds, dn) <==> Reachable(Kept(c, seeds), seeds, dn)
  {
    forall chain
      ensures RouteTo(Candidates(c), seeds, chain, dn) <==> RouteTo(Kept(c, seeds), seeds, chain, dn)
    {
      SameRoutes(c, seeds, chain);
    }
  }

  lemma SameDistAt(c: Closure, seeds: set<Dn>, dn: Dn)
    ensures dn in Dist(Candidates(c), seeds) <==> dn in Dist(Kept(c, seeds), seeds)
    ensures dn in Dist(Candidates(c), seeds) ==> Dist(Candidates(c), seeds)[dn] == Dist(Kept(c, seeds), seeds)[dn]
  {
    SameRouteTo(c, seeds, dn);
    DistIsShortest(Candidates(c), seeds, dn);
    DistIsShortest(Kept(c, seeds), seeds, dn);
    if dn in Dist(Candidates(c), seeds) {
      var p :| RouteTo(Candidates(c), seeds, p, dn) && |p| == Dist(Candidates(c), seeds)[dn];
      var q :| RouteTo(Kept(c, seeds), seeds, q, dn) && |q| == Dist(Kept(c, seeds), seeds)[dn];
    }
  }

  /** A reached group and its direct members one hop nearer are all kept. */
  lemma SameNearer(c: Closure, seeds: set<Dn>, dist: map<Dn, nat>, dn: Dn)
    requires dist == Dist(Candidates(c), seeds) == Dist(Kept(c, seeds), seeds) && dn in dist
    ensures Nearer(Candidates(c), dist, dn) == Nearer(Kept(c, seeds), dist, dn)
  {
    assert dn in Kept(c, seeds);
    forall kid: Dn | kid in dist
      ensures Edge(Candidates(c), kid, dn) <==> Edge(Kept(c, seeds), kid, dn)
    {
      assert kid in Kept(c, seeds);
    }
  }

  /** Leaving out the excluded groups changes neither which groups are reached
      through security groups only, nor their distances, nor the chosen
      predecessors. */
  lemma ReducedRoutesAgree(c: Closure, seeds: set<Dn>)
    ensures Table(Kept(c, seeds), seeds).dist == Table(Candidates(c), seeds).dist
    ensures Table(Kept(c, seeds), seeds).pred == Table(Candidates(c), seeds).pred
  {
    SameDist(c, seeds);
    SamePred(c, seeds, Dist(Candidates(c), seeds));
  }

  lemma SameDist(c: Closure, seeds: set<Dn>)
    ensures Dist(Candidates(c), seeds) == Dist(Kept(c, seeds), seeds)
  {
    hide *;
    forall dn: Dn
      ensures dn in Dist(Candidates(c), seeds) <==> dn in Dist(Kept(c, seeds), seeds)
      ensures dn in Dist(Candidates(c), seeds) ==> Dist(Candidates(c), seeds)[dn] == Dist(Kept(c, seeds), seeds)[dn]
    {
      SameDistAt(c, seeds, dn);
    }
  }

  lemma SamePred(c: Closure, seeds: set<Dn>, dist: map<Dn, nat>)
    requires dist == Dist(Candidates(c), seeds) == Dist(Kept(c, seeds), seeds)
    ensures Pred(Candidates(c), dist) == Pred(Kept(c, seeds), dist)
  {
    forall dn | dn in dist ensures Nearer(Candidates(c), dist, dn) == Nearer(Kept(c, seeds), dist, dn) {
      SameNearer(c, seeds, dist, dn);
    }
  }

  // ---------- Output order ----------

  lemma InOrderFirst(kept: Closure, t: RouteTable, s: set<Dn>)
    requires s <= kept.Keys && s != {}
    ensures var r := InOrder(kept, t, s);
            && r != [] && r[0] in s && r == [r[0]] + InOrder(kept, t, s - {r[0]})
            && forall x :: x in s && x != r[0] ==> Before(kept, t, r[0], x)
  {
    hide Before;
  }

  lemma InOrderTail(kept: Closure, t: RouteTable, s: set<Dn>, j: nat)
    requires s <= kept.Keys && s != {}
    requires 0 < j < |InOrder(kept, t, s)|
    ensures var r := InOrder(kept, t, s);
            && r[0] in s && r[j] in s && r[0] != r[j] && Before(kept, t, r[0], r[j])
            && j - 1 < |InOrder(kept, t, s - {r[0]})| && r[j] == InOrder(kept, t, s - {r[0]})[j - 1]
  {
    InOrderFirst(kept, t, s);
    var first := InOrder(kept, t, s)[0];
    var rest := InOrder(kept, t, s - {first});
    assert ToSet(rest) == s - {first};
    hide InOrder, Before;
    assert rest[j - 1] in ToSet(rest);
  }

  lemma {:induction false} InOrderSorted(kept: Closure, t: RouteTable, s: set<Dn>, i: nat, j: nat)
    requires s <= kept.Keys
    requires i < j < |InOrder(kept, t, s)|
    ensures InOrder(kept, t, s)[i] in kept && InOrder(kept, t, s)[j] in kept
    ensures Before(kept, t, InOrder(kept, t, s)[i], InOrder(kept, t, s)[j])
    ensures InOrder(kept, t, s)[i] != InOrder(kept, t, s)[j]
    decreases |s|
  {
    hide *;
    assert s != {} by {
      NoneInOrder(kept, t);
    }
    InOrderTail(kept, t, s, j);
    if i > 0 {
      InOrderTail(kept, t, s, i);
      InOrderSorted(kept, t, s - {InOrder(kept, t, s)[0]}, i - 1, j - 1);
    }
  }

  lemma NoneInOrder(kept: Closure, t: RouteTable)
    ensures InOrder(kept, t, {}) == []
  {
  }
}
