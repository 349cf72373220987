/** The order in which the server lists the values of `sIDHistory`: it decides
    nothing but the history fields of the memberships. */
module AssemblyHistory {
  import opened Wrappers
  import opened SortedSets
  import opened Directory
  import opened Routes
  import opened RouteChains
  import opened Assembly
  import opened AssemblyFacts
  import opened AssemblyConservation
  import opened AssemblyOrder

  // ---------- Without histories ----------

  function BareEntry(e: RawEntry): RawEntry {
    e.(history := [])
  }

  function BareEntries(es: seq<RawEntry>): seq<RawEntry> {
    seq(|es|, i requires 0 <= i < |es| => BareEntry(es[i]))
  }

  function BarePrimary(p: Option<Primary>): Option<Primary> {
    if p.None? then None
    else Some(Primary(p.value.sid, if p.value.entry.None? then None else Some(BareEntry(p.value.entry.value))))
  }

  function Bare(inp: Input): Input {
    Input(
      inp.sid, BareEntry(inp.principal), BarePrimary(inp.primary), BareEntries(inp.transitive), BareEntries(inp.pgParents))
  }

  function BareGroup(g: ClosureGroup): ClosureGroup {
    g.(history := [])
  }

  function BareClosure(c: Closure): Closure {
    map dn | dn in c :: BareGroup(c[dn])
  }

  function BareMembership(m: GroupMembership): GroupMembership {
    m.(history := [])
  }

  function BareMemberships(ms: seq<GroupMembership>): seq<GroupMembership> {
    seq(|ms|, i requires 0 <= i < |ms| => BareMembership(ms[i]))
  }

  /** The result without the history fields of its memberships. */
  function BareResult(r: Assembled): Assembled {
    r.(memberships := BareMemberships(r.memberships))
  }

  // ---------- The scan ----------

  lemma BareEntriesAt(inp: Input)
    ensures |Entries(Bare(inp))| == |Entries(inp)|
    ensures forall i :: 0 <= i < |Entries(inp)| ==> Entries(Bare(inp))[i] == BareEntry(Entries(inp)[i])
  {
    hide BareEntry;
  }

  lemma BareGroupOf(inp: Input, i: nat)
    requires i < |Entries(inp)| && Entries(inp)[i].sid.Some?
    ensures i < |Entries(Bare(inp))| && Entries(Bare(inp))[i].sid.Some?
    ensures GroupOf(Bare(inp), i) == BareGroup(GroupOf(inp, i))
  {
    BareEntriesAt(inp);
    var e, f := Entries(inp)[i], Entries(Bare(inp))[i];
    assert SortedMemberOf(f) == SortedMemberOf(e) && GroupIsSecurity(f) == GroupIsSecurity(e);
    hide Entries, SortedMemberOf, GroupIsSecurity, BareEntry;
  }

  lemma {:induction false} BareScan(inp: Input, n: nat)
    requires n <= |Entries(inp)|
    ensures n <= |Entries(Bare(inp))|
    ensures Scan(Bare(inp), n).0 == BareClosure(Scan(inp, n).0) && Scan(Bare(inp), n).1 == Scan(inp, n).1
  {
    BareEntriesAt(inp);
    if n > 0 {
      BareScan(inp, n - 1);
      var e := Entries(inp)[n - 1];
      assert Entries(Bare(inp))[n - 1] == BareEntry(e);
      if e.sid.Some? {
        BareGroupOf(inp, n - 1);
      }
      hide Entries, GroupOf;
    }
  }

  lemma BareClosureIs(inp: Input)
    ensures FullClosure(Bare(inp)) == BareClosure(FullClosure(inp)) && NoSid(Bare(inp)) == NoSid(inp)
    ensures Seeds(Bare(inp)) == Seeds(inp)
  {
    BareEntriesAt(inp);
    BareScan(inp, |Entries(inp)|);
    hide Scan, Entries, BareEntries;
  }

  // ---------- Routes ----------

  lemma BareEdge(c: Closure, kid: Dn, parent: Dn)
    ensures Edge(BareClosure(c), kid, parent) <==> Edge(c, kid, parent)
  {
  }

  lemma {:induction false} BareRoute(c: Closure, seeds: set<Dn>, chain: seq<Dn>)
    ensures IsRoute(BareClosure(c), seeds, chain) <==> IsRoute(c, seeds, chain)
  {
    if |chain| > 1 {
      BareRoute(c, seeds, chain[..|chain| - 1]);
      BareEdge(c, chain[|chain| - 2], chain[|chain| - 1]);
      hide Edge, BareClosure;
    }
  }

  lemma BareReachable(c: Closure, seeds: set<Dn>, dn: Dn)
    ensures Reachable(BareClosure(c), seeds, dn) <==> Reachable(c, seeds, dn)
    ensures forall chain :: RouteTo(BareClosure(c), seeds, chain, dn) <==> RouteTo(c, seeds, chain, dn)
  {
    forall chain ensures IsRoute(BareClosure(c), seeds, chain) <==> IsRoute(c, seeds, chain) {
      BareRoute(c, seeds, chain);
    }
    hide IsRoute, BareClosure;
    if chain :| RouteTo(c, seeds, chain, dn) {
      assert RouteTo(BareClosure(c), seeds, chain, dn);
    }
    if chain :| RouteTo(BareClosure(c), seeds, chain, dn) {
      assert RouteTo(c, seeds, chain, dn);
    }
  }

  lemma BareDistAt(c: Closure, seeds: set<Dn>, dn: Dn)
    ensures dn in Dist(BareClosure(c), seeds) <==> dn in Dist(c, seeds)
    ensures dn in Dist(c, seeds) ==> Dist(BareClosure(c), seeds)[dn] == Dist(c, seeds)[dn]
  {
    var d := BareClosure(c);
    BareReachable(c, seeds, dn);
    DistIsShortest(c, seeds, dn);
    DistIsShortest(d, seeds, dn);
    hide Dist, BareClosure, Reachable, RouteTo;
    if dn in Dist(c, seeds) {
      var p :| RouteTo(c, seeds, p, dn) && |p| == Dist(c, seeds)[dn];
      var q :| RouteTo(d, seeds, q, dn) && |q| == Dist(d, seeds)[dn];
    }
  }

  lemma BareDist(c: Closure, seeds: set<Dn>)
    ensures Dist(BareClosure(c), seeds) == Dist(c, seeds)
  {
    hide *;
    forall dn: Dn
      ensures dn in Dist(BareClosure(c), seeds) <==> dn in Dist(c, seeds)
      ensures dn in Dist(c, seeds) ==> Dist(BareClosure(c), seeds)[dn] == Dist(c, seeds)[dn]
    {
      BareDistAt(c, seeds, dn);
    }
  }

  lemma BareKids(c: Closure, parent: Dn)
    ensures Kids(BareClosure(c), parent) == Kids(c, parent)
  {
    forall kid: Dn ensures Edge(BareClosure(c), kid, parent) <==> Edge(c, kid, parent) {
      BareEdge(c, kid, parent);
    }
    hide Edge;
  }

  lemma BareChildren(c: Closure)
    ensures Children(BareClosure(c)) == Children(c)
  {
    forall parent ensures Kids(BareClosure(c), parent) == Kids(c, parent) {
      BareKids(c, parent);
    }
    hide Kids, SortedSeq;
  }

  lemma BarePred(c: Closure, dist: map<Dn, nat>)
    ensures Pred(BareClosure(c), dist) == Pred(c, dist)
  {
    forall dn | dn in dist ensures PredOf(BareClosure(c), dist, dn) == PredOf(c, dist, dn) {
      BareKids(c, dn);
      hide BareClosure, Kids;
      assert Nearer(BareClosure(c), dist, dn) == Nearer(c, dist, dn);
    }
    hide PredOf, BareClosure;
  }

  lemma BareTable(c: Closure, seeds: set<Dn>)
    ensures Table(BareClosure(c), seeds) == Table(c, seeds)
  {
    BareDist(c, seeds);
    BareChildren(c);
    BarePred(c, Dist(c, seeds));
    hide Dist, Children, Pred, BareClosure;
  }

  // ---------- Groups left out ----------

  lemma BareCandidates(c: Closure)
    ensures Candidates(BareClosure(c)) == BareClosure(Candidates(c))
  {
  }

  lemma BareExcluded(c: Closure, seeds: set<Dn>, dn: Dn)
    ensures Excluded(BareClosure(c), seeds, dn) <==> Excluded(c, seeds, dn)
  {
    BareCandidates(c);
    BareReachable(c, seeds, dn);
    BareReachable(Candidates(c), seeds, dn);
    hide Reachable, Candidates;
  }

  lemma BareKept(c: Closure, seeds: set<Dn>)
    ensures Kept(BareClosure(c), seeds) == BareClosure(Kept(c, seeds))
    ensures ExcludedDns(BareClosure(c), seeds) == ExcludedDns(c, seeds)
    ensures UnknownTypes(BareClosure(c), seeds) == UnknownTypes(c, seeds)
  {
    forall dn ensures Excluded(BareClosure(c), seeds, dn) <==> Excluded(c, seeds, dn) {
      BareExcluded(c, seeds, dn);
    }
    hide Excluded;
  }

  lemma {:induction false} BareExcludedUpTo(c: Closure, seeds: set<Dn>, keys: seq<Dn>, n: nat)
    requires n <= |keys| && forall i :: 0 <= i < |keys| ==> keys[i] in c
    ensures forall i :: 0 <= i < |keys| ==> keys[i] in BareClosure(c)
    ensures ExcludedUpTo(BareClosure(c), seeds, keys, n) == ExcludedUpTo(c, seeds, keys, n)
  {
    if n > 0 {
      BareExcludedUpTo(c, seeds, keys, n - 1);
      BareExcluded(c, seeds, keys[n - 1]);
      hide Excluded;
    }
  }

  lemma BareExcludedList(c: Closure, seeds: set<Dn>)
    ensures ExcludedList(BareClosure(c), seeds) == ExcludedList(c, seeds)
  {
    assert BareClosure(c).Keys == c.Keys;
    SortedKeysIn(c);
    var keys := SortedSeq(c.Keys);
    BareExcludedUpTo(c, seeds, keys, |keys|);
    hide ExcludedUpTo, SortedSeq, BareClosure;
  }

  // ---------- Memberships ----------

  lemma {:induction false} BareHops(kept: Closure, dns: seq<Dn>)
    ensures Hops(BareClosure(kept), dns) == Hops(kept, dns)
  {
    if dns != [] {
      BareHops(kept, dns[1..]);
    }
  }

  lemma {:induction false} BareNodes(kept: Closure, dns: seq<Dn>)
    ensures Sids(BareClosure(kept), dns) == Sids(kept, dns) && Labels(BareClosure(kept), dns) == Labels(kept, dns)
  {
    if dns != [] {
      BareNodes(kept, dns[1..]);
    }
  }

  lemma BarePath(inp: Input, kept: Closure, t: RouteTable, dn: Dn)
    requires dn in kept
    ensures dn in BareClosure(kept)
    ensures PathOf(Bare(inp), BareClosure(kept), t, dn) == PathOf(inp, kept, t, dn)
  {
    forall dns ensures Hops(BareClosure(kept), dns) == Hops(kept, dns) {
      BareHops(kept, dns);
    }
    var chain := ChainFrom(t, dn, 1);
    if chain.Some? {
      BareNodes(kept, chain.value);
    }
    hide Hops, Sids, Labels, ChainFrom, OtherEntries;
  }

  lemma BareMembershipOf(inp: Input, kept: Closure, t: RouteTable, dn: Dn)
    requires dn in kept
    ensures dn in BareClosure(kept)
    ensures MembershipOf(Bare(inp), BareClosure(kept), t, dn) == BareMembership(MembershipOf(inp, kept, t, dn))
  {
    BarePath(inp, kept, t, dn);
    hide PathOf;
  }

  lemma BarePrimaryMembership(inp: Input, kept: Closure, t: RouteTable)
    requires inp.primary.Some?
    ensures Bare(inp).primary.Some?
    ensures PrimaryMembership(Bare(inp), BareClosure(kept), t) == BareMembership(PrimaryMembership(inp, kept, t))
  {
    forall dns ensures Hops(BareClosure(kept), dns) == Hops(kept, dns) {
      BareHops(kept, dns);
    }
    hide Hops, OtherEntries;
  }

  lemma BeforeIsOrder(kept: Closure, t: RouteTable, a: Dn, b: Dn)
    requires a in kept && b in kept && Before(kept, t, a, b) && Before(kept, t, b, a)
    ensures a == b
  {
  }

  lemma {:induction false} BareInOrder(kept: Closure, t: RouteTable, s: set<Dn>)
    requires s <= kept.Keys
    ensures s <= BareClosure(kept).Keys
    ensures InOrder(BareClosure(kept), t, s) == InOrder(kept, t, s)
    decreases |s|
  {
    var bare := BareClosure(kept);
    if s != {} {
      InOrderFirst(kept, t, s);
      InOrderFirst(bare, t, s);
      var x, y := InOrder(kept, t, s)[0], InOrder(bare, t, s)[0];
      forall a, b | a in kept && b in kept ensures Before(bare, t, a, b) <==> Before(kept, t, a, b) {
      }
      hide InOrder, Before;
      if x != y {
        BeforeIsOrder(kept, t, x, y);
      }
      BareInOrder(kept, t, s - {x});
    }
  }

  lemma BareOutputOrder(inp: Input, kept: Closure, t: RouteTable)
    ensures OutputOrder(Bare(inp), BareClosure(kept), t) == OutputOrder(inp, kept, t)
  {
    assert Rest(Bare(inp), BareClosure(kept)) == Rest(inp, kept);
    BareInOrder(kept, t, Rest(inp, kept));
    hide InOrder, Rest, BareClosure;
  }

  lemma BareRestList(inp: Input, kept: Closure, t: RouteTable, order: seq<Dn>)
    requires forall i :: 0 <= i < |order| ==> order[i] in kept
    ensures forall i :: 0 <= i < |order| ==> order[i] in BareClosure(kept)
    ensures RestList(Bare(inp), BareClosure(kept), t, order) == BareMemberships(RestList(inp, kept, t, order))
  {
    forall i | 0 <= i < |order|
      ensures MembershipOf(Bare(inp), BareClosure(kept), t, order[i]) == BareMembership(MembershipOf(inp, kept, t, order[i]))
    {
      BareMembershipOf(inp, kept, t, order[i]);
    }
    hide MembershipOf, BareMembership;
  }

  lemma BareAppend(a: seq<GroupMembership>, b: seq<GroupMembership>)
    ensures BareMemberships(a + b) == BareMemberships(a) + BareMemberships(b)
  {
    hide BareMembership;
  }

  lemma BareOne(m: GroupMembership)
    ensures BareMemberships([m]) == [BareMembership(m)] && BareMemberships([]) == []
  {
    hide BareMembership;
  }

  lemma ListIs(inp: Input, kept: Closure, t: RouteTable)
    ensures MembershipList(inp, kept, t)
         == (if EmitsPrimary(inp) then [PrimaryMembership(inp, kept, t)] else [])
            + RestList(inp, kept, t, OutputOrder(inp, kept, t))
  {
    hide PrimaryMembership, RestList, OutputOrder;
  }

  lemma PrimaryOfEmits(inp: Input)
    ensures EmitsPrimary(inp) ==> inp.primary.Some?
  {
  }

  lemma BareList(inp: Input, kept: Closure, t: RouteTable)
    ensures MembershipList(Bare(inp), BareClosure(kept), t) == BareMemberships(MembershipList(inp, kept, t))
  {
    hide *;
    ListIs(inp, kept, t);
    ListIs(Bare(inp), BareClosure(kept), t);
    PrimaryOfEmits(inp);
    BareEmits(inp);
    BareOutputOrder(inp, kept, t);
    var rest := RestList(inp, kept, t, OutputOrder(inp, kept, t));
    BareRestList(inp, kept, t, OutputOrder(inp, kept, t));
    if EmitsPrimary(inp) {
      var p := PrimaryMembership(inp, kept, t);
      BarePrimaryMembership(inp, kept, t);
      BareAppend([p], rest);
      BareOne(p);
    } else {
      assert [] + rest == rest && [] + BareMemberships(rest) == BareMemberships(rest);
    }
  }

  lemma BareMembershipsAre(inp: Input)
    ensures Memberships(Bare(inp)) == BareMemberships(Memberships(inp))
    ensures KeptGroups(Bare(inp)) == BareClosure(KeptGroups(inp))
  {
    BareClosureIs(inp);
    BareKept(FullClosure(inp), Seeds(inp));
    BareTable(KeptGroups(inp), Seeds(inp));
    BareList(inp, KeptGroups(inp), Routing(inp));
    hide MembershipList, BareMemberships, BareClosure, FullClosure, Seeds, Kept, Table, Bare;
  }

  lemma BareOutside(inp: Input, kept: Closure, excluded: set<Dn>, withoutSid: set<Dn>)
    ensures OutsideDns(Bare(inp), BareClosure(kept), excluded, withoutSid) == OutsideDns(inp, kept, excluded, withoutSid)
  {
    BareTargets(inp, kept);
    hide Targets;
  }

  lemma BareTargets(inp: Input, kept: Closure)
    ensures Targets(Bare(inp), BareClosure(kept)) == Targets(inp, kept)
  {
    var bare := BareClosure(kept);
    forall k | k in kept ensures k in bare && bare[k].parents == kept[k].parents {
    }
    assert forall k :: k in bare ==> k in kept;
    hide BareClosure;
    forall dn ensures dn in Targets(Bare(inp), bare) <==> dn in Targets(inp, kept) {
      if k :| k in kept && dn in kept[k].parents {
        assert k in bare && dn in bare[k].parents;
      }
      if k :| k in bare && dn in bare[k].parents {
        assert k in kept && dn in kept[k].parents;
      }
    }
  }

  /** Taking the histories out of the answers takes them out of the result and
      changes nothing else. */
  lemma BareAssemble(inp: Input)
    ensures Assemble(Bare(inp)) == BareResult(Assemble(inp))
  {
    BareClosureIs(inp);
    BareMembershipsAre(inp);
    BareKept(FullClosure(inp), Seeds(inp));
    BareExcludedList(FullClosure(inp), Seeds(inp));
    BareOutside(inp, KeptGroups(inp), ExcludedDns(FullClosure(inp), Seeds(inp)), NoSid(inp));
    hide Memberships, BareMemberships, BareClosure, FullClosure, Seeds, KeptGroups, ExcludedDns, ExcludedList, UnknownTypes,
      NoSid, OutsideDns, GapsOf, Bare;
  }

  // ---------- Order of the values ----------

  /** The same directory state, answered in any order, also of the historical
      SIDs. */
  ghost predicate SameUpToHistories(a: Input, b: Input) {
    Consistent(Bare(a)) && SameAnswers(Bare(a), Bare(b))
  }

  /** The order of historical SIDs decides nothing but the history fields. */
  lemma OnlyHistoriesDiffer(a: Input, b: Input)
    requires SameUpToHistories(a, b)
    ensures BareResult(Assemble(a)) == BareResult(Assemble(b))
  {
    BareAssemble(a);
    BareAssemble(b);
    OrderIndependent(Bare(a), Bare(b));
    hide *;
  }

  /** The historical SIDs the primary group is listed with. */
  function PrimaryHistory(inp: Input): seq<Sid> {
    if PrimaryEntry(inp).Some? then PrimaryEntry(inp).value.history else []
  }

  /** The emitted groups have their historical SIDs in the same order. */
  ghost predicate HistoriesAgree(a: Input, b: Input) {
    && (EmitsPrimary(a) ==> PrimaryHistory(a) == PrimaryHistory(b))
    && forall dn :: dn in Rest(a, KeptGroups(a)) && dn in KeptGroups(b) ==>
         KeptGroups(a)[dn].history == KeptGroups(b)[dn].history
  }

  lemma SameKeptKeys(a: Input, b: Input)
    requires SameUpToHistories(a, b)
    ensures BareClosure(KeptGroups(a)) == BareClosure(KeptGroups(b))
    ensures KeptGroups(a).Keys == KeptGroups(b).Keys
    ensures EmitsPrimary(a) == EmitsPrimary(b) && Order(a) == Order(b)
  {
    SameScan(Bare(a), Bare(b));
    SamePrincipal(Bare(a), Bare(b));
    BareClosureIs(a);
    BareClosureIs(b);
    BareKept(FullClosure(a), Seeds(a));
    BareKept(FullClosure(b), Seeds(b));
    SameKeys(KeptGroups(a), KeptGroups(b));
    BareTable(KeptGroups(a), Seeds(a));
    BareTable(KeptGroups(b), Seeds(b));
    BareOutputOrder(a, KeptGroups(a), Routing(a));
    BareOutputOrder(b, KeptGroups(b), Routing(b));
    SameOutputOrder(Bare(a), Bare(b), BareClosure(KeptGroups(a)), Routing(a));
    BareEmits(a);
    BareEmits(b);
    hide FullClosure, Seeds, Kept, Bare, BareClosure, Table, OutputOrder, EmitsPrimary, SameAnswers, Consistent;
  }

  lemma SameKeys(c: Closure, d: Closure)
    requires BareClosure(c) == BareClosure(d)
    ensures c.Keys == d.Keys
  {
    assert BareClosure(c).Keys == c.Keys && BareClosure(d).Keys == d.Keys;
  }

  lemma BareEmits(inp: Input)
    ensures EmitsPrimary(Bare(inp)) == EmitsPrimary(inp) && PrimarySid(Bare(inp)) == PrimarySid(inp)
  {
  }

  lemma SameOutputOrder(a: Input, b: Input, kept: Closure, t: RouteTable)
    requires PrimarySid(a) == PrimarySid(b)
    ensures OutputOrder(a, kept, t) == OutputOrder(b, kept, t)
  {
    hide InOrder;
    assert Rest(a, kept) == Rest(b, kept);
  }

  lemma PrimaryHistoryAt(inp: Input)
    requires EmitsPrimary(inp)
    ensures |Memberships(inp)| > 0 && Memberships(inp)[0].history == PrimaryHistory(inp)
  {
    hide KeptGroups;
  }

  lemma RestHistoryAt(inp: Input, m: nat)
    requires Offset(inp) <= m < |Memberships(inp)|
    ensures m - Offset(inp) < |Order(inp)| && Order(inp)[m - Offset(inp)] in Rest(inp, KeptGroups(inp))
    ensures Memberships(inp)[m].history == KeptGroups(inp)[Order(inp)[m - Offset(inp)]].history
  {
    MembershipAt(inp, m);
    hide Memberships, KeptGroups, Order, PathOf;
  }

  /** Equal but for the histories, and the histories equal. */
  lemma SameMemberships(a: seq<GroupMembership>, b: seq<GroupMembership>)
    requires BareMemberships(a) == BareMemberships(b)
    requires forall m :: 0 <= m < |a| && m < |b| ==> a[m].history == b[m].history
    ensures a == b
  {
    assert |BareMemberships(a)| == |a| && |BareMemberships(b)| == |b|;
    forall m | 0 <= m < |a| ensures a[m] == b[m] {
      assert BareMemberships(a)[m] == BareMembership(a[m]) && BareMemberships(b)[m] == BareMembership(b[m]);
    }
  }

  lemma AgreeAt(a: Input, b: Input, m: nat)
    requires HistoriesAgree(a, b) && EmitsPrimary(a) == EmitsPrimary(b) && Order(a) == Order(b)
    requires KeptGroups(a).Keys == KeptGroups(b).Keys
    requires m < |Memberships(a)| && m < |Memberships(b)|
    ensures Memberships(a)[m].history == Memberships(b)[m].history
  {
    hide Memberships, KeptGroups, Order, PrimaryHistory, EmitsPrimary, Rest;
    if m < Offset(a) {
      PrimaryHistoryAt(a);
      PrimaryHistoryAt(b);
    } else {
      RestHistoryAt(a, m);
      RestHistoryAt(b, m);
      RestIsKept(a, Order(a)[m - Offset(a)]);
    }
  }

  lemma RestIsKept(inp: Input, dn: Dn)
    requires dn in Rest(inp, KeptGroups(inp))
    ensures dn in KeptGroups(inp)
  {
    hide KeptGroups;
  }

  lemma BareMembershipsAgree(a: Input, b: Input)
    requires BareResult(Assemble(a)) == BareResult(Assemble(b))
    ensures BareMemberships(Memberships(a)) == BareMemberships(Memberships(b))
  {
    hide Memberships, GapsOf, ExcludedList, OutsideGroups, UnknownTypes, BareMemberships;
  }

  lemma AgreeingAreSame(a: Input, b: Input)
    requires SameUpToHistories(a, b) && HistoriesAgree(a, b)
    ensures Memberships(a) == Memberships(b)
  {
    hide *;
    OnlyHistoriesDiffer(a, b);
    SameKeptKeys(a, b);
    BareMembershipsAgree(a, b);
    forall m: nat | m < |Memberships(a)| && m < |Memberships(b)|
      ensures Memberships(a)[m].history == Memberships(b)[m].history
    {
      AgreeAt(a, b, m);
    }
    SameMemberships(Memberships(a), Memberships(b));
  }

  lemma SameAt(a: Input, b: Input, dn: Dn)
    requires Memberships(a) == Memberships(b) && EmitsPrimary(a) == EmitsPrimary(b) && Order(a) == Order(b)
    requires dn in Rest(a, KeptGroups(a)) && dn in KeptGroups(b)
    ensures dn in KeptGroups(a) && KeptGroups(a)[dn].history == KeptGroups(b)[dn].history
  {
    hide Memberships, KeptGroups, Order, EmitsPrimary, Rest;
    RestIsKept(a, dn);
    var m := RestAt(a, dn);
    RestHistoryAt(a, m);
    RestHistoryAt(b, m);
  }

  lemma SameAgree(a: Input, b: Input)
    requires SameUpToHistories(a, b) && Memberships(a) == Memberships(b)
    ensures HistoriesAgree(a, b)
  {
    SameKeptKeys(a, b);
    hide Memberships, KeptGroups, Order, EmitsPrimary, Rest, PrimaryHistory, SameUpToHistories;
    if EmitsPrimary(a) {
      PrimaryHistoryAt(a);
      PrimaryHistoryAt(b);
    }
    forall dn | dn in Rest(a, KeptGroups(a)) && dn in KeptGroups(b)
      ensures dn in KeptGroups(a) && KeptGroups(a)[dn].history == KeptGroups(b)[dn].history
    {
      SameAt(a, b, dn);
    }
  }

  lemma RestAt(inp: Input, dn: Dn) returns (m: nat)
    requires dn in Rest(inp, KeptGroups(inp))
    ensures Offset(inp) <= m < |Memberships(inp)|
    ensures m - Offset(inp) < |Order(inp)| && Order(inp)[m - Offset(inp)] == dn
  {
    assert dn in ToSet(Order(inp));
    var i :| 0 <= i < |Order(inp)| && Order(inp)[i] == dn;
    m := Offset(inp) + i;
    MembershipCount(inp);
  }

  lemma MembershipCount(inp: Input)
    ensures |Memberships(inp)| == Offset(inp) + |Order(inp)|
  {
    hide OutputOrder, KeptGroups, MembershipOf;
  }

  /** The whole results are equal if and only if the emitted groups have their
      historical SIDs in the same order. */
  lemma EqualExactly(a: Input, b: Input)
    requires SameUpToHistories(a, b)
    ensures Assemble(a) == Assemble(b) <==> HistoriesAgree(a, b)
  {
    OnlyHistoriesDiffer(a, b);
    if HistoriesAgree(a, b) {
      AgreeingAreSame(a, b);
    }
    assert Assemble(a).memberships == Memberships(a) && Assemble(b).memberships == Memberships(b) by {
      hide Memberships, GapsOf, ExcludedList, OutsideGroups, UnknownTypes;
    }
    if Assemble(a) == Assemble(b) {
      SameAgree(a, b);
    }
    hide Assemble, HistoriesAgree, SameUpToHistories, Memberships;
  }

  // ---------- A group with two historical SIDs ----------

  function Member(history: seq<Sid>): RawEntry {
    RawEntry(1, Some("G"), None, [], Some(-1), 2, history)
  }

  /** An account in one security group. */
  function InGroup(history: seq<Sid>): Input {
    Input("U", RawEntry(0, Some("U"), None, [1], None, 0, []), None, [Member(history)], [])
  }

  lemma InGroupEntries(history: seq<Sid>)
    ensures Entries(InGroup(history)) == [Member(history)] && Found(InGroup(history)) == [Member(history)]
  {
  }

  lemma InGroupKeeps(history: seq<Sid>)
    ensures var inp := InGroup(history);
            1 in KeptGroups(inp) && 1 in Rest(inp, KeptGroups(inp)) && KeptGroups(inp)[1].history == history
  {
    var inp := InGroup(history);
    InGroupEntries(history);
    assert Admissible(inp, 0) by {
      assert "G" != "U";
    }
    ClosureHas(inp, 0);
    var i := ClosureFrom(inp, 1);
    var c, seeds := FullClosure(inp), Seeds(inp);
    assert c[1].security == Some(true) && c[1].history == history;
    assert 1 in seeds;
    hide FullClosure, Entries;
    SeedRoute(Candidates(c), seeds, 1);
    assert Reachable(Candidates(c), seeds, 1);
    assert !Excluded(c, seeds, 1);
  }

  lemma InGroupSame(x: seq<Sid>, y: seq<Sid>)
    ensures SameUpToHistories(InGroup(x), InGroup(y))
  {
    assert Bare(InGroup(x)) == Bare(InGroup(y)) by {
      assert BareEntries([Member(x)]) == BareEntries([Member(y)]);
    }
    var inp := Bare(InGroup(x));
    assert Found(inp) == [BareEntry(Member(x))];
    hide Canon, Bare;
  }

  /** Listing two historical SIDs in the other order changes the result. */
  lemma HistoryOrderShows()
    ensures Assemble(InGroup(["A", "B"])) != Assemble(InGroup(["B", "A"]))
    ensures BareResult(Assemble(InGroup(["A", "B"]))) == BareResult(Assemble(InGroup(["B", "A"])))
  {
    var a, b := InGroup(["A", "B"]), InGroup(["B", "A"]);
    InGroupSame(["A", "B"], ["B", "A"]);
    InGroupKeeps(["A", "B"]);
    InGroupKeeps(["B", "A"]);
    EqualExactly(a, b);
    OnlyHistoriesDiffer(a, b);
    assert ["A", "B"][0] != ["B", "A"][0];
    hide Assemble, BareResult, SameUpToHistories, KeptGroups, InGroup, Rest;
  }
}
