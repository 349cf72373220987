/** What the result lists and reports, and that every emitted path is a real
    chain of memberships. */
module AssemblyConservation {
  import opened Wrappers
  import opened SortedSets
  import opened Directory
  import opened Routes
  import opened RouteChains
  import opened Assembly
  import opened AssemblyFacts

  // ---------- Memberships and kept groups ----------

  predicate Lists(ms: seq<GroupMembership>, sid: Sid) {
    exists m :: 0 <= m < |ms| && ms[m].groupSid == sid
  }

  ghost predicate HasMembership(inp: Input, sid: Sid) {
    Lists(Memberships(inp), sid)
  }

  ghost function Routing(inp: Input): RouteTable {
    Table(KeptGroups(inp), Seeds(inp))
  }

  ghost function Order(inp: Input): seq<Dn> {
    OutputOrder(inp, KeptGroups(inp), Routing(inp))
  }

  ghost function Offset(inp: Input): nat {
    if EmitsPrimary(inp) then 1 else 0
  }

  /** The list of memberships, position by position. */
  lemma ListAt(inp: Input, kept: Closure, t: RouteTable, m: nat)
    requires m < |MembershipList(inp, kept, t)|
    ensures |MembershipList(inp, kept, t)| == Offset(inp) + |OutputOrder(inp, kept, t)|
    ensures m < Offset(inp) ==> MembershipList(inp, kept, t)[m] == PrimaryMembership(inp, kept, t)
    ensures m >= Offset(inp) ==>
              var dn := OutputOrder(inp, kept, t)[m - Offset(inp)];
              dn in Rest(inp, kept) && MembershipList(inp, kept, t)[m] == MembershipOf(inp, kept, t, dn)
  {
    if m >= Offset(inp) {
      assert OutputOrder(inp, kept, t)[m - Offset(inp)] in ToSet(OutputOrder(inp, kept, t));
    }
  }

  lemma MembershipAt(inp: Input, m: nat)
    requires m < |Memberships(inp)|
    ensures |Memberships(inp)| == Offset(inp) + |Order(inp)|
    ensures m < Offset(inp) ==> Memberships(inp)[m] == PrimaryMembership(inp, KeptGroups(inp), Routing(inp))
    ensures m >= Offset(inp) ==>
              var dn := Order(inp)[m - Offset(inp)];
              dn in Rest(inp, KeptGroups(inp)) && Memberships(inp)[m] == MembershipOf(inp, KeptGroups(inp), Routing(inp), dn)
  {
    ListAt(inp, KeptGroups(inp), Routing(inp), m);
  }

  lemma PrimaryHasMembership(inp: Input)
    requires EmitsPrimary(inp)
    ensures HasMembership(inp, inp.primary.value.sid)
  {
    assert Memberships(inp)[0].groupSid == inp.primary.value.sid;
  }

  lemma RestIsListed(inp: Input, kept: Closure, t: RouteTable, dn: Dn) returns (m: nat)
    requires dn in Rest(inp, kept)
    ensures m < |MembershipList(inp, kept, t)| && MembershipList(inp, kept, t)[m] == MembershipOf(inp, kept, t, dn)
  {
    var order := OutputOrder(inp, kept, t);
    assert dn in ToSet(order);
    var i :| 0 <= i < |order| && order[i] == dn;
    m := if EmitsPrimary(inp) then i + 1 else i;
  }

  lemma KeptHasMembership(inp: Input, dn: Dn)
    requires dn in KeptGroups(inp)
    ensures HasMembership(inp, KeptGroups(inp)[dn].sid)
  {
    if dn in Rest(inp, KeptGroups(inp)) {
      var m := RestIsListed(inp, KeptGroups(inp), Routing(inp), dn);
    } else {
      ClosureSid(inp, dn);
      PrimaryHasMembership(inp);
    }
  }

  /** The groups with a membership are the kept ones and the primary group. */
  lemma MembershipSids(inp: Input, sid: Sid)
    ensures HasMembership(inp, sid) <==>
              || (EmitsPrimary(inp) && PrimarySid(inp) == Some(sid))
              || exists dn :: dn in KeptGroups(inp) && KeptGroups(inp)[dn].sid == sid
  {
    if m :| 0 <= m < |Memberships(inp)| && Memberships(inp)[m].groupSid == sid {
      MembershipAt(inp, m);
      assert m >= Offset(inp) ==> Order(inp)[m - Offset(inp)] in KeptGroups(inp);
    }
    if EmitsPrimary(inp) && PrimarySid(inp) == Some(sid) {
      PrimaryHasMembership(inp);
    }
    if dn :| dn in KeptGroups(inp) && KeptGroups(inp)[dn].sid == sid {
      KeptHasMembership(inp, dn);
    }
  }

  lemma OrderDiffers(inp: Input, kept: Closure, t: RouteTable, i: nat, j: nat)
    requires i < j < |OutputOrder(inp, kept, t)|
    ensures OutputOrder(inp, kept, t)[i] != OutputOrder(inp, kept, t)[j]
  {
    InOrderSorted(kept, t, Rest(inp, kept), i, j);
  }

  lemma ListDiffers(inp: Input, kept: Closure, t: RouteTable, m: nat, n: nat)
    requires forall a, b :: a in kept && b in kept && a != b ==> kept[a].sid != kept[b].sid
    requires m < n < |MembershipList(inp, kept, t)|
    ensures MembershipList(inp, kept, t)[m].groupSid != MembershipList(inp, kept, t)[n].groupSid
  {
    hide MembershipList, OutputOrder, PathOf, Hops, OtherEntries;
    ListAt(inp, kept, t, m);
    ListAt(inp, kept, t, n);
    var k := Offset(inp);
    if m >= k {
      OrderDiffers(inp, kept, t, m - k, n - k);
    }
  }

  lemma NoOwnMembership(inp: Input)
    ensures !HasMembership(inp, inp.sid)
  {
    MembershipSids(inp, inp.sid);
    forall dn | dn in KeptGroups(inp) ensures KeptGroups(inp)[dn].sid != inp.sid {
      ClosureSid(inp, dn);
    }
  }

  // ---------- What the result reports ----------

  lemma GapsList(unknownType: set<Dn>, withoutSid: set<Dn>, outside: set<Dn>, dn: Dn)
    ensures var gaps := GapsOf(unknownType, withoutSid, outside);
            && ((exists g :: g in gaps && g.WithoutSid? && dn in g.dns) <==> dn in withoutSid)
            && ((exists g :: g in gaps && g.Outside? && dn in g.dns) <==> dn in outside)
            && ((exists g :: g in gaps && g.UnknownType? && dn in g.dns) <==> dn in unknownType)
  {
    var gaps := GapsOf(unknownType, withoutSid, outside);
    if dn in withoutSid {
      assert WithoutSid(withoutSid) in gaps;
    }
    if dn in outside {
      assert Outside(outside) in gaps;
    }
    if dn in unknownType {
      assert UnknownType(unknownType) in gaps;
    }
  }

  /** The gaps of the result name exactly the groups in question. */
  lemma GapsExact(inp: Input, dn: Dn)
    ensures var gaps := Assemble(inp).gaps;
            && ((exists g :: g in gaps && g.WithoutSid? && dn in g.dns) <==> dn in NoSid(inp))
            && ((exists g :: g in gaps && g.Outside? && dn in g.dns) <==> dn in OutsideGroups(inp))
            && ((exists g :: g in gaps && g.UnknownType? && dn in g.dns) <==> dn in UnknownTypes(FullClosure(inp), Seeds(inp)))
  {
    GapsList(UnknownTypes(FullClosure(inp), Seeds(inp)), NoSid(inp), OutsideGroups(inp), dn);
  }

  /** The excluded list names exactly the groups left out. */
  lemma ExcludedIffListed(inp: Input, dn: Dn)
    ensures (exists x :: x in Assemble(inp).excluded && x.dn == dn) <==> Excluded(FullClosure(inp), Seeds(inp), dn)
  {
    var c, seeds := FullClosure(inp), Seeds(inp);
    forall x ensures x in ExcludedList(c, seeds) ==> Excluded(c, seeds, x.dn) {
      ExcludedListExact(c, seeds, x);
    }
    ExcludedListExact(c, seeds, Distribution(dn));
    ExcludedListExact(c, seeds, OnlyThroughDistribution(dn));
  }

  /** No membership comes out of nothing: its group is one of the entries or
      the primary group. */
  lemma MembershipsComeFromEntries(inp: Input, m: nat)
    requires m < |Memberships(inp)|
    ensures var sid := Memberships(inp)[m].groupSid;
            PrimarySid(inp) == Some(sid) || exists i :: 0 <= i < |Entries(inp)| && Entries(inp)[i].sid == Some(sid)
  {
    MembershipAt(inp, m);
    if m >= Offset(inp) {
      var i := ClosureFrom(inp, Order(inp)[m - Offset(inp)]);
    }
  }

  /** A direct membership of the principal or of a kept group that leads to no
      entry and not back to the principal is reported as outside. */
  lemma UnknownTargetsAreReported(inp: Input, dn: Dn)
    requires dn in Targets(inp, KeptGroups(inp)) && dn != inp.principal.dn
    requires forall i :: 0 <= i < |Entries(inp)| ==> Entries(inp)[i].dn != dn
    ensures exists g :: g in Assemble(inp).gaps && g.Outside? && dn in g.dns
  {
    if dn in FullClosure(inp) {
      var i := ClosureFrom(inp, dn);
    }
    NoSidExact(inp, dn);
    assert dn in OutsideGroups(inp);
    GapsExact(inp, dn);
  }

  // ---------- Paths ----------

  lemma {:induction false} SidsOfRoute(kept: Closure, dns: seq<Dn>)
    requires forall dn :: dn in dns ==> dn in kept
    ensures |Sids(kept, dns)| == |Labels(kept, dns)| == |dns|
    ensures forall i :: 0 <= i < |dns| ==> Sids(kept, dns)[i] == kept[dns[i]].sid && Labels(kept, dns)[i] == kept[dns[i]].name
  {
    if dns != [] {
      SidsOfRoute(kept, dns[1..]);
    }
  }

  lemma RouteInClosure(c: Closure, seeds: set<Dn>, chain: seq<Dn>)
    requires IsRoute(c, seeds, chain)
    ensures forall dn :: dn in chain ==> dn in c
  {
    forall i | 0 <= i < |chain| ensures chain[i] in c {
      RouteStep(c, seeds, chain, i);
    }
  }

  /** The path shows the principal followed by the groups of the chain. */
  ghost predicate Shows(path: MembershipPath, sid: Sid, kept: Closure, chain: seq<Dn>) {
    && |path.nodes| == |chain| + 1
    && path.nodes[0] == sid
    && forall i :: 0 <= i < |chain| ==> chain[i] in kept && path.nodes[i + 1] == kept[chain[i]].sid
  }

  lemma PathShowsChain(inp: Input, kept: Closure, t: RouteTable, dn: Dn)
    requires dn in kept && ChainFrom(t, dn, 1).Some?
    requires forall x :: x in ChainFrom(t, dn, 1).value ==> x in kept
    ensures var path := PathOf(inp, kept, t, dn);
            path.complete && |path.names| == |path.nodes| && Shows(path, inp.sid, kept, ChainFrom(t, dn, 1).value)
  {
    var chain := ChainFrom(t, dn, 1).value;
    SidsOfRoute(kept, chain);
    assert forall i :: 0 <= i < |chain| ==> chain[i] in chain;
  }

  /** A group has a complete path exactly when some chain of direct
      memberships of kept groups reaches it. The path is then the principal
      followed by the groups of a shortest such chain from a hop-1 group to
      this one. */
  lemma CompletePathIsReal(inp: Input, dn: Dn)
    requires dn in KeptGroups(inp)
    ensures var kept, seeds := KeptGroups(inp), Seeds(inp);
            var path := PathOf(inp, kept, Routing(inp), dn);
            && |path.nodes| == |path.names|
            && (path.complete <==> Reachable(kept, seeds, dn))
            && (path.complete ==> exists chain ::
                  && RouteTo(kept, seeds, chain, dn) && Shows(path, inp.sid, kept, chain)
                  && forall other :: RouteTo(kept, seeds, other, dn) ==> |chain| <= |other|)
  {
    var kept, seeds := KeptGroups(inp), Seeds(inp);
    ChainExact(kept, seeds, dn);
    var r := ChainFrom(Routing(inp), dn, 1);
    if r.Some? {
      RouteInClosure(kept, seeds, r.value);
      PathShowsChain(inp, kept, Routing(inp), dn);
      DistIsShortest(kept, seeds, dn);
    }
  }

  /** The SID is that of a kept group that is not known to be a distribution group. */
  ghost predicate IsCountedGroup(inp: Input, sid: Sid) {
    exists dn :: && dn in KeptGroups(inp) && KeptGroups(inp)[dn].sid == sid
                 && KeptGroups(inp)[dn].security != Some(false)
  }

  lemma KeptIsNoDistributionGroup(inp: Input, dn: Dn)
    requires dn in KeptGroups(inp)
    ensures KeptGroups(inp)[dn].security != Some(false)
    ensures dn in FullClosure(inp) && KeptGroups(inp)[dn] == FullClosure(inp)[dn]
  {
  }

  /** Every complete domain-group path of the result runs only through groups
      not known to be distribution groups. */
  lemma CompletePathAvoidsDistributionGroups(inp: Input, m: nat, k: nat)
    requires m < |Memberships(inp)| && Memberships(inp)[m].path.Some?
    requires var path := Memberships(inp)[m].path.value;
             path.complete && path.source == DomainGroup && 0 < k < |path.nodes|
    ensures IsCountedGroup(inp, Memberships(inp)[m].path.value.nodes[k])
  {
    MembershipAt(inp, m);
    assert m >= Offset(inp);
    var dn := Order(inp)[m - Offset(inp)];
    var kept := KeptGroups(inp);
    CompletePathIsReal(inp, dn);
    var path := PathOf(inp, kept, Routing(inp), dn);
    assert Memberships(inp)[m].path == Some(path);
    hide *;
    NodesAreCounted(inp, dn, path, k);
  }

  lemma NodesAreCounted(inp: Input, dn: Dn, path: MembershipPath, k: nat)
    requires exists chain :: RouteTo(KeptGroups(inp), Seeds(inp), chain, dn) && Shows(path, inp.sid, KeptGroups(inp), chain)
    requires 0 < k < |path.nodes|
    ensures IsCountedGroup(inp, path.nodes[k])
  {
    hide RouteTo, KeptGroups, Seeds;
    var chain :| RouteTo(KeptGroups(inp), Seeds(inp), chain, dn) && Shows(path, inp.sid, KeptGroups(inp), chain);
    KeptIsNoDistributionGroup(inp, chain[k - 1]);
  }

  lemma {:induction false} HopsExact(kept: Closure, dns: seq<Dn>, h: MembershipHop)
    ensures h in Hops(kept, dns) <==> exists dn :: dn in dns && dn in kept && h == MembershipHop(kept[dn].sid, kept[dn].name)
  {
    if dns != [] {
      HopsExact(kept, dns[1..], h);
    }
  }

  /** `h` names a kept direct member of `dn` other than `skip`. */
  ghost predicate FurtherHop(kept: Closure, dn: Dn, skip: Option<Dn>, h: MembershipHop) {
    exists kid :: Edge(kept, kid, dn) && Some(kid) != skip && h == MembershipHop(kept[kid].sid, kept[kid].name)
  }

  lemma HopsOfOthers(kept: Closure, seeds: set<Dn>, dn: Dn, skip: Option<Dn>, h: MembershipHop)
    ensures h in Hops(kept, OtherEntries(Table(kept, seeds), dn, skip)) <==> FurtherHop(kept, dn, skip, h)
  {
    var others := OtherEntries(Table(kept, seeds), dn, skip);
    HopsExact(kept, others, h);
    forall kid: Dn ensures kid in others <==> Edge(kept, kid, dn) && Some(kid) != skip {
      OtherEntriesExact(kept, seeds, dn, skip, kid);
    }
  }

  /** The direct member through which the shown chain enters the group. */
  function LastHop(chain: Option<seq<Dn>>): Option<Dn> {
    if chain.Some? && |chain.value| >= 2 then Some(chain.value[|chain.value| - 2]) else None
  }

  lemma AlsoViaAre(inp: Input, kept: Closure, t: RouteTable, dn: Dn)
    requires dn in kept
    ensures PathOf(inp, kept, t, dn).alsoVia == Hops(kept, OtherEntries(t, dn, LastHop(ChainFrom(t, dn, 1))))
  {
    hide ChainFrom, Hops, OtherEntries, Sids, Labels;
  }

  /** The further routes shown for a group are exactly its direct members
      among the kept groups, except the last hop of the shown chain. */
  lemma FurtherRoutesExact(inp: Input, dn: Dn, h: MembershipHop)
    requires dn in KeptGroups(inp)
    ensures h in PathOf(inp, KeptGroups(inp), Routing(inp), dn).alsoVia <==>
              FurtherHop(KeptGroups(inp), dn, LastHop(ChainFrom(Routing(inp), dn, 1)), h)
  {
    AlsoViaAre(inp, KeptGroups(inp), Routing(inp), dn);
    HopsOfOthers(KeptGroups(inp), Seeds(inp), dn, LastHop(ChainFrom(Routing(inp), dn, 1)), h);
  }
}
