/** The assembled token against the true directory: without gaps nothing that
    belongs into the token is missing, and nothing is in it by mistake. */
module TokenExactness {
  import opened Wrappers
  import opened SortedSets
  import opened Directory
  import opened Routes
  import opened Assembly
  import opened AssemblyFacts
  import opened AssemblyConservation

  /** A group as it really is in the directory. */
  datatype TrueGroup = TrueGroup(sid: Sid, memberOf: set<Dn>, security: bool, history: set<Sid>)

  type Truth = map<Dn, TrueGroup>

  /** An entry may leave out its SID, its type or historical SIDs but states
      nothing false and lists all its memberships. */
  ghost predicate Reports(e: RawEntry, g: TrueGroup) {
    && (e.sid.Some? ==> e.sid.value == g.sid)
    && ToSet(e.memberOf) == g.memberOf
    && (GroupIsSecurity(e).Some? ==> GroupIsSecurity(e).value == g.security)
    && ToSet(e.history) <= g.history
  }

  /** The answers are true, though any of them may be missing. The directory
      enforces that a primary group is a security group and that no two
      objects share a SID. */
  ghost predicate Truthful(inp: Input, d: Truth) {
    && (forall i :: 0 <= i < |Entries(inp)| ==> Entries(inp)[i].dn in d && Reports(Entries(inp)[i], d[Entries(inp)[i].dn]))
    && (inp.principal.dn in d ==> d[inp.principal.dn].memberOf == ToSet(inp.principal.memberOf))
    && (forall dn :: dn in d && d[dn].sid == inp.sid ==> dn == inp.principal.dn)
    && (inp.principal.dn in d ==> d[inp.principal.dn].sid == inp.sid)
    && (inp.primary.Some? ==>
          && PrimaryEntry(inp).Some?
          && PrimaryEntry(inp).value.dn in d
          && d[PrimaryEntry(inp).value.dn].security
          && d[PrimaryEntry(inp).value.dn].sid == inp.primary.value.sid)
  }

  /** A chain of true memberships through security groups only, starting at a
      direct group of the principal or its primary group. */
  ghost predicate TrueChain(inp: Input, d: Truth, chain: seq<Dn>) {
    && |chain| > 0
    && chain[|chain| - 1] in d && d[chain[|chain| - 1]].security
    && (if |chain| == 1 then chain[0] in Seeds(inp)
        else TrueChain(inp, d, chain[..|chain| - 1]) && chain[|chain| - 1] in d[chain[|chain| - 2]].memberOf)
  }

  /** The SID belongs into the token. */
  ghost predicate InTrueToken(inp: Input, d: Truth, sid: Sid) {
    exists chain :: TrueChain(inp, d, chain) && d[chain[|chain| - 1]].sid == sid
  }

  lemma ClosureIsTrue(inp: Input, d: Truth, dn: Dn)
    requires Truthful(inp, d) && dn in FullClosure(inp)
    ensures dn in d
    ensures FullClosure(inp)[dn].sid == d[dn].sid
    ensures ToSet(FullClosure(inp)[dn].parents) == d[dn].memberOf
    ensures FullClosure(inp)[dn].security.Some? ==> FullClosure(inp)[dn].security.value == d[dn].security
  {
    var i := ClosureFrom(inp, dn);
    assert Reports(Entries(inp)[i], d[dn]);
    if i >= |inp.transitive| + |inp.pgParents| {
      assert Entries(inp)[i] == PrimaryEntry(inp).value;
    }
  }

  /** Without a gap for it, a target of the principal or of a kept group is in
      the closure or is the principal. */
  lemma TargetIsKnown(inp: Input, dn: Dn)
    requires OutsideGroups(inp) == {} && NoSid(inp) == {}
    requires dn in Targets(inp, KeptGroups(inp))
    ensures dn == inp.principal.dn || dn in FullClosure(inp)
  {
    assert dn !in OutsideGroups(inp) && dn !in NoSid(inp);
  }

  lemma PrimaryIsKnown(inp: Input, d: Truth)
    requires Truthful(inp, d) && NoSid(inp) == {} && PrimaryEntry(inp).Some?
    ensures var dn := PrimaryEntry(inp).value.dn; dn == inp.principal.dn || dn in FullClosure(inp)
  {
    var i := |Entries(inp)| - 1;
    var dn := PrimaryEntry(inp).value.dn;
    assert Entries(inp)[i] == PrimaryEntry(inp).value;
    if Admissible(inp, i) {
      ClosureHas(inp, i);
    } else if Entries(inp)[i].sid.None? {
      NoSidExact(inp, dn);
      assert !LostAt(inp, i, dn);
      var j: nat :| j < i && Admissible(inp, j) && Entries(inp)[j].dn == dn;
      ClosureHas(inp, j);
    }
  }

  /** A security group of the closure that a security route reaches is kept. */
  lemma SecureIsKept(inp: Input, d: Truth, dn: Dn)
    requires Truthful(inp, d) && dn in FullClosure(inp) && dn in d && d[dn].security
    requires Reachable(Candidates(FullClosure(inp)), Seeds(inp), dn)
    ensures dn in KeptGroups(inp)
  {
    ClosureIsTrue(inp, d, dn);
  }

  lemma SecureIsCandidate(inp: Input, d: Truth, dn: Dn)
    requires Truthful(inp, d) && dn in FullClosure(inp) && dn in d && d[dn].security
    ensures dn in Candidates(FullClosure(inp))
  {
    ClosureIsTrue(inp, d, dn);
  }

  ghost predicate Arrived(inp: Input, dn: Dn) {
    || dn == inp.principal.dn
    || (dn in KeptGroups(inp) && Reachable(Candidates(FullClosure(inp)), Seeds(inp), dn))
  }

  lemma SeedArrives(inp: Input, d: Truth, dn: Dn)
    requires Truthful(inp, d) && OutsideGroups(inp) == {} && NoSid(inp) == {}
    requires dn in Seeds(inp) && dn in d && d[dn].security
    ensures Arrived(inp, dn)
  {
    if dn in ToSet(inp.principal.memberOf) {
      TargetIsKnown(inp, dn);
    } else {
      PrimaryIsKnown(inp, d);
    }
    if dn != inp.principal.dn {
      SecureIsCandidate(inp, d, dn);
      SeedRoute(Candidates(FullClosure(inp)), Seeds(inp), dn);
      SecureIsKept(inp, d, dn);
    }
  }

  lemma StepArrives(inp: Input, d: Truth, kid: Dn, dn: Dn)
    requires Truthful(inp, d) && OutsideGroups(inp) == {} && NoSid(inp) == {}
    requires kid != inp.principal.dn && Arrived(inp, kid) && kid in d
    requires dn in d && d[dn].security && dn in d[kid].memberOf
    ensures Arrived(inp, dn)
  {
    var cand := Candidates(FullClosure(inp));
    ClosureIsTrue(inp, d, kid);
    assert dn in FullClosure(inp)[kid].parents;
    TargetIsKnown(inp, dn);
    if dn != inp.principal.dn {
      SecureIsCandidate(inp, d, dn);
      assert Edge(cand, kid, dn);
      var chain :| RouteTo(cand, Seeds(inp), chain, kid);
      ExtendRoute(cand, Seeds(inp), chain, kid, dn);
      SecureIsKept(inp, d, dn);
    }
  }

  lemma {:induction false} ChainArrives(inp: Input, d: Truth, chain: seq<Dn>)
    requires Truthful(inp, d) && OutsideGroups(inp) == {} && NoSid(inp) == {}
    requires TrueChain(inp, d, chain)
    ensures Arrived(inp, chain[|chain| - 1])
  {
    var dn := chain[|chain| - 1];
    if |chain| == 1 {
      SeedArrives(inp, d, dn);
    } else {
      var kid := chain[|chain| - 2];
      ChainArrives(inp, d, chain[..|chain| - 1]);
      if kid == inp.principal.dn {
        SeedArrives(inp, d, dn);
      } else {
        StepArrives(inp, d, kid, dn);
      }
    }
  }

  /** Completeness: when neither a group outside the resolved set nor a group
      without SID is reported, every security group reached through security
      groups only has a membership. */
  lemma TokenIsComplete(inp: Input, d: Truth, sid: Sid)
    requires Truthful(inp, d)
    requires forall g :: g in Assemble(inp).gaps ==> g.UnknownType?
    requires InTrueToken(inp, d, sid)
    ensures sid == inp.sid || HasMembership(inp, sid)
  {
    NoGaps(inp);
    var chain :| TrueChain(inp, d, chain) && d[chain[|chain| - 1]].sid == sid;
    ChainArrives(inp, d, chain);
    var dn := chain[|chain| - 1];
    if dn != inp.principal.dn {
      ClosureIsTrue(inp, d, dn);
      MembershipSids(inp, sid);
    }
  }

  lemma NoGaps(inp: Input)
    requires forall g :: g in Assemble(inp).gaps ==> g.UnknownType?
    ensures OutsideGroups(inp) == {} && NoSid(inp) == {}
  {
    forall dn ensures dn !in OutsideGroups(inp) && dn !in NoSid(inp) {
      GapsExact(inp, dn);
    }
  }

  // ---------- Soundness ----------

  /** A route through kept groups of known type is a true security chain. */
  lemma {:induction false} RouteIsTrueChain(inp: Input, d: Truth, chain: seq<Dn>)
    requires Truthful(inp, d) && UnknownTypes(FullClosure(inp), Seeds(inp)) == {}
    requires IsRoute(KeptGroups(inp), Seeds(inp), chain)
    ensures TrueChain(inp, d, chain)
  {
    var dn := chain[|chain| - 1];
    RouteStep(KeptGroups(inp), Seeds(inp), chain, |chain| - 1);
    KeptIsSecure(inp, d, dn);
    if |chain| > 1 {
      var kid := chain[|chain| - 2];
      RouteIsTrueChain(inp, d, chain[..|chain| - 1]);
      ClosureIsTrue(inp, d, kid);
    }
  }

  lemma KeptIsSecure(inp: Input, d: Truth, dn: Dn)
    requires Truthful(inp, d) && UnknownTypes(FullClosure(inp), Seeds(inp)) == {}
    requires dn in KeptGroups(inp)
    ensures dn in d && d[dn].security
  {
    ClosureIsTrue(inp, d, dn);
    KeptIsNoDistributionGroup(inp, dn);
    assert dn !in UnknownTypes(FullClosure(inp), Seeds(inp));
  }

  lemma KeptIsInTrueToken(inp: Input, d: Truth, dn: Dn)
    requires Truthful(inp, d) && UnknownTypes(FullClosure(inp), Seeds(inp)) == {}
    requires dn in KeptGroups(inp) && Reachable(KeptGroups(inp), Seeds(inp), dn)
    ensures InTrueToken(inp, d, KeptGroups(inp)[dn].sid)
  {
    var chain :| RouteTo(KeptGroups(inp), Seeds(inp), chain, dn);
    RouteIsTrueChain(inp, d, chain);
    ClosureIsTrue(inp, d, dn);
  }

  /** Every listed path is completely known. */
  ghost predicate AllPathsComplete(inp: Input) {
    forall m :: 0 <= m < |Memberships(inp)| ==> Memberships(inp)[m].path.Some? && Memberships(inp)[m].path.value.complete
  }

  lemma CompleteIsReachable(inp: Input, m: nat)
    requires AllPathsComplete(inp) && Offset(inp) <= m < |Memberships(inp)|
    ensures m - Offset(inp) < |Order(inp)|
    ensures var dn := Order(inp)[m - Offset(inp)];
            && dn in KeptGroups(inp) && Reachable(KeptGroups(inp), Seeds(inp), dn)
            && Memberships(inp)[m].groupSid == KeptGroups(inp)[dn].sid
  {
    MembershipAt(inp, m);
    CompletePathIsReal(inp, Order(inp)[m - Offset(inp)]);
  }

  lemma MembershipIsTrue(inp: Input, d: Truth, m: nat)
    requires Truthful(inp, d) && UnknownTypes(FullClosure(inp), Seeds(inp)) == {}
    requires AllPathsComplete(inp) && m < |Memberships(inp)|
    ensures InTrueToken(inp, d, Memberships(inp)[m].groupSid)
  {
    MembershipAt(inp, m);
    if m < Offset(inp) {
      var chain := [PrimaryEntry(inp).value.dn];
      assert TrueChain(inp, d, chain);
    } else {
      CompleteIsReachable(inp, m);
      KeptIsInTrueToken(inp, d, Order(inp)[m - Offset(inp)]);
    }
  }

  /** Exactness: truthful answers, no gaps and every chain reconstructed
      together mean that the groups with a membership are exactly the groups
      that belong into the token. */
  lemma TokenIsExact(inp: Input, d: Truth, sid: Sid)
    requires Truthful(inp, d)
    requires Assemble(inp).gaps == [] && AllPathsComplete(inp)
    ensures HasMembership(inp, sid) <==> InTrueToken(inp, d, sid) && sid != inp.sid
  {
    forall dn ensures dn !in UnknownTypes(FullClosure(inp), Seeds(inp)) {
      GapsExact(inp, dn);
    }
    NoOwnMembership(inp);
    if HasMembership(inp, sid) {
      var m :| 0 <= m < |Memberships(inp)| && Memberships(inp)[m].groupSid == sid;
      MembershipIsTrue(inp, d, m);
    }
    if InTrueToken(inp, d, sid) {
      TokenIsComplete(inp, d, sid);
    }
  }
}
