/** The assembled result depends on the directory state, not on the order in
    which the server lists entries or attribute values. */
module AssemblyOrder {
  import opened Wrappers
  import opened SortedSets
  import opened Directory
  import opened Routes
  import opened Assembly
  import opened AssemblyFacts

  /** An entry with its `memberOf` values in a fixed order and without repeats. */
  function Canon(e: RawEntry): RawEntry {
    e.(memberOf := SortedMemberOf(e))
  }

  function Found(inp: Input): seq<RawEntry> {
    inp.transitive + inp.pgParents
  }

  function CanonSet(s: seq<RawEntry>): set<RawEntry> {
    set e | e in s :: Canon(e)
  }

  /** The server returned the same data for each object it returned twice. */
  ghost predicate Consistent(inp: Input) {
    forall x, y :: x in Found(inp) && y in Found(inp) && x.dn == y.dn ==> Canon(x) == Canon(y)
  }

  ghost predicate SamePrimary(a: Option<Primary>, b: Option<Primary>) {
    match (a, b)
    case (None, None) => true
    case (Some(p), Some(q)) =>
      && p.sid == q.sid
      && (p.entry.Some? <==> q.entry.Some?)
      && (p.entry.Some? ==> Canon(p.entry.value) == Canon(q.entry.value))
    case _ => false
  }

  /** The same directory state, answered in any order and with any repeats. */
  ghost predicate SameAnswers(a: Input, b: Input) {
    && a.sid == b.sid
    && Canon(a.principal) == Canon(b.principal)
    && SamePrimary(a.primary, b.primary)
    && CanonSet(Found(a)) == CanonSet(Found(b))
  }

  lemma SameMemberOf(x: RawEntry, y: RawEntry)
    requires Canon(x) == Canon(y)
    ensures ToSet(x.memberOf) == ToSet(y.memberOf)
    ensures SortedMemberOf(x) == SortedMemberOf(y)
  {
    assert Canon(x).memberOf == SortedMemberOf(x) && Canon(y).memberOf == SortedMemberOf(y);
    assert ToSet(SortedMemberOf(x)) == ToSet(x.memberOf) && ToSet(SortedMemberOf(y)) == ToSet(y.memberOf);
  }

  lemma SameAnswersSymmetric(a: Input, b: Input)
    requires Consistent(a) && SameAnswers(a, b)
    ensures Consistent(b) && SameAnswers(b, a)
  {
    forall x, y | x in Found(b) && y in Found(b) && x.dn == y.dn
      ensures Canon(x) == Canon(y)
    {
      var x' := Counterpart(b, a, x);
      var y' := Counterpart(b, a, y);
    }
  }

  lemma Counterpart(a: Input, b: Input, x: RawEntry) returns (y: RawEntry)
    requires CanonSet(Found(a)) == CanonSet(Found(b)) && x in Found(a)
    ensures y in Found(b) && Canon(y) == Canon(x) && y.dn == x.dn && y.sid == x.sid
  {
    assert Canon(x) in CanonSet(Found(a));
    y :| y in Found(b) && Canon(y) == Canon(x);
    assert Canon(y).dn == y.dn && Canon(x).dn == x.dn && Canon(y).sid == y.sid && Canon(x).sid == x.sid;
  }

  /** Entry number `i`, located in the other run: the same object, found at
      some position of the same kind. */
  lemma Locate(a: Input, b: Input, i: nat) returns (j: nat)
    requires SameAnswers(a, b) && i < |Entries(a)|
    ensures j < |Entries(b)| && Canon(Entries(b)[j]) == Canon(Entries(a)[i])
    ensures Entries(b)[j].dn == Entries(a)[i].dn && Entries(b)[j].sid == Entries(a)[i].sid
    ensures i < |Found(a)| <==> j < |Found(b)|
  {
    if i < |Found(a)| {
      assert Entries(a)[i] == Found(a)[i];
      var y := Counterpart(a, b, Found(a)[i]);
      j :| 0 <= j < |Found(b)| && Found(b)[j] == y;
    } else {
      j := |Found(b)|;
      assert Canon(Entries(b)[j]).dn == Entries(b)[j].dn && Canon(Entries(b)[j]).sid == Entries(b)[j].sid;
    }
  }

  lemma SameGroup(a: Input, b: Input, i: nat, j: nat)
    requires i < |Entries(a)| && j < |Entries(b)| && Entries(a)[i].sid.Some?
    requires Canon(Entries(a)[i]) == Canon(Entries(b)[j])
    requires i < |Found(a)| <==> j < |Found(b)|
    ensures Entries(b)[j].sid.Some? && GroupOf(a, i) == GroupOf(b, j)
  {
    var x, y := Entries(a)[i], Entries(b)[j];
    SameMemberOf(x, y);
    assert Canon(x).sid == x.sid && Canon(y).sid == y.sid;
    assert Canon(x).groupType == x.groupType && Canon(y).groupType == y.groupType;
    assert Canon(x).name == x.name && Canon(y).name == y.name;
    assert Canon(x).historyCount == x.historyCount && Canon(y).historyCount == y.historyCount;
    assert Canon(x).history == x.history && Canon(y).history == y.history;
  }

  /** The first entry that can become a group is the same object in both runs. */
  lemma SameFirst(a: Input, b: Input, dn: Dn, i: nat, j: nat)
    requires Consistent(a) && Consistent(b) && SameAnswers(a, b)
    requires FirstFor(a, i, dn) && FirstFor(b, j, dn)
    ensures Canon(Entries(a)[i]) == Canon(Entries(b)[j])
    ensures i < |Found(a)| <==> j < |Found(b)|
  {
    var k := Locate(a, b, i);
    assert Admissible(b, k) && j <= k;
    SameAnswersSymmetric(a, b);
    var l := Locate(b, a, j);
    assert Admissible(a, l) && i <= l;
    if j < |Found(b)| {
      assert i < |Found(a)|;
      assert Entries(a)[i] in Found(a) && Entries(a)[l] in Found(a);
    }
  }

  lemma ClosureWithin(a: Input, b: Input, dn: Dn)
    requires Consistent(a) && Consistent(b) && SameAnswers(a, b)
    requires dn in FullClosure(a)
    ensures dn in FullClosure(b) && FullClosure(b)[dn] == FullClosure(a)[dn]
  {
    var i := ClosureFrom(a, dn);
    var k := Locate(a, b, i);
    ClosureHas(b, k);
    var j := ClosureFrom(b, dn);
    SameFirst(a, b, dn, i, j);
    SameGroup(a, b, i, j);
  }

  lemma SameSid(inp: Input, i: nat, l: nat)
    requires Consistent(inp) && i < |Found(inp)| && l < |Found(inp)|
    ensures Entries(inp)[i].dn == Entries(inp)[l].dn ==> Entries(inp)[i].sid == Entries(inp)[l].sid
  {
    var x, y := Entries(inp)[i], Entries(inp)[l];
    assert x in Found(inp) && y in Found(inp);
    assert Canon(x).sid == x.sid && Canon(y).sid == y.sid;
  }

  /** A group reported without SID has none in any of the entries found. */
  lemma LostMeansNone(inp: Input, i: nat, dn: Dn)
    requires Consistent(inp) && LostAt(inp, i, dn)
    ensures forall l: nat :: l < |Found(inp)| && Admissible(inp, l) ==> Entries(inp)[l].dn != dn
  {
    if i < |Found(inp)| {
      forall l: nat | l < |Found(inp)| && Admissible(inp, l) ensures Entries(inp)[l].dn != dn {
        SameSid(inp, i, l);
      }
    }
  }

  lemma NoSidWithin(a: Input, b: Input, dn: Dn)
    requires Consistent(a) && Consistent(b) && SameAnswers(a, b)
    requires dn in NoSid(a)
    ensures dn in NoSid(b)
  {
    NoSidExact(a, dn);
    var i: nat :| LostAt(a, i, dn);
    LostMeansNone(a, i, dn);
    var k := Locate(a, b, i);
    SameAnswersSymmetric(a, b);
    forall j: nat | j < k && Admissible(b, j) ensures Entries(b)[j].dn != dn {
      var l := Locate(b, a, j);
      assert Admissible(a, l);
    }
    assert LostAt(b, k, dn);
    NoSidExact(b, dn);
  }

  lemma SameScan(a: Input, b: Input)
    requires Consistent(a) && SameAnswers(a, b)
    ensures FullClosure(a) == FullClosure(b) && NoSid(a) == NoSid(b)
  {
    SameAnswersSymmetric(a, b);
    forall dn: Dn
      ensures dn in FullClosure(a) <==> dn in FullClosure(b)
      ensures dn in FullClosure(a) ==> FullClosure(a)[dn] == FullClosure(b)[dn]
      ensures dn in NoSid(a) <==> dn in NoSid(b)
    {
      if dn in FullClosure(a) { ClosureWithin(a, b, dn); }
      if dn in FullClosure(b) { ClosureWithin(b, a, dn); }
      if dn in NoSid(a) { NoSidWithin(a, b, dn); }
      if dn in NoSid(b) { NoSidWithin(b, a, dn); }
    }
  }

  lemma SamePrincipal(a: Input, b: Input)
    requires SameAnswers(a, b)
    ensures Seeds(a) == Seeds(b)
    ensures ToSet(a.principal.memberOf) == ToSet(b.principal.memberOf)
    ensures a.principal.dn == b.principal.dn && a.principal.name == b.principal.name
    ensures PrimarySid(a) == PrimarySid(b) && EmitsPrimary(a) == EmitsPrimary(b)
  {
    SameMemberOf(a.principal, b.principal);
    assert Canon(a.principal).dn == a.principal.dn && Canon(b.principal).dn == b.principal.dn;
    assert Canon(a.principal).name == a.principal.name && Canon(b.principal).name == b.principal.name;
    if PrimaryEntry(a).Some? {
      var x, y := PrimaryEntry(a).value, PrimaryEntry(b).value;
      assert Canon(x).dn == x.dn && Canon(y).dn == y.dn;
    }
  }

  lemma SamePrimaryMembership(a: Input, b: Input, kept: Closure, t: RouteTable)
    requires SameAnswers(a, b) && a.primary.Some?
    ensures b.primary.Some? && PrimaryMembership(a, kept, t) == PrimaryMembership(b, kept, t)
  {
    SamePrincipal(a, b);
    if PrimaryEntry(a).Some? {
      var x, y := PrimaryEntry(a).value, PrimaryEntry(b).value;
      assert Canon(x).dn == x.dn && Canon(y).dn == y.dn;
      assert Canon(x).name == x.name && Canon(y).name == y.name;
      assert Canon(x).historyCount == x.historyCount && Canon(y).historyCount == y.historyCount;
      assert Canon(x).history == x.history && Canon(y).history == y.history;
    }
  }

  lemma SameMembershipOf(a: Input, b: Input, kept: Closure, t: RouteTable, dn: Dn)
    requires SameAnswers(a, b) && dn in kept
    ensures MembershipOf(a, kept, t, dn) == MembershipOf(b, kept, t, dn)
  {
    SamePrincipal(a, b);
    assert dn in a.principal.memberOf <==> dn in ToSet(a.principal.memberOf);
    assert dn in b.principal.memberOf <==> dn in ToSet(b.principal.memberOf);
  }

  lemma SameMembershipList(a: Input, b: Input, kept: Closure, t: RouteTable)
    requires SameAnswers(a, b)
    ensures MembershipList(a, kept, t) == MembershipList(b, kept, t)
  {
    SamePrincipal(a, b);
    hide SameAnswers, InOrder, MembershipOf, PrimaryMembership;
    assert Rest(a, kept) == Rest(b, kept);
    var order := OutputOrder(a, kept, t);
    assert order == OutputOrder(b, kept, t);
    forall i | 0 <= i < |order|
      ensures MembershipOf(a, kept, t, order[i]) == MembershipOf(b, kept, t, order[i])
    {
      SameMembershipOf(a, b, kept, t, order[i]);
    }
    assert RestList(a, kept, t, order) == RestList(b, kept, t, order);
    if a.primary.Some? {
      SamePrimaryMembership(a, b, kept, t);
    }
  }

  lemma SameOutside(a: Input, b: Input, kept: Closure, excluded: set<Dn>, withoutSid: set<Dn>)
    requires SameAnswers(a, b)
    ensures OutsideDns(a, kept, excluded, withoutSid) == OutsideDns(b, kept, excluded, withoutSid)
  {
    SamePrincipal(a, b);
    assert Targets(a, kept) == Targets(b, kept);
  }

  /** Permuting or repeating result entries and permuting or repeating
      `memberOf` values changes nothing in the result. */
  lemma OrderIndependent(a: Input, b: Input)
    requires Consistent(a) && SameAnswers(a, b)
    ensures Assemble(a) == Assemble(b)
  {
    SameScan(a, b);
    SamePrincipal(a, b);
    SameMembershipList(a, b, KeptGroups(a), Table(KeptGroups(a), Seeds(a)));
    SameOutside(a, b, KeptGroups(a), ExcludedDns(FullClosure(a), Seeds(a)), NoSid(a));
  }
}
