/** When the server returns an object more than once and the answers disagree:
    exactly when the order of the answers decides what the scan makes of them. */
module AssemblyScan {
  import opened Wrappers
  import opened SortedSets
  import opened Directory
  import opened Assembly
  import opened AssemblyFacts
  import opened AssemblyOrder
  import StableSort
  import Routes

  /** The same answers of the two searches in any order and with any repeats. */
  predicate Reordered(a: Input, b: Input) {
    && a.sid == b.sid && a.principal == b.principal && a.primary == b.primary
    && ToSet(Found(a)) == ToSet(Found(b))
  }

  /** The entry can become a closure group. */
  predicate Becomes(inp: Input, e: RawEntry) {
    e.sid.Some? && e.sid.value != inp.sid
  }

  /** The group a search result becomes. */
  function GroupFrom(e: RawEntry): ClosureGroup
    requires e.sid.Some?
  {
    ClosureGroup(e.sid.value, e.name, SortedMemberOf(e), GroupIsSecurity(e), e.historyCount, e.history)
  }

  /** Every order of the answers gives the same closure and the same groups
      without SID. */
  ghost predicate ScanForgetsOrder(a: Input) {
    forall b :: Reordered(a, b) ==> FullClosure(a) == FullClosure(b) && NoSid(a) == NoSid(b)
  }

  /** The answers of one name that become groups become the same group, and
      none of that name comes without SID. */
  predicate AnswersAgree(inp: Input) {
    forall x, y :: x in Found(inp) && y in Found(inp) && x.dn == y.dn && Becomes(inp, x) ==>
      y.sid.Some? && (Becomes(inp, y) ==> GroupFrom(x) == GroupFrom(y))
  }

  // ---------- What the scan makes of agreeing answers ----------

  ghost predicate FoundAs(inp: Input, dn: Dn) {
    exists x :: x in Found(inp) && x.dn == dn && Becomes(inp, x)
  }

  ghost predicate FoundWithoutSid(inp: Input, dn: Dn) {
    exists x :: x in Found(inp) && x.dn == dn && x.sid.None?
  }

  /** The primary group's entry has the name. */
  predicate IsPrimaryName(inp: Input, dn: Dn) {
    PrimaryEntry(inp).Some? && PrimaryEntry(inp).value.dn == dn
  }

  lemma EntryKind(inp: Input, i: nat)
    requires i < |Entries(inp)|
    ensures i < |Found(inp)| ==> Entries(inp)[i] == Found(inp)[i] && Entries(inp)[i] in Found(inp)
    ensures i >= |Found(inp)| ==> PrimaryEntry(inp) == Some(Entries(inp)[i]) && i == |Found(inp)|
    ensures Admissible(inp, i) <==> Becomes(inp, Entries(inp)[i])
    ensures Entries(inp)[i].sid.Some? ==>
      GroupOf(inp, i) == if i < |Found(inp)| then GroupFrom(Entries(inp)[i])
                         else GroupFrom(Entries(inp)[i]).(security := Some(true))
  {
  }

  lemma FoundEntry(inp: Input, x: RawEntry) returns (i: nat)
    requires x in Found(inp)
    ensures i < |Found(inp)| <= |Entries(inp)| && Entries(inp)[i] == x
  {
    i :| 0 <= i < |Found(inp)| && Found(inp)[i] == x;
  }

  lemma ClosureKeys(inp: Input, dn: Dn)
    ensures dn in FullClosure(inp) <==>
      FoundAs(inp, dn) || (IsPrimaryName(inp, dn) && Becomes(inp, PrimaryEntry(inp).value))
  {
    if dn in FullClosure(inp) {
      var i := ClosureFrom(inp, dn);
      EntryKind(inp, i);
    }
    hide FullClosure;
    if FoundAs(inp, dn) {
      var x :| x in Found(inp) && x.dn == dn && Becomes(inp, x);
      var i := FoundEntry(inp, x);
      ClosureHas(inp, i);
    }
    if IsPrimaryName(inp, dn) && Becomes(inp, PrimaryEntry(inp).value) {
      ClosureHas(inp, |Found(inp)|);
    }
  }

  lemma ClosureOfFound(inp: Input, x: RawEntry)
    requires AnswersAgree(inp) && x in Found(inp) && Becomes(inp, x)
    ensures x.dn in FullClosure(inp) && FullClosure(inp)[x.dn] == GroupFrom(x)
  {
    ClosureKeys(inp, x.dn);
    assert FoundAs(inp, x.dn);
    var i := ClosureFrom(inp, x.dn);
    var j := FoundEntry(inp, x);
    EntryKind(inp, i);
    EntryKind(inp, j);
    hide FullClosure, GroupFrom, GroupOf;
    assert i <= j;
  }

  lemma ClosureOfPrimary(inp: Input, dn: Dn)
    requires !FoundAs(inp, dn) && IsPrimaryName(inp, dn) && Becomes(inp, PrimaryEntry(inp).value)
    ensures dn in FullClosure(inp)
    ensures FullClosure(inp)[dn] == GroupFrom(PrimaryEntry(inp).value).(security := Some(true))
  {
    ClosureKeys(inp, dn);
    var i := ClosureFrom(inp, dn);
    EntryKind(inp, i);
    hide FullClosure, GroupFrom, GroupOf;
    assert i >= |Found(inp)|;
  }

  lemma NoSidOf(inp: Input, dn: Dn)
    requires AnswersAgree(inp)
    ensures dn in NoSid(inp) <==>
      FoundWithoutSid(inp, dn) || (IsPrimaryName(inp, dn) && PrimaryEntry(inp).value.sid.None? && !FoundAs(inp, dn))
  {
    NoSidExact(inp, dn);
    hide NoSid;
    if exists i: nat :: LostAt(inp, i, dn) {
      var i: nat :| LostAt(inp, i, dn);
      LostIs(inp, i, dn);
    }
    if FoundWithoutSid(inp, dn) {
      var x :| x in Found(inp) && x.dn == dn && x.sid.None?;
      var i := FoundEntry(inp, x);
      forall j: nat | j < i && Admissible(inp, j) ensures Entries(inp)[j].dn != dn {
        EntryKind(inp, j);
      }
      assert LostAt(inp, i, dn);
    }
    if IsPrimaryName(inp, dn) && PrimaryEntry(inp).value.sid.None? && !FoundAs(inp, dn) {
      PrimaryLost(inp, dn);
    }
  }

  lemma LostIs(inp: Input, i: nat, dn: Dn)
    requires LostAt(inp, i, dn)
    ensures FoundWithoutSid(inp, dn) || (IsPrimaryName(inp, dn) && PrimaryEntry(inp).value.sid.None? && !FoundAs(inp, dn))
  {
    EntryKind(inp, i);
    if i >= |Found(inp)| && FoundAs(inp, dn) {
      var x :| x in Found(inp) && x.dn == dn && Becomes(inp, x);
      var j := FoundEntry(inp, x);
      EntryKind(inp, j);
    }
  }

  lemma PrimaryLost(inp: Input, dn: Dn)
    requires IsPrimaryName(inp, dn) && PrimaryEntry(inp).value.sid.None? && !FoundAs(inp, dn)
    ensures LostAt(inp, |Found(inp)|, dn)
  {
    forall j: nat | j < |Found(inp)| && Admissible(inp, j) ensures Entries(inp)[j].dn != dn {
      EntryKind(inp, j);
    }
  }

  lemma SameFound(a: Input, b: Input)
    requires Reordered(a, b)
    ensures forall x :: x in Found(a) <==> x in Found(b)
  {
    assert forall x :: x in Found(a) <==> x in ToSet(Found(a));
    assert forall x :: x in Found(b) <==> x in ToSet(Found(b));
  }

  lemma SameAnswersFound(a: Input, b: Input, dn: Dn)
    requires Reordered(a, b)
    ensures FoundAs(a, dn) <==> FoundAs(b, dn)
    ensures FoundWithoutSid(a, dn) <==> FoundWithoutSid(b, dn)
    ensures IsPrimaryName(a, dn) <==> IsPrimaryName(b, dn)
    ensures AnswersAgree(a) <==> AnswersAgree(b)
  {
    SameFound(a, b);
    hide GroupFrom;
  }

  lemma AgreeingScanAt(a: Input, b: Input, dn: Dn)
    requires AnswersAgree(a) && Reordered(a, b)
    ensures dn in FullClosure(a) <==> dn in FullClosure(b)
    ensures dn in FullClosure(a) ==> FullClosure(a)[dn] == FullClosure(b)[dn]
    ensures dn in NoSid(a) <==> dn in NoSid(b)
  {
    SameAnswersFound(a, b, dn);
    ClosureKeys(a, dn);
    ClosureKeys(b, dn);
    NoSidOf(a, dn);
    NoSidOf(b, dn);
    SameFound(a, b);
    hide FullClosure, NoSid, GroupFrom, AnswersAgree;
    if dn in FullClosure(a) {
      if FoundAs(a, dn) {
        var x :| x in Found(a) && x.dn == dn && Becomes(a, x);
        ClosureOfFound(a, x);
        ClosureOfFound(b, x);
      } else {
        ClosureOfPrimary(a, dn);
        ClosureOfPrimary(b, dn);
      }
    }
  }

  lemma AgreeingScan(a: Input, b: Input)
    requires AnswersAgree(a) && Reordered(a, b)
    ensures FullClosure(a) == FullClosure(b) && NoSid(a) == NoSid(b)
  {
    hide *;
    forall dn: Dn
      ensures dn in FullClosure(a) <==> dn in FullClosure(b)
      ensures dn in FullClosure(a) ==> FullClosure(a)[dn] == FullClosure(b)[dn]
      ensures dn in NoSid(a) <==> dn in NoSid(b)
    {
      AgreeingScanAt(a, b, dn);
    }
  }

  // ---------- Disagreeing answers ----------

  /** The answers with one of them first. */
  function AnsweredFirst(a: Input, i: nat): Input
    requires i < |Found(a)|
  {
    a.(transitive := StableSort.ToFront(Found(a), i), pgParents := [])
  }

  lemma FirstIsReordered(a: Input, i: nat)
    requires i < |Found(a)|
    ensures Reordered(a, AnsweredFirst(a, i))
    ensures |Entries(AnsweredFirst(a, i))| > 0 && Entries(AnsweredFirst(a, i))[0] == Found(a)[i]
    ensures |Found(AnsweredFirst(a, i))| > 0
  {
    var b := AnsweredFirst(a, i);
    StableSort.ToFrontIs(Found(a), i);
    assert Found(b) == StableSort.ToFront(Found(a), i);
    forall x ensures x in Found(b) <==> x in Found(a) {
      assert x in Found(a) <==> x in Found(a)[..i] + [Found(a)[i]] + Found(a)[i + 1..];
    }
  }

  lemma FirstDecides(a: Input, i: nat)
    requires i < |Found(a)|
    ensures var b, x := AnsweredFirst(a, i), Found(a)[i];
      && (Becomes(a, x) ==> x.dn in FullClosure(b) && FullClosure(b)[x.dn] == GroupFrom(x) && x.dn !in NoSid(b))
      && (x.sid.None? ==> x.dn in NoSid(b))
  {
    var b, x := AnsweredFirst(a, i), Found(a)[i];
    FirstIsReordered(a, i);
    EntryKind(b, 0);
    NoSidExact(b, x.dn);
    if Becomes(a, x) {
      ClosureHas(b, 0);
      var j := ClosureFrom(b, x.dn);
      assert j == 0;
      assert Admissible(b, 0);
    }
    if x.sid.None? {
      assert LostAt(b, 0, x.dn);
    }
    hide FullClosure, NoSid, GroupFrom, GroupOf;
  }

  lemma ForgettingAgrees(a: Input, i: nat, j: nat)
    requires ScanForgetsOrder(a) && i < |Found(a)| && j < |Found(a)|
    requires Found(a)[i].dn == Found(a)[j].dn && Becomes(a, Found(a)[i])
    ensures Found(a)[j].sid.Some?
    ensures Becomes(a, Found(a)[j]) ==> GroupFrom(Found(a)[i]) == GroupFrom(Found(a)[j])
  {
    FirstIsReordered(a, i);
    FirstIsReordered(a, j);
    FirstDecides(a, i);
    FirstDecides(a, j);
    hide FullClosure, NoSid, GroupFrom, AnsweredFirst, Reordered, Found;
  }

  /** The order of the answers does not matter to the scan if and only if
      those of one name agree. */
  lemma ScanForgetsOrderExactly(a: Input)
    ensures ScanForgetsOrder(a) <==> AnswersAgree(a)
  {
    if AnswersAgree(a) {
      forall b | Reordered(a, b) ensures FullClosure(a) == FullClosure(b) && NoSid(a) == NoSid(b) {
        AgreeingScan(a, b);
      }
    }
    if ScanForgetsOrder(a) {
      hide ScanForgetsOrder, GroupFrom;
      forall x, y | x in Found(a) && y in Found(a) && x.dn == y.dn && Becomes(a, x)
        ensures y.sid.Some? && (Becomes(a, y) ==> GroupFrom(x) == GroupFrom(y))
      {
        var i :| 0 <= i < |Found(a)| && Found(a)[i] == x;
        var j :| 0 <= j < |Found(a)| && Found(a)[j] == y;
        ForgettingAgrees(a, i, j);
      }
    }
  }

  // ---------- The whole result ----------

  /** The result depends on the answers only through the scan, the principal and
      the primary group. */
  lemma SameScanSameResult(a: Input, b: Input)
    requires a.sid == b.sid && a.principal == b.principal && a.primary == b.primary
    requires FullClosure(a) == FullClosure(b) && NoSid(a) == NoSid(b)
    ensures Assemble(a) == Assemble(b)
  {
    var kept, t := KeptGroups(a), Routes.Table(KeptGroups(a), Seeds(a));
    SameList(a, b, kept, t);
    hide FullClosure, NoSid, Kept, MembershipList, ExcludedList, UnknownTypes, ExcludedDns, GapsOf;
  }

  lemma SameList(a: Input, b: Input, kept: Closure, t: Routes.RouteTable)
    requires a.sid == b.sid && a.principal == b.principal && a.primary == b.primary
    ensures MembershipList(a, kept, t) == MembershipList(b, kept, t)
  {
    hide InOrder, PathOf, Hops;
    assert Rest(a, kept) == Rest(b, kept);
    var order := OutputOrder(a, kept, t);
    assert order == OutputOrder(b, kept, t);
    forall i | 0 <= i < |order| ensures MembershipOf(a, kept, t, order[i]) == MembershipOf(b, kept, t, order[i]) {
      SamePath(a, b, kept, t, order[i]);
    }
    hide MembershipOf, OutputOrder;
    assert RestList(a, kept, t, order) == RestList(b, kept, t, order);
  }

  lemma SamePath(a: Input, b: Input, kept: Closure, t: Routes.RouteTable, dn: Dn)
    requires a.sid == b.sid && a.principal == b.principal && dn in kept
    ensures PathOf(a, kept, t, dn) == PathOf(b, kept, t, dn)
  {
    hide Hops, Sids, Labels;
  }

  /** Agreeing answers give one result in every order. */
  lemma AgreeingAnswersSuffice(a: Input, b: Input)
    requires AnswersAgree(a) && Reordered(a, b)
    ensures Assemble(a) == Assemble(b)
  {
    hide *;
    AgreeingScan(a, b);
    ReorderedKeeps(a, b);
    SameScanSameResult(a, b);
  }

  lemma ReorderedKeeps(a: Input, b: Input)
    requires Reordered(a, b)
    ensures a.sid == b.sid && a.principal == b.principal && a.primary == b.primary
  {
  }
}
