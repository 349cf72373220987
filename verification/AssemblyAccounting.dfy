/** Where the entries the directory returned end up: each in exactly one place
    of the result. */
module AssemblyAccounting {
  import opened Wrappers
  import opened SortedSets
  import opened Directory
  import opened Routes
  import opened Assembly
  import opened AssemblyFacts
  import opened AssemblyConservation

  // ---------- What the answers must agree on ----------

  /** Entries describe objects: those of one name agree on SID and type, and
      those of one readable SID on the name. The same object may be returned
      any number of times. */
  predicate Coherent(inp: Input) {
    && (forall i, j :: 0 <= i < |Entries(inp)| && 0 <= j < |Entries(inp)| && Entries(inp)[i].dn == Entries(inp)[j].dn ==>
          Entries(inp)[i].sid == Entries(inp)[j].sid && Entries(inp)[i].groupType == Entries(inp)[j].groupType)
    && (forall i, j :: 0 <= i < |Entries(inp)| && 0 <= j < |Entries(inp)| && Entries(inp)[i].sid.Some? ==>
          (Entries(inp)[i].sid == Entries(inp)[j].sid ==> Entries(inp)[i].dn == Entries(inp)[j].dn))
  }

  /** The group is among the answers of the two membership searches. */
  predicate FoundBySearch(inp: Input, dn: Dn) {
    exists i :: 0 <= i < |inp.transitive| + |inp.pgParents| && Entries(inp)[i].dn == dn
  }

  /** The entry describes the primary group. */
  predicate IsPrimaryEntry(inp: Input, e: RawEntry) {
    PrimaryEntry(inp).Some? && PrimaryEntry(inp).value.dn == e.dn
  }

  // ---------- The four places ----------

  ghost predicate IsPrincipal(inp: Input, e: RawEntry) {
    e.sid == Some(inp.sid)
  }

  ghost predicate IsReportedWithoutSid(inp: Input, e: RawEntry) {
    exists g :: g in Assemble(inp).gaps && g.WithoutSid? && e.dn in g.dns
  }

  ghost predicate IsExcluded(inp: Input, e: RawEntry) {
    exists x :: x in Assemble(inp).excluded && x.dn == e.dn
  }

  /** The memberships that carry the SID. */
  ghost function WithSid(inp: Input, sid: Sid): set<nat> {
    set m | 0 <= m < |Memberships(inp)| && Memberships(inp)[m].groupSid == sid
  }

  /** The memberships that count the entry: those that carry its SID, and the
      first one when the entry is the primary group's and that is emitted. */
  ghost function MembershipsFor(inp: Input, e: RawEntry): set<nat> {
    (if e.sid.Some? then WithSid(inp, e.sid.value) else {})
    + (if EmitsPrimary(inp) && IsPrimaryEntry(inp, e) then {0} else {})
  }

  /** In how many places of the result the entry ends. */
  ghost function Places(inp: Input, e: RawEntry): nat {
    (if IsPrincipal(inp, e) then 1 else 0) + (if IsReportedWithoutSid(inp, e) then 1 else 0)
    + (if IsExcluded(inp, e) then 1 else 0) + |MembershipsFor(inp, e)|
  }

  /** The group is no distribution group and not reached only through one. */
  ghost predicate CountsInToken(inp: Input, e: RawEntry) {
    var c, seeds := FullClosure(inp), Seeds(inp);
    GroupIsSecurity(e) != Some(false) && (Reachable(c, seeds, e.dn) ==> Reachable(Candidates(c), seeds, e.dn))
  }

  /** What must be known about the primary group: its entry shows the SID it
      was looked up by, and no search returns it as a distribution group. When
      there is no entry of it, an answer that carries its SID must count. */
  ghost predicate PrimaryFits(inp: Input) {
    EmitsPrimary(inp) ==>
      match PrimaryEntry(inp)
      case Some(p) => p.sid == PrimarySid(inp) && (FoundBySearch(inp, p.dn) ==> GroupIsSecurity(p) != Some(false))
      case None => forall i :: 0 <= i < |Entries(inp)| && Entries(inp)[i].sid == PrimarySid(inp) ==> CountsInToken(inp, Entries(inp)[i])
  }

  // ---------- Entries and closure groups ----------

  /** What the scan makes of an entry. */
  ghost predicate Scanned(inp: Input, e: RawEntry) {
    && (e.dn in NoSid(inp) <==> e.sid.None?)
    && (e.dn in FullClosure(inp) <==> e.sid.Some? && e.sid.value != inp.sid)
    && (e.dn in FullClosure(inp) ==>
          && FullClosure(inp)[e.dn].sid == e.sid.value
          && FullClosure(inp)[e.dn].security == if FoundBySearch(inp, e.dn) then GroupIsSecurity(e) else Some(true))
  }

  lemma ScannedExact(inp: Input, i: nat)
    requires Coherent(inp) && i < |Entries(inp)|
    ensures Scanned(inp, Entries(inp)[i])
  {
    var e := Entries(inp)[i];
    NoSidExact(inp, e.dn);
    if Admissible(inp, i) {
      ClosureHas(inp, i);
      FirstHasItsType(inp, i);
    }
    if e.sid.None? {
      assert LostAt(inp, i, e.dn);
    }
    if e.dn in FullClosure(inp) {
      var j := ClosureFrom(inp, e.dn);
    }
  }

  lemma FirstHasItsType(inp: Input, i: nat)
    requires Coherent(inp) && Admissible(inp, i) && Entries(inp)[i].dn in FullClosure(inp)
    ensures var g := FullClosure(inp)[Entries(inp)[i].dn];
            && g.sid == Entries(inp)[i].sid.value
            && g.security == if FoundBySearch(inp, Entries(inp)[i].dn) then GroupIsSecurity(Entries(inp)[i]) else Some(true)
  {
    var dn := Entries(inp)[i].dn;
    var j := ClosureFrom(inp, dn);
    hide FullClosure;
    if FoundBySearch(inp, dn) {
      var k :| 0 <= k < |inp.transitive| + |inp.pgParents| && Entries(inp)[k].dn == dn;
      assert Admissible(inp, k);
      assert j <= k;
    }
  }

  lemma KeptOrExcluded(inp: Input, dn: Dn)
    requires dn in FullClosure(inp)
    ensures dn in KeptGroups(inp) <==> !Excluded(FullClosure(inp), Seeds(inp), dn)
    ensures dn in KeptGroups(inp) ==> KeptGroups(inp)[dn] == FullClosure(inp)[dn]
  {
  }

  lemma KeptFromClosure(inp: Input, dn: Dn)
    requires dn in KeptGroups(inp)
    ensures dn in FullClosure(inp)
  {
  }

  /** The primary group is kept exactly when no search returns it as a
      distribution group. */
  lemma PrimaryIsKept(inp: Input)
    requires Coherent(inp) && EmitsPrimary(inp) && PrimaryEntry(inp).Some?
    requires PrimaryEntry(inp).value.sid == PrimarySid(inp)
    ensures var p := PrimaryEntry(inp).value;
            p.dn in KeptGroups(inp) <==> (FoundBySearch(inp, p.dn) ==> GroupIsSecurity(p) != Some(false))
  {
    var p := PrimaryEntry(inp).value;
    assert Entries(inp)[|Entries(inp)| - 1] == p;
    ScannedExact(inp, |Entries(inp)| - 1);
    assert p.dn in Seeds(inp);
    SeedIsKept(inp, p.dn);
  }

  lemma SeedIsKept(inp: Input, dn: Dn)
    requires dn in FullClosure(inp) && dn in Seeds(inp)
    ensures dn in KeptGroups(inp) <==> FullClosure(inp)[dn].security != Some(false)
  {
    var c, seeds := FullClosure(inp), Seeds(inp);
    if c[dn].security != Some(false) {
      SeedRoute(Candidates(c), seeds, dn);
      assert Reachable(Candidates(c), seeds, dn);
    }
  }

  // ---------- Counting memberships ----------

  lemma KeptSidsDiffer(inp: Input, a: Dn, b: Dn)
    requires Coherent(inp) && a in KeptGroups(inp) && b in KeptGroups(inp) && a != b
    ensures KeptGroups(inp)[a].sid != KeptGroups(inp)[b].sid
  {
    KeptFromClosure(inp, a);
    KeptFromClosure(inp, b);
    var i := ClosureFrom(inp, a);
    var j := ClosureFrom(inp, b);
    KeptOrExcluded(inp, a);
    KeptOrExcluded(inp, b);
  }

  lemma SidsDiffer(inp: Input, m: nat, n: nat)
    requires Coherent(inp) && m < n < |Memberships(inp)|
    ensures Memberships(inp)[m].groupSid != Memberships(inp)[n].groupSid
  {
    forall a, b | a in KeptGroups(inp) && b in KeptGroups(inp) && a != b
      ensures KeptGroups(inp)[a].sid != KeptGroups(inp)[b].sid
    {
      KeptSidsDiffer(inp, a, b);
    }
    ListDiffers(inp, KeptGroups(inp), Routing(inp), m, n);
  }

  /** No SID has two memberships. */
  lemma AtMostOne(inp: Input, sid: Sid)
    requires Coherent(inp)
    ensures |WithSid(inp, sid)| == if HasMembership(inp, sid) then 1 else 0
  {
    var s := WithSid(inp, sid);
    if HasMembership(inp, sid) {
      var m: nat :| m < |Memberships(inp)| && Memberships(inp)[m].groupSid == sid;
      forall n | n in s ensures n == m {
        if n < m { SidsDiffer(inp, n, m); }
        if m < n { SidsDiffer(inp, m, n); }
      }
      assert s == {m};
    } else {
      assert s == {};
    }
  }

  lemma FirstIsPrimary(inp: Input)
    requires EmitsPrimary(inp)
    ensures |Memberships(inp)| > 0 && Memberships(inp)[0].groupSid == inp.primary.value.sid
  {
  }

  /** A group of the closure has a membership exactly when it is kept or its
      SID is that of the emitted primary group. */
  lemma HasMembershipExact(inp: Input, i: nat)
    requires Coherent(inp) && Admissible(inp, i)
    ensures HasMembership(inp, Entries(inp)[i].sid.value) <==>
              Entries(inp)[i].dn in KeptGroups(inp) || (EmitsPrimary(inp) && PrimarySid(inp) == Entries(inp)[i].sid)
  {
    var e := Entries(inp)[i];
    MembershipSids(inp, e.sid.value);
    ScannedExact(inp, i);
    KeptOrExcluded(inp, e.dn);
    hide HasMembership, EmitsPrimary;
    if dn :| dn in KeptGroups(inp) && KeptGroups(inp)[dn].sid == e.sid.value {
      KeptFromClosure(inp, dn);
      KeptOrExcluded(inp, dn);
      var j := ClosureFrom(inp, dn);
      assert dn == e.dn;
    }
  }

  // ---------- One place ----------

  lemma ReportedIffNoSid(inp: Input, e: RawEntry)
    ensures IsReportedWithoutSid(inp, e) <==> e.dn in NoSid(inp)
  {
    GapsExact(inp, e.dn);
  }

  /** The places of an entry in terms of the scan and of the groups kept. */
  lemma PlacesAre(inp: Input, i: nat)
    requires Coherent(inp) && i < |Entries(inp)|
    ensures var e := Entries(inp)[i];
            && (e.sid.None? ==> Places(inp, e) == 1 + |MembershipsFor(inp, e)|)
            && (IsPrincipal(inp, e) ==> Places(inp, e) == 1 + |MembershipsFor(inp, e)|)
            && (Admissible(inp, i) ==>
                  && e.dn in FullClosure(inp)
                  && Places(inp, e) == (if e.dn in KeptGroups(inp) then 0 else 1) + |MembershipsFor(inp, e)|)
  {
    var e := Entries(inp)[i];
    ScannedExact(inp, i);
    ReportedIffNoSid(inp, e);
    ExcludedIffListed(inp, e.dn);
    assert Excluded(FullClosure(inp), Seeds(inp), e.dn) ==> e.dn in FullClosure(inp);
    if e.dn in FullClosure(inp) {
      KeptOrExcluded(inp, e.dn);
    }
    hide FullClosure, NoSid, KeptGroups, Seeds, Excluded, IsReportedWithoutSid, MembershipsFor, Entries;
  }

  lemma NotPrimary(inp: Input, e: RawEntry)
    requires Coherent(inp) && e in Entries(inp) && PrimaryFits(inp)
    ensures EmitsPrimary(inp) && IsPrimaryEntry(inp, e) ==> PrimarySid(inp) == e.sid
  {
    if EmitsPrimary(inp) && IsPrimaryEntry(inp, e) {
      assert Entries(inp)[|Entries(inp)| - 1] == PrimaryEntry(inp).value;
    }
  }

  /** The emitted primary group adds no further membership to an entry that
      carries its SID. */
  lemma PrimaryAddsNothing(inp: Input, e: RawEntry)
    requires e.sid.Some?
    requires EmitsPrimary(inp) && IsPrimaryEntry(inp, e) ==> PrimarySid(inp) == e.sid
    ensures MembershipsFor(inp, e) == WithSid(inp, e.sid.value)
  {
    hide WithSid, Memberships;
    if EmitsPrimary(inp) && IsPrimaryEntry(inp, e) {
      PrimaryIsFirst(inp, e.sid.value);
    }
  }

  lemma MembershipsForSid(inp: Input, e: RawEntry)
    requires Coherent(inp) && e.sid.Some?
    requires EmitsPrimary(inp) && IsPrimaryEntry(inp, e) ==> PrimarySid(inp) == e.sid
    ensures |MembershipsFor(inp, e)| == if HasMembership(inp, e.sid.value) then 1 else 0
  {
    hide *;
    AtMostOne(inp, e.sid.value);
    PrimaryAddsNothing(inp, e);
  }

  lemma PrimaryIsFirst(inp: Input, sid: Sid)
    requires EmitsPrimary(inp) && PrimarySid(inp) == Some(sid)
    ensures 0 in WithSid(inp, sid) && HasMembership(inp, sid)
  {
    FirstIsPrimary(inp);
    hide Memberships;
  }

  lemma FittingWithoutSid(inp: Input, e: RawEntry)
    requires Coherent(inp) && PrimaryFits(inp) && e in Entries(inp) && e.sid.None?
    ensures MembershipsFor(inp, e) == {}
  {
    NotPrimary(inp, e);
    hide PrimaryFits, Coherent;
  }

  lemma FittingPrimary(inp: Input, i: nat)
    requires Coherent(inp) && PrimaryFits(inp) && Admissible(inp, i)
    requires EmitsPrimary(inp) && PrimarySid(inp) == Entries(inp)[i].sid
    ensures Entries(inp)[i].dn in KeptGroups(inp)
  {
    var e := Entries(inp)[i];
    ScannedExact(inp, i);
    if PrimaryEntry(inp).Some? {
      assert Entries(inp)[|Entries(inp)| - 1] == PrimaryEntry(inp).value;
      PrimaryIsKept(inp);
    } else {
      KeptOrExcluded(inp, e.dn);
    }
  }

  lemma FittingAdmissible(inp: Input, i: nat)
    requires Coherent(inp) && PrimaryFits(inp) && Admissible(inp, i)
    ensures HasMembership(inp, Entries(inp)[i].sid.value) <==> Entries(inp)[i].dn in KeptGroups(inp)
  {
    HasMembershipExact(inp, i);
    if EmitsPrimary(inp) && PrimarySid(inp) == Entries(inp)[i].sid {
      FittingPrimary(inp, i);
    }
  }

  lemma FittingEntry(inp: Input, i: nat)
    requires Coherent(inp) && PrimaryFits(inp) && i < |Entries(inp)|
    ensures Places(inp, Entries(inp)[i]) == 1
  {
    var e := Entries(inp)[i];
    hide Coherent, PrimaryFits, Entries, MembershipsFor, KeptGroups, FullClosure, HasMembership, EmitsPrimary, IsPrimaryEntry, Places;
    PlacesAre(inp, i);
    NotPrimary(inp, e);
    if e.sid.None? {
      FittingWithoutSid(inp, e);
    } else {
      MembershipsForSid(inp, e);
      if IsPrincipal(inp, e) {
        NoOwnMembership(inp);
      } else {
        FittingAdmissible(inp, i);
      }
    }
  }

  /** When the primary group does not fit, an entry that ends in two places. */
  lemma MisfitIsInTwoPlaces(inp: Input) returns (i: nat)
    requires Coherent(inp) && !PrimaryFits(inp)
    ensures i < |Entries(inp)| && Places(inp, Entries(inp)[i]) >= 2
  {
    if PrimaryEntry(inp).Some? {
      i := |Entries(inp)| - 1;
      var p := PrimaryEntry(inp).value;
      assert Entries(inp)[i] == p;
      MisfitPrimary(inp, i);
    } else {
      i :| 0 <= i < |Entries(inp)| && Entries(inp)[i].sid == PrimarySid(inp) && !CountsInToken(inp, Entries(inp)[i]);
      MisfitAnswer(inp, i);
    }
  }

  lemma NonEmptySize(s: set<nat>, m: nat)
    requires m in s
    ensures |s| >= 1
  {
    assert s == {m} + (s - {m});
  }

  lemma TwoElements(s: set<nat>, m: nat)
    requires 0 in s && m in s && m != 0
    ensures |s| >= 2
  {
    assert s == {0} + {m} + (s - {0, m});
  }

  lemma PrimaryCountsIt(inp: Input, e: RawEntry)
    requires EmitsPrimary(inp) && (IsPrimaryEntry(inp, e) || PrimarySid(inp) == e.sid)
    ensures 0 in MembershipsFor(inp, e) && |MembershipsFor(inp, e)| >= 1
  {
    if PrimarySid(inp) == e.sid {
      PrimaryIsFirst(inp, e.sid.value);
    }
    assert 0 in MembershipsFor(inp, e) by {
      hide WithSid;
    }
    NonEmptySize(MembershipsFor(inp, e), 0);
  }

  /** An answer with the primary group's SID that is left out, while the
      primary group itself has no entry. */
  lemma MisfitAnswer(inp: Input, i: nat)
    requires Coherent(inp) && EmitsPrimary(inp) && PrimaryEntry(inp).None?
    requires i < |Entries(inp)| && Entries(inp)[i].sid == PrimarySid(inp) && !CountsInToken(inp, Entries(inp)[i])
    ensures Places(inp, Entries(inp)[i]) >= 2
  {
    var e := Entries(inp)[i];
    assert Admissible(inp, i);
    PlacesAre(inp, i);
    PrimaryCountsIt(inp, e);
    ScannedExact(inp, i);
    KeptOrExcluded(inp, e.dn);
    assert FoundBySearch(inp, e.dn);
    hide Places, MembershipsFor, FullClosure, KeptGroups, Seeds;
  }

  lemma OwnMembershipIsAnother(inp: Input, i: nat)
    requires Coherent(inp) && EmitsPrimary(inp) && Admissible(inp, i) && IsPrimaryEntry(inp, Entries(inp)[i])
    requires Entries(inp)[i].sid != PrimarySid(inp) && Entries(inp)[i].dn in KeptGroups(inp)
    ensures |MembershipsFor(inp, Entries(inp)[i])| >= 2
  {
    var e := Entries(inp)[i];
    HasMembershipExact(inp, i);
    FirstIsPrimary(inp);
    PrimaryCountsIt(inp, e);
    hide Memberships, KeptGroups;
    var m: nat :| m < |Memberships(inp)| && Memberships(inp)[m].groupSid == e.sid.value;
    TwoElements(MembershipsFor(inp, e), m);
  }

  /** The primary group's own entry, when it shows no SID or another one, or is
      returned as a distribution group. */
  lemma MisfitPrimary(inp: Input, i: nat)
    requires Coherent(inp) && EmitsPrimary(inp) && i < |Entries(inp)|
    requires PrimaryEntry(inp) == Some(Entries(inp)[i])
    requires var p := Entries(inp)[i];
             p.sid != PrimarySid(inp) || (FoundBySearch(inp, p.dn) && GroupIsSecurity(p) == Some(false))
    ensures Places(inp, Entries(inp)[i]) >= 2
  {
    var p := Entries(inp)[i];
    PlacesAre(inp, i);
    PrimaryCountsIt(inp, p);
    if Admissible(inp, i) {
      if p.sid != PrimarySid(inp) {
        if p.dn in KeptGroups(inp) {
          OwnMembershipIsAnother(inp, i);
        }
      } else {
        PrimaryIsKept(inp);
      }
    }
    hide Places, MembershipsFor, KeptGroups, FullClosure, Coherent, Entries;
  }

  /** Conservation. Every entry ends in exactly one place: it is the principal
      itself, it is reported as a group without SID, it is in the excluded
      list, or exactly one membership counts it, if and only if the primary
      group fits. */
  lemma EveryEntryIsAccountedFor(inp: Input)
    requires Coherent(inp)
    ensures (forall i :: 0 <= i < |Entries(inp)| ==> Places(inp, Entries(inp)[i]) == 1) <==> PrimaryFits(inp)
  {
    if PrimaryFits(inp) {
      forall i | 0 <= i < |Entries(inp)| ensures Places(inp, Entries(inp)[i]) == 1 {
        FittingEntry(inp, i);
      }
    } else {
      var i := MisfitIsInTwoPlaces(inp);
    }
  }

  // ---------- Primary groups that do not fit ----------

  /** A primary group whose entry shows no SID is reported as missing from the
      token and counted in it at the same time. */
  lemma UnreadablePrimary(inp: Input, i: nat)
    requires Coherent(inp) && EmitsPrimary(inp) && i < |Entries(inp)|
    requires PrimaryEntry(inp) == Some(Entries(inp)[i]) && Entries(inp)[i].sid.None?
    ensures IsReportedWithoutSid(inp, Entries(inp)[i]) && HasMembership(inp, inp.primary.value.sid)
    ensures Places(inp, Entries(inp)[i]) == 2
  {
    var e := Entries(inp)[i];
    PlacesAre(inp, i);
    ScannedExact(inp, i);
    ReportedIffNoSid(inp, e);
    PrimaryIsFirst(inp, inp.primary.value.sid);
    assert MembershipsFor(inp, e) == {0};
    hide Places, MembershipsFor, IsReportedWithoutSid, NoSid, HasMembership, Entries;
  }

  function Unreadable(): Input {
    Input("U", RawEntry(0, Some("U"), None, [], None, 0, []),
          Some(Primary("P", Some(RawEntry(1, None, None, [], None, 0, [])))), [], [])
  }

  lemma UnreadableEntries()
    ensures var inp := Unreadable();
            && Coherent(inp) && EmitsPrimary(inp) && inp.primary.Some? && inp.primary.value.sid == "P"
            && PrimaryEntry(inp).Some? && PrimaryEntry(inp).value.sid.None? && Entries(inp) == [PrimaryEntry(inp).value]
  {
    var inp := Unreadable();
    assert Entries(inp) == [PrimaryEntry(inp).value];
    OneIsCoherent(inp);
    assert "U" != "P";
    hide Entries, Coherent;
  }

  lemma OneIsCoherent(inp: Input)
    requires |Entries(inp)| == 1
    ensures Coherent(inp)
  {
    hide Entries;
  }

  lemma UnreadablePrimaryIsInTwoPlaces()
    ensures var inp := Unreadable();
            && Coherent(inp) && Entries(inp) == [PrimaryEntry(inp).value]
            && IsReportedWithoutSid(inp, PrimaryEntry(inp).value) && HasMembership(inp, "P")
            && Places(inp, PrimaryEntry(inp).value) == 2
  {
    hide *;
    UnreadableEntries();
    UnreadablePrimary(Unreadable(), 0);
  }

  /** A primary group that a search also returns as a distribution group is
      listed as excluded and counted in the token at the same time. */
  lemma DistributionPrimary(inp: Input, i: nat)
    requires Coherent(inp) && EmitsPrimary(inp) && i < |Entries(inp)|
    requires PrimaryEntry(inp) == Some(Entries(inp)[i]) && Entries(inp)[i].sid == PrimarySid(inp)
    requires FoundBySearch(inp, Entries(inp)[i].dn) && GroupIsSecurity(Entries(inp)[i]) == Some(false)
    ensures IsExcluded(inp, Entries(inp)[i]) && HasMembership(inp, inp.primary.value.sid)
    ensures Places(inp, Entries(inp)[i]) == 2
  {
    var e := Entries(inp)[i];
    PlacesAre(inp, i);
    ScannedExact(inp, i);
    PrimaryIsKept(inp);
    KeptOrExcluded(inp, e.dn);
    ExcludedIffListed(inp, e.dn);
    PrimaryIsFirst(inp, inp.primary.value.sid);
    MembershipsForSid(inp, e);
    hide Places, MembershipsFor, KeptGroups, FullClosure, Coherent, Entries, HasMembership, Excluded, Seeds, FoundBySearch;
  }

  /** The account is a member of its primary group as well, and `groupType`
      reads as a distribution group. */
  function Twice(): Input {
    var e := RawEntry(1, Some("P"), None, [], Some(2), 0, []);
    Input("U", RawEntry(0, Some("U"), None, [1], None, 0, []), Some(Primary("P", Some(e))), [e], [])
  }

  lemma TwiceEntries()
    ensures var inp := Twice();
            && Entries(inp) == [PrimaryEntry(inp).value, PrimaryEntry(inp).value]
            && Coherent(inp) && EmitsPrimary(inp) && inp.primary.value.sid == "P"
            && PrimaryEntry(inp).Some? && PrimaryEntry(inp).value.sid == PrimarySid(inp)
            && FoundBySearch(inp, 1) && PrimaryEntry(inp).value.dn == 1
            && GroupIsSecurity(PrimaryEntry(inp).value) == Some(false)
  {
    var inp := Twice();
    var e := PrimaryEntry(inp).value;
    assert Entries(inp) == [e, e];
    assert Entries(inp)[0].dn == 1;
    assert "U" != "P";
    hide Entries;
  }

  lemma DistributionPrimaryIsInTwoPlaces()
    ensures var inp := Twice();
            && Coherent(inp) && PrimaryEntry(inp).Some? && PrimaryEntry(inp).value.sid == Some("P")
            && IsExcluded(inp, PrimaryEntry(inp).value) && HasMembership(inp, "P")
            && Places(inp, PrimaryEntry(inp).value) == 2
  {
    hide *;
    TwiceEntries();
    TwiceSid();
    DistributionPrimary(Twice(), 1);
  }

  lemma TwiceSid()
    ensures PrimarySid(Twice()) == Some("P")
  {
  }

  /** A primary group without an entry, which the resolver itself never passes,
      nested below a distribution group the account is in: it is listed as
      excluded and counted in the token. */
  function Nested(): Input {
    Input("U", RawEntry(0, Some("U"), None, [1], None, 0, []), Some(Primary("P", None)),
          [RawEntry(1, Some("D"), None, [2], Some(2), 0, []), RawEntry(2, Some("P"), None, [], Some(-1), 0, [])], [])
  }

  lemma NestedEntries()
    ensures var inp := Nested();
            && Coherent(inp) && EmitsPrimary(inp) && PrimaryEntry(inp).None? && PrimarySid(inp) == Some("P")
            && inp.primary.Some? && inp.primary.value.sid == "P"
            && Entries(inp) == inp.transitive && |inp.transitive| == 2 && inp.transitive[1].sid == Some("P")
  {
    var inp := Nested();
    assert Entries(inp) == inp.transitive;
    hide Entries;
  }

  lemma NestedPrimaryIsInTwoPlaces()
    ensures var inp := Nested();
            && Coherent(inp) && |Entries(inp)| == 2 && Entries(inp)[1].sid == Some("P")
            && IsExcluded(inp, Entries(inp)[1]) && HasMembership(inp, "P") && Places(inp, Entries(inp)[1]) == 2
  {
    hide *;
    NestedEntries();
    NestedRoutes();
    LeftOutAnswer(Nested(), 1);
  }

  /** An answer with the primary group's SID that is left out while the primary
      group has no entry: excluded, and counted by the primary's membership. */
  lemma LeftOutAnswer(inp: Input, i: nat)
    requires Coherent(inp) && EmitsPrimary(inp) && PrimaryEntry(inp).None?
    requires i < |Entries(inp)| && Entries(inp)[i].sid == PrimarySid(inp) && !CountsInToken(inp, Entries(inp)[i])
    ensures IsExcluded(inp, Entries(inp)[i]) && HasMembership(inp, inp.primary.value.sid)
    ensures Places(inp, Entries(inp)[i]) == 2
  {
    var e := Entries(inp)[i];
    assert Admissible(inp, i);
    PlacesAre(inp, i);
    PrimaryIsFirst(inp, e.sid.value);
    MembershipsForSid(inp, e);
    ScannedExact(inp, i);
    KeptOrExcluded(inp, e.dn);
    ExcludedIffListed(inp, e.dn);
    assert FoundBySearch(inp, e.dn);
    hide Places, MembershipsFor, FullClosure, KeptGroups, Seeds, HasMembership, Coherent;
  }

  lemma ReachedThroughSeed(c: Closure, seeds: set<Dn>, dn: Dn)
    requires Reachable(c, seeds, dn)
    ensures exists s :: s in seeds && s in c
  {
    var chain :| RouteTo(c, seeds, chain, dn);
    RouteStep(c, seeds, chain, 0);
  }

  lemma NestedRoutes()
    ensures |Entries(Nested())| == 2 && !CountsInToken(Nested(), Entries(Nested())[1])
  {
    var inp := Nested();
    var c, seeds := FullClosure(inp), Seeds(inp);
    NestedEntries();
    NestedClosure();
    hide FullClosure, Seeds, Coherent, Entries;
    SeedRoute(c, seeds, 1);
    ExtendRoute(c, seeds, [1], 1, 2);
    assert Reachable(c, seeds, 2);
    assert 1 !in Candidates(c);
    if Reachable(Candidates(c), seeds, 2) {
      ReachedThroughSeed(Candidates(c), seeds, 2);
    }
  }

  /** The distribution group is the only first-hop group, and a member of the
      primary group. */
  lemma NestedClosure()
    ensures var inp := Nested();
            && 1 in FullClosure(inp) && FullClosure(inp)[1].security == Some(false) && Edge(FullClosure(inp), 1, 2)
            && Seeds(inp) == {1}
  {
    var inp := Nested();
    NestedEntries();
    ScannedExact(inp, 0);
    ScannedExact(inp, 1);
    var i := ClosureFrom(inp, 1);
    hide FullClosure, Coherent;
    assert 2 in ToSet(SortedMemberOf(Entries(inp)[0]));
  }
}
