/** The cross-check of the reconstructed token against the list the domain
    controller computes itself, and the size limit of a logon token. */
module TokenGroups {
  import opened Wrappers
  import opened Text
  import opened Directory
  import opened Trusted
  import opened SortedSets
  import opened Routes
  import opened Assembly
  import opened AssemblyFacts
  import opened AssemblyConservation
  import opened TokenExactness

  const MAX_TOKEN_GROUP_SIDS := 1015

  datatype TokenGap = NotInTokenGroups(sids: set<string>) | NotResolved(sids: set<string>)

  function HistoryKeys(ms: seq<GroupMembership>): set<string> {
    set i, j | 0 <= i < |ms| && 0 <= j < |ms[i].history| :: Upper(ms[i].history[j])
  }

  /** The SIDs of the groups and of their histories, without case. */
  function Counted(ms: seq<GroupMembership>): set<string> {
    KeySet(SidsOf(ms)) + HistoryKeys(ms)
  }

  function TokenGroupsGaps(ms: seq<GroupMembership>, tokenGroups: seq<Sid>): seq<TokenGap> {
    var token := KeySet(tokenGroups);
    var extra := KeySet(SidsOf(ms)) - token;
    var missing := token - Counted(ms);
    (if extra != {} then [NotInTokenGroups(extra)] else []) + (if missing != {} then [NotResolved(missing)] else [])
  }

  function TokenSizeGap(ms: seq<GroupMembership>): Option<nat> {
    if |Counted(ms)| > MAX_TOKEN_GROUP_SIDS then Some(|Counted(ms)|) else None
  }

  /** The check is silent exactly when every counted group is in the domain
      controller's list and every SID of that list is counted. */
  lemma SilentExactly(ms: seq<GroupMembership>, tokenGroups: seq<Sid>)
    ensures TokenGroupsGaps(ms, tokenGroups) == []
      <==> KeySet(SidsOf(ms)) <= KeySet(tokenGroups) <= Counted(ms)
  {
    hide KeySet, Counted, SidsOf;
    NoneLeft(KeySet(SidsOf(ms)), KeySet(tokenGroups));
    NoneLeft(KeySet(tokenGroups), Counted(ms));
  }

  lemma NoneLeft(a: set<string>, b: set<string>)
    ensures a - b == {} <==> a <= b
  {
    if a - b == {} {
      forall x | x in a ensures x in b {
        assert x !in a - b;
      }
    }
  }

  lemma KeyIn(sids: seq<Sid>, s: Sid)
    requires s in sids
    ensures Upper(s) in KeySet(sids)
  {
    hide Upper;
  }

  // ---------- Historical SIDs ----------

  /** Some membership carries the historical SID. */
  ghost predicate CarriesHistory(inp: Input, s: Sid) {
    exists m :: 0 <= m < |Memberships(inp)| && s in Memberships(inp)[m].history
  }

  /** A group that belongs into the token has the SID in its history. */
  ghost predicate InTrueHistory(inp: Input, d: Truth, s: Sid) {
    exists chain :: TrueChain(inp, d, chain) && Brings(inp, d, chain, s)
  }

  ghost predicate Brings(inp: Input, d: Truth, chain: seq<Dn>, s: Sid) {
    |chain| > 0 && var dn := chain[|chain| - 1];
    dn in d && d[dn].sid != inp.sid && s in d[dn].history
  }

  /** Every entry shows its whole history. */
  ghost predicate HistoriesRead(inp: Input, d: Truth) {
    forall i :: 0 <= i < |Entries(inp)| && Entries(inp)[i].dn in d ==>
      ToSet(Entries(inp)[i].history) == d[Entries(inp)[i].dn].history
  }

  /** No two groups share a SID. */
  predicate SidsUnique(d: Truth) {
    forall a, b :: a in d && b in d && d[a].sid == d[b].sid ==> a == b
  }

  lemma ClosureHistory(inp: Input, d: Truth, dn: Dn)
    requires Truthful(inp, d) && dn in FullClosure(inp)
    ensures dn in d
    ensures ToSet(FullClosure(inp)[dn].history) <= d[dn].history
    ensures HistoriesRead(inp, d) ==> ToSet(FullClosure(inp)[dn].history) == d[dn].history
  {
    var i := ClosureFrom(inp, dn);
    hide FullClosure;
    assert Reports(Entries(inp)[i], d[dn]);
  }

  lemma MembershipHistory(inp: Input, d: Truth, m: nat, s: Sid)
    requires Truthful(inp, d) && Assemble(inp).gaps == [] && AllPathsComplete(inp)
    requires m < |Memberships(inp)| && s in Memberships(inp)[m].history
    ensures InTrueHistory(inp, d, s)
  {
    MembershipAt(inp, m);
    if m < Offset(inp) {
      PrimaryHistory(inp, d, s);
    } else {
      var dn := Order(inp)[m - Offset(inp)];
      CompleteIsReachable(inp, m);
      NothingUnknown(inp);
      ClosureHistory(inp, d, dn);
      ClosureIsTrue(inp, d, dn);
      ClosureSid(inp, dn);
      var chain :| RouteTo(KeptGroups(inp), Seeds(inp), chain, dn);
      RouteIsTrueChain(inp, d, chain);
      KeptIsNoDistributionGroup(inp, dn);
      assert s in ToSet(FullClosure(inp)[dn].history);
      assert Brings(inp, d, chain, s);
    }
  }

  lemma NothingUnknown(inp: Input)
    requires Assemble(inp).gaps == []
    ensures UnknownTypes(FullClosure(inp), Seeds(inp)) == {}
  {
    forall dn ensures dn !in UnknownTypes(FullClosure(inp), Seeds(inp)) {
      GapsExact(inp, dn);
    }
  }

  lemma PrimaryHistory(inp: Input, d: Truth, s: Sid)
    requires Truthful(inp, d) && EmitsPrimary(inp)
    requires s in PrimaryMembership(inp, KeptGroups(inp), Routing(inp)).history
    ensures InTrueHistory(inp, d, s)
  {
    var p := PrimaryEntry(inp).value;
    var chain := [p.dn];
    hide KeptGroups, Routing;
    assert Entries(inp)[|Entries(inp)| - 1] == p;
    assert Reports(p, d[p.dn]) && s in ToSet(p.history);
    assert TrueChain(inp, d, chain);
    assert Brings(inp, d, chain, s);
  }

  lemma HistoryIsCarried(inp: Input, d: Truth, s: Sid)
    requires Truthful(inp, d) && Assemble(inp).gaps == [] && HistoriesRead(inp, d) && SidsUnique(d)
    requires InTrueHistory(inp, d, s)
    ensures CarriesHistory(inp, s)
  {
    var chain :| TrueChain(inp, d, chain) && Brings(inp, d, chain, s);
    var dn := chain[|chain| - 1];
    NoGaps(inp);
    ChainArrives(inp, d, chain);
    NotThePrincipal(inp, d, dn);
    KeptHistory(inp, d, dn, s);
  }

  lemma NotThePrincipal(inp: Input, d: Truth, dn: Dn)
    requires Truthful(inp, d) && dn in d && d[dn].sid != inp.sid && Arrived(inp, dn)
    ensures dn in KeptGroups(inp)
  {
    hide KeptGroups, Reachable;
  }

  lemma KeptHistory(inp: Input, d: Truth, dn: Dn, s: Sid)
    requires Truthful(inp, d) && HistoriesRead(inp, d) && SidsUnique(d)
    requires dn in KeptGroups(inp) && dn in d && s in d[dn].history
    ensures CarriesHistory(inp, s)
  {
    KeptIsNoDistributionGroup(inp, dn);
    ClosureHistory(inp, d, dn);
    ClosureIsTrue(inp, d, dn);
    assert s in ToSet(KeptGroups(inp)[dn].history);
    if dn in Rest(inp, KeptGroups(inp)) {
      var m := RestIsListed(inp, KeptGroups(inp), Routing(inp), dn);
      assert s in Memberships(inp)[m].history;
    } else {
      ClosureSid(inp, dn);
      PrimaryCarries(inp, d, dn, s);
    }
  }

  lemma PrimaryCarries(inp: Input, d: Truth, dn: Dn, s: Sid)
    requires Truthful(inp, d) && HistoriesRead(inp, d) && SidsUnique(d)
    requires EmitsPrimary(inp) && dn in d && d[dn].sid == inp.primary.value.sid && s in d[dn].history
    ensures CarriesHistory(inp, s)
  {
    var p := PrimaryEntry(inp).value;
    assert Entries(inp)[|Entries(inp)| - 1] == p;
    assert p.dn == dn && s in ToSet(p.history);
    assert Memberships(inp)[0] == PrimaryMembership(inp, KeptGroups(inp), Routing(inp));
  }

  /** From true and complete answers the memberships carry exactly the
      histories of the groups that belong into the token. */
  lemma HistoriesExact(inp: Input, d: Truth, s: Sid)
    requires Truthful(inp, d) && Assemble(inp).gaps == [] && AllPathsComplete(inp)
    requires HistoriesRead(inp, d) && SidsUnique(d)
    ensures CarriesHistory(inp, s) <==> InTrueHistory(inp, d, s)
  {
    hide Truthful, AllPathsComplete, HistoriesRead, SidsUnique, InTrueHistory, Memberships, Assemble;
    if CarriesHistory(inp, s) {
      var m: nat :| m < |Memberships(inp)| && s in Memberships(inp)[m].history;
      MembershipHistory(inp, d, m, s);
    }
    if InTrueHistory(inp, d, s) {
      HistoryIsCarried(inp, d, s);
    }
  }

  // ---------- The check against a true list ----------

  /** The list of a domain controller that tells the truth: the SIDs that
      belong into the token and their histories. */
  ghost predicate TrueTokenGroups(inp: Input, d: Truth, tokenGroups: seq<Sid>) {
    forall s :: s in tokenGroups <==> (InTrueToken(inp, d, s) && s != inp.sid) || InTrueHistory(inp, d, s)
  }

  /** The answers from which the token was assembled are true and complete. */
  ghost predicate Complete(inp: Input, d: Truth) {
    && Truthful(inp, d) && Assemble(inp).gaps == [] && AllPathsComplete(inp)
    && HistoriesRead(inp, d) && SidsUnique(d)
  }

  lemma KeysWithin(sids: seq<Sid>, keys: set<string>)
    requires forall s :: s in sids ==> Upper(s) in keys
    ensures KeySet(sids) <= keys
  {
    hide Upper;
  }

  lemma MembershipSid(inp: Input, s: Sid)
    ensures s in SidsOf(Memberships(inp)) <==> HasMembership(inp, s)
  {
    var ms := Memberships(inp);
    hide Memberships;
    if s in SidsOf(ms) {
      var i :| 0 <= i < |SidsOf(ms)| && SidsOf(ms)[i] == s;
      assert ms[i].groupSid == s;
    }
    if HasMembership(inp, s) {
      var i :| 0 <= i < |ms| && ms[i].groupSid == s;
      assert SidsOf(ms)[i] == s;
    }
  }

  lemma HistoryKey(inp: Input, s: Sid)
    requires CarriesHistory(inp, s)
    ensures Upper(s) in HistoryKeys(Memberships(inp))
  {
    var ms := Memberships(inp);
    hide Memberships, Upper;
    var m :| 0 <= m < |ms| && s in ms[m].history;
    var j :| 0 <= j < |ms[m].history| && ms[m].history[j] == s;
  }

  lemma HistoryKeysWithin(inp: Input, keys: set<string>)
    requires forall s :: CarriesHistory(inp, s) ==> Upper(s) in keys
    ensures HistoryKeys(Memberships(inp)) <= keys
  {
    var ms := Memberships(inp);
    hide Memberships, Upper;
    forall i, j | 0 <= i < |ms| && 0 <= j < |ms[i].history| ensures Upper(ms[i].history[j]) in keys {
      assert CarriesHistory(inp, ms[i].history[j]);
    }
  }

  /** The list is what the assembled token counts, SID by SID. */
  lemma ListIsCounted(inp: Input, d: Truth, tokenGroups: seq<Sid>, s: Sid)
    requires Complete(inp, d) && TrueTokenGroups(inp, d, tokenGroups)
    ensures s in tokenGroups <==> HasMembership(inp, s) || CarriesHistory(inp, s)
  {
    TokenIsExact(inp, d, s);
    HistoriesExact(inp, d, s);
    hide Truthful, AllPathsComplete, HistoriesRead, SidsUnique, InTrueHistory, InTrueToken, Assemble, HasMembership, CarriesHistory;
  }

  /** The keys of a true list are exactly the keys counted. */
  lemma KeysAgree(inp: Input, d: Truth, tokenGroups: seq<Sid>)
    requires Complete(inp, d) && TrueTokenGroups(inp, d, tokenGroups)
    ensures KeySet(tokenGroups) == Counted(Memberships(inp))
    ensures KeySet(SidsOf(Memberships(inp))) <= KeySet(tokenGroups)
  {
    var ms := Memberships(inp);
    var sids := SidsOf(ms);
    CountedIs(ms);
    hide *;
    forall s ensures s in tokenGroups <==> HasMembership(inp, s) || CarriesHistory(inp, s) {
      ListIsCounted(inp, d, tokenGroups, s);
    }
    forall s | s in tokenGroups ensures Upper(s) in Counted(ms) {
      if HasMembership(inp, s) {
        MembershipSid(inp, s);
        KeyIn(sids, s);
      } else {
        HistoryKey(inp, s);
      }
    }
    KeysWithin(tokenGroups, Counted(ms));
    forall s | s in sids ensures Upper(s) in KeySet(tokenGroups) {
      MembershipSid(inp, s);
      KeyIn(tokenGroups, s);
    }
    KeysWithin(sids, KeySet(tokenGroups));
    forall s | CarriesHistory(inp, s) ensures Upper(s) in KeySet(tokenGroups) {
      KeyIn(tokenGroups, s);
    }
    HistoryKeysWithin(inp, KeySet(tokenGroups));
  }

  lemma CountedIs(ms: seq<GroupMembership>)
    ensures Counted(ms) == KeySet(SidsOf(ms)) + HistoryKeys(ms)
  {
    hide KeySet, SidsOf, HistoryKeys;
  }

  /** A token assembled without gaps from true and complete answers passes the
      check against a true list, so a gap of the check always means a wrong or
      incomplete answer. */
  lemma TrueTokenPasses(inp: Input, d: Truth, tokenGroups: seq<Sid>)
    requires Complete(inp, d) && TrueTokenGroups(inp, d, tokenGroups)
    ensures TokenGroupsGaps(Memberships(inp), tokenGroups) == []
  {
    hide *;
    KeysAgree(inp, d, tokenGroups);
    SilentExactly(Memberships(inp), tokenGroups);
  }

  /** The size gap is stated exactly when the true token is too large for a
      logon, with its true size. */
  lemma SizeGapExact(inp: Input, d: Truth, tokenGroups: seq<Sid>)
    requires Complete(inp, d) && TrueTokenGroups(inp, d, tokenGroups)
    ensures TokenSizeGap(Memberships(inp)) ==
      if |KeySet(tokenGroups)| > MAX_TOKEN_GROUP_SIDS then Some(|KeySet(tokenGroups)|) else None
  {
    KeysAgree(inp, d, tokenGroups);
    hide KeySet, Counted, Memberships, Complete, TrueTokenGroups;
  }
}
