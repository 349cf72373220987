/** Verdicts about a principal need evidence, and nothing is left unsaid. */
module PrincipalFacts {
  import opened Wrappers
  import opened Text
  import opened Directory
  import opened Trusts
  import opened Principal
  import TrustFacts
  import Trusted
  import TrustedAccount

  // ---------- Which branch built the resolution ----------

  /** The connection to the trusted domain is asked for the account. */
  predicate AsksTrusted(b: Backends) {
    && b.trusted.Some? && b.relation.TrustedDomain?
    && if b.ldap == Ok(None) && (b.lsa.None? || b.lsa.value.Err?)
       then Serves(b.trusted.value.served(0), b.relation.domainSid)
       else
         && (b.ldap == Ok(None)
             || (b.ldap.Ok? && b.ldap.value.Some? && b.ldap.value.value.kind == ForeignSecurityPrincipal))
         && Serves(b.trusted.value.served(0), b.relation.domainSid)
         && Serves(b.trusted.value.served(1), b.relation.domainSid)
  }

  function TrustedAnswer(b: Backends): Result<Resolution, string>
    requires AsksTrusted(b)
  {
    var r := b.relation;
    b.trusted.value.account(TrustContext(r.partner, r.domainSid, r.attributes, r.forest))
  }

  /** The resolution is the trusted domain's own. */
  predicate FromTrusted(b: Backends) {
    AsksTrusted(b) && TrustedAnswer(b).Ok?
  }

  /** Then the trusted domain's answer is returned as it is. */
  lemma TrustedAnswerIsReturned(b: Backends, sid: Sid)
    requires FromTrusted(b)
    ensures ResolveBySid(b, sid) == TrustedAnswer(b).value
  {
    hide Serves, Hit, FspHit, NamedByLsa, UnresolvableResolution, FailedLookup, OrphanedResolution;
  }

  predicate NamedHere(b: Backends) {
    b.lsa.Some? && b.lsa.value.Ok?
  }

  /** What the directory knows as an object of its own. */
  predicate IsHit(b: Backends) {
    b.ldap.Ok? && b.ldap.value.Some?
  }

  /** The connection claimed to serve the trusted domain and then did not. */
  predicate ConnectionBroke(b: Backends) {
    && b.trusted.Some? && b.relation.TrustedDomain?
    && Serves(b.trusted.value.served(0), b.relation.domainSid)
    && (Serves(b.trusted.value.served(1), b.relation.domainSid) ==> AsksTrusted(b) && TrustedAnswer(b).Err?)
  }

  /** The verdict of the pipeline, for every behaviour of the backends. An
      account is called orphaned exactly when the directory holds no object,
      no local authority names it, and its domain is the fully covered
      configured one. */
  lemma OrphanedExact(b: Backends, sid: Sid)
    requires !FromTrusted(b)
    ensures ResolveBySid(b, sid).scope == OrphanedSid
      <==> b.ldap == Ok(None) && !NamedHere(b) && b.relation.ConfiguredDomainWholeBase?
  {
    hide Serves, ResolveGroups;
  }

  /** The other verdicts: a failed lookup only for a failed search, inside only
      for an object found, outside only for a name without an object. */
  lemma ScopeExact(b: Backends, sid: Sid)
    requires !FromTrusted(b)
    ensures var s := ResolveBySid(b, sid).scope;
      && (s.LookupFailed? <==> b.ldap.Err?)
      && (s.InsideConfiguredLdapBase? <==> IsHit(b) && !(FspObject(b) && ConnectionBroke(b)))
      && (s.OutsideConfiguredLdapBase? <==> b.ldap == Ok(None) && NamedHere(b) && !ConnectionBroke(b))
      && !s.ResolvedInTrustedDomain?
  {
    hide ResolveGroups;
  }

  predicate FspObject(b: Backends) {
    IsHit(b) && b.ldap.value.value.kind == ForeignSecurityPrincipal
  }

  // ---------- The evidence in the directory ----------

  /** The verdict "orphaned" from the directory's own answers, and the marker
      the reader sees: it needs the same evidence unless the local authority or
      the directory's object itself calls the account deleted. */
  lemma OrphanedNeedsEvidence(b: Backends, c: Context, sid: Sid)
    requires b.relation == ClassifySid(c, sid) && !FromTrusted(b)
    ensures ResolveBySid(b, sid).scope == OrphanedSid <==>
      && b.ldap == Ok(None) && !NamedHere(b)
      && AccountDomainOf(sid).Some? && TrustFacts.Gone(c, AccountDomainOf(sid).value)
    ensures IdentityOrphaned in Diagnostics(ResolveBySid(b, sid)) <==>
      || (&& b.ldap == Ok(None) && !NamedHere(b)
          && AccountDomainOf(sid).Some? && TrustFacts.Gone(c, AccountDomainOf(sid).value))
      || CalledDeleted(b) || FoundOrphaned(b)
  {
    OrphanedExact(b, sid);
    OrphanedMarkerExact(b, sid);
    TrustFacts.WholeBaseExact(c, sid);
    ProvenGoneIs(b);
    hide *;
  }

  lemma ProvenGoneIs(b: Backends)
    ensures ProvenGone(b) <==> b.ldap == Ok(None) && !NamedHere(b) && b.relation.ConfiguredDomainWholeBase?
  {
  }

  lemma DomainMatches(c: Context, sid: Sid)
    requires ClassifySid(c, sid).TrustedDomain?
    ensures AccountDomainOf(sid) == Some(ClassifySid(c, sid).domainSid)
  {
    var domain := AccountDomainOf(sid).value;
    hide AgainstTrusts, AccountDomainOf, HeldTrusts, IsDomainSid, EqIgnoreCase, ViewOf, Covered;
    if c.trusts.Ok? {
      var ts := HeldTrusts(c.trusts.value);
      if AgainstTrusts(domain, ts, Forest).TrustedDomain? {
        TrustFacts.TrustedDomainIsBacked(domain, ts, Forest);
      }
      if AgainstTrusts(domain, ts, ViewOf(c, ts)).TrustedDomain? {
        TrustFacts.TrustedDomainIsBacked(domain, ts, ViewOf(c, ts));
      }
    }
  }

  /** A trusted domain is only asked about its own accounts: the account's SID
      passes the trust's filter, and the asked connection serves its domain. */
  lemma AskedAboutOwnAccounts(b: Backends, c: Context, sid: Sid)
    requires b.relation == ClassifySid(c, sid) && AsksTrusted(b)
    ensures AccountDomainOf(sid) == Some(b.relation.domainSid)
    ensures Trusted.Passes(Trusted.RuleOf(b.relation.domainSid, b.relation.attributes, b.relation.forest), sid)
    ensures Serves(b.trusted.value.served(0), AccountDomainOf(sid).value)
  {
    DomainMatches(c, sid);
    hide ClassifySid, AccountDomainOf;
  }

  // ---------- Nothing is left unsaid ----------

  /** The markers that say the groups of the principal are not resolved. */
  predicate SaysUnresolved(d: Diagnostic) {
    || d.IdentityLookupFailed? || d.GroupResolutionFailed? || d.IdentityNotResolvable?
    || d.IdentityNotInConfiguredLdapBase? || d.IdentityOrphaned?
  }

  lemma InIncomplete(gaps: seq<string>, x: Diagnostic)
    ensures x in Incomplete(gaps) <==> x.GroupResolutionIncomplete? && x.gap in gaps
  {
    if x.GroupResolutionIncomplete? && x.gap in gaps {
      var i :| 0 <= i < |gaps| && gaps[i] == x.gap;
      assert Incomplete(gaps)[i] == x;
    }
  }

  lemma InWhen(b: bool, d: Diagnostic, x: Diagnostic)
    ensures x in When(b, d) <==> b && x == d
  {
  }

  lemma StateExact(r: Resolution, x: Diagnostic)
    ensures x in StateDiagnostics(r, EngineFlags(r)) <==> StateWarrants(r, x)
  {
    var f := EngineFlags(r);
    InWhen(r.identity.disabled, IdentityDisabled, x);
    InWhen(f.notInBase, IdentityNotInConfiguredLdapBase, x);
    InWhen(f.samFallback, DomainGroupRecursionIncomplete, x);
    hide When;
  }

  lemma GroupExact(r: Resolution, x: Diagnostic)
    ensures x in GroupDiagnostics(r, EngineFlags(r)) <==> GroupsWarrant(r, x)
  {
    var f := EngineFlags(r);
    InIncomplete(f.gaps, x);
    InWhen(f.excluded != [], NonSecurityGroupsExcluded(f.excluded), x);
    InWhen(r.identity.kind == Orphaned, IdentityOrphaned, x);
    InWhen(f.viaFsp, IdentityResolvedViaForeignSecurityPrincipal, x);
    InWhen(f.viaGlobalCatalog, GroupResolutionViaGlobalCatalog, x);
    hide When, Incomplete;
  }

  lemma HistoryExact(r: Resolution, x: Diagnostic)
    ensures x in HistoryDiagnostics(r) <==> HistoryWarrants(r, x)
  {
    hide TallyOf;
  }

  lemma TrustExact(r: Resolution, x: Diagnostic)
    ensures x in TrustDiagnostics(EngineFlags(r)) <==> TrustWarrants(r, x)
  {
    var f := EngineFlags(r);
    InWhen(f.viaFsp || f.notInBase, TrustBoundaryEffectsNotModeled, x);
    if f.trusted.Some? {
      InWhen(f.trusted.value.selective, TrustBoundaryEffectsNotModeled, x);
    }
    hide When;
  }

  lemma InParts(r: Resolution, x: Diagnostic)
    ensures x in Diagnostics(r) <==>
      || x in StateDiagnostics(r, EngineFlags(r)) || x in GroupDiagnostics(r, EngineFlags(r))
      || x in HistoryDiagnostics(r) || x in TrustDiagnostics(EngineFlags(r))
  {
    hide StateDiagnostics, GroupDiagnostics, HistoryDiagnostics, TrustDiagnostics, EngineFlags;
  }

  lemma BelongsIs(r: Resolution, x: Diagnostic)
    ensures Belongs(r, x) <==>
      StateWarrants(r, x) || GroupsWarrant(r, x) || HistoryWarrants(r, x) || TrustWarrants(r, x)
  {
    hide StateWarrants, GroupsWarrant, HistoryWarrants, TrustWarrants;
  }

  /** The membership view shows a diagnostic exactly when it belongs there. */
  lemma DiagnosticsExact(r: Resolution, x: Diagnostic)
    ensures x in Diagnostics(r) <==> Belongs(r, x)
  {
    hide *;
    InParts(r, x);
    BelongsIs(r, x);
    StateExact(r, x);
    GroupExact(r, x);
    HistoryExact(r, x);
    TrustExact(r, x);
  }

  // ---------- The orphaned marker ----------

  /** The directory proves the account gone. */
  predicate ProvenGone(b: Backends) {
    b.ldap == Ok(None) && !NamedHere(b) && b.relation.ConfiguredDomainWholeBase?
  }

  /** The local authority calls the account deleted, and its answer is used:
      for a SID without an object, or one found as a foreign security
      principal, that no connection to its domain resolves. */
  predicate CalledDeleted(b: Backends) {
    && NamedHere(b) && b.lsa.value.value.kind == Orphaned
    && (b.ldap == Ok(None) || FspObject(b)) && !ConnectionBroke(b)
  }

  /** The directory returns an object it calls orphaned. */
  predicate FoundOrphaned(b: Backends) {
    IsPlainHit(b) && b.ldap.value.value.kind == Orphaned
  }

  lemma KindExact(b: Backends, sid: Sid)
    requires !FromTrusted(b)
    ensures ResolveBySid(b, sid).identity.kind == Orphaned <==> ProvenGone(b) || CalledDeleted(b) || FoundOrphaned(b)
  {
    hide ResolveGroups, Markers;
  }

  /** The reader is told "orphaned" exactly when the directory proves it, the
      local authority calls the account deleted, or the directory's own object
      says so: the marker is wider than the verdict. */
  lemma OrphanedMarkerExact(b: Backends, sid: Sid)
    requires !FromTrusted(b)
    ensures IdentityOrphaned in Diagnostics(ResolveBySid(b, sid)) <==>
      ProvenGone(b) || CalledDeleted(b) || FoundOrphaned(b)
  {
    hide *;
    MarkerIsKind(ResolveBySid(b, sid));
    KindExact(b, sid);
  }

  lemma MarkerIsKind(r: Resolution)
    ensures IdentityOrphaned in Diagnostics(r) <==> r.identity.kind == Orphaned
  {
    DiagnosticsExact(r, IdentityOrphaned);
    hide Diagnostics, TallyOf, StateUnknown;
  }

  const DELETED := Some(Ok(LsaAccount("x", "D", Orphaned)))
  const ELSEWHERE := OtherDomain("S-1-5-21-1-2-3")

  /** A foreign security principal whose account was deleted in its domain. */
  function DeletedForeigner(sid: Sid): Backends {
    Backends(Ok(Some(Anonymous(sid, ForeignSecurityPrincipal))), Ok(Groups([], [], [])), false, DELETED, ELSEWHERE, None)
  }

  /** Its groups here are resolved, and yet it is marked orphaned. */
  lemma ResolvedAndOrphaned(sid: Sid)
    ensures var b := DeletedForeigner(sid);
      var r := ResolveBySid(b, sid);
      && !FromTrusted(b) && r.groupStatus.LdapRecursive? && r.scope.InsideConfiguredLdapBase?
      && IdentityOrphaned in Diagnostics(r)
  {
    OrphanedMarkerExact(DeletedForeigner(sid), sid);
    hide Diagnostics;
  }

  /** A SID without an object that the local authority still names. */
  function DeletedElsewhere(): Backends {
    Backends(Ok(None), Ok(Groups([], [], [])), false, DELETED, ELSEWHERE, None)
  }

  /** It is outside the base and marked orphaned, without any evidence from the
      directory. */
  lemma OutsideAndOrphaned(sid: Sid)
    ensures var b := DeletedElsewhere();
      var r := ResolveBySid(b, sid);
      && !FromTrusted(b) && r.scope.OutsideConfiguredLdapBase? && !b.relation.ConfiguredDomainWholeBase?
      && IdentityOrphaned in Diagnostics(r)
  {
    OrphanedMarkerExact(DeletedElsewhere(), sid);
    hide Diagnostics;
  }

  // ---------- Unresolved groups ----------

  lemma ResolutionShape(b: Backends, sid: Sid)
    requires !FromTrusted(b)
    ensures var r := ResolveBySid(b, sid);
      && Shaped(r)
      && (r.groupStatus.LdapRecursive? <==> b.groups.Ok? && r.scope.InsideConfiguredLdapBase?)
  {
    hide Serves, Markers;
  }

  /** The pipeline's combinations of scope, group status and kind. */
  predicate Shaped(r: Resolution) {
    && !r.groupStatus.SamFlat? && !r.groupStatus.LocalAccount?
    && (r.groupStatus.Failed? ==> r.scope.InsideConfiguredLdapBase?)
    && (r.groupStatus.LdapRecursive? ==> r.scope.InsideConfiguredLdapBase?)
    && (r.groupStatus.NotAttempted? ==>
          r.scope.OutsideConfiguredLdapBase? || r.scope.OrphanedSid? || r.scope.Unresolvable? || r.scope.LookupFailed?)
    && (r.scope.OrphanedSid? ==> r.identity.kind == Orphaned)
  }

  lemma ShapedSays(r: Resolution) returns (d: Diagnostic)
    requires Shaped(r) && !r.groupStatus.LdapRecursive?
    ensures d in Diagnostics(r) && SaysUnresolved(d)
  {
    d :=
      if r.groupStatus.Failed? then GroupResolutionFailed(SearchFailed(r.groupStatus.error))
      else if r.scope.OutsideConfiguredLdapBase? then IdentityNotInConfiguredLdapBase
      else if r.scope.OrphanedSid? then IdentityOrphaned
      else if r.scope.Unresolvable? then IdentityNotResolvable(r.scope.reason)
      else IdentityLookupFailed(r.scope.error);
    DiagnosticsExact(r, d);
    hide Diagnostics;
  }

  lemma ResolvedSaysOrphaned(r: Resolution, d: Diagnostic)
    requires Shaped(r) && r.groupStatus.LdapRecursive? && d in Diagnostics(r)
    ensures SaysUnresolved(d) ==> d == IdentityOrphaned
  {
    DiagnosticsExact(r, d);
    hide Diagnostics;
  }

  /** A marker of the view says that the groups are unresolved. */
  predicate Says(r: Resolution) {
    exists d :: d in Diagnostics(r) && SaysUnresolved(d)
  }

  lemma SaysExactly(r: Resolution)
    requires Shaped(r)
    ensures Says(r) <==> !r.groupStatus.LdapRecursive? || IdentityOrphaned in Diagnostics(r)
  {
    hide Shaped, Diagnostics;
    if !r.groupStatus.LdapRecursive? {
      var d := ShapedSays(r);
    } else {
      forall d | d in Diagnostics(r) ensures SaysUnresolved(d) ==> d == IdentityOrphaned {
        ResolvedSaysOrphaned(r, d);
      }
    }
  }

  /** Unresolved groups are always said to be unresolved. */
  lemma UnresolvedIsSaid(b: Backends, sid: Sid)
    requires !FromTrusted(b) && !ResolveBySid(b, sid).groupStatus.LdapRecursive?
    ensures Says(ResolveBySid(b, sid))
  {
    hide *;
    ResolutionShape(b, sid);
    SaysExactly(ResolveBySid(b, sid));
  }

  /** The groups are resolved and the account is still called deleted. */
  predicate DeletedButResolved(b: Backends) {
    b.groups.Ok? && ((FspObject(b) && CalledDeleted(b)) || FoundOrphaned(b))
  }

  /** The markers say "unresolved" exactly when the groups are, if and only if
      no account with resolved groups is called deleted. */
  lemma MarkersAreExactUnlessDeleted(b: Backends, sid: Sid)
    requires !FromTrusted(b)
    ensures var r := ResolveBySid(b, sid);
      (Says(r) <==> !r.groupStatus.LdapRecursive?) <==> !DeletedButResolved(b)
  {
    ResolutionShape(b, sid);
    SaysExactly(ResolveBySid(b, sid));
    OrphanedMarkerExact(b, sid);
    ScopeExact(b, sid);
    DeletedIsInside(b);
    hide *;
  }

  lemma DeletedIsInside(b: Backends)
    requires !FromTrusted(b)
    ensures DeletedButResolved(b) <==>
      && b.groups.Ok? && IsHit(b) && !(FspObject(b) && ConnectionBroke(b))
      && (ProvenGone(b) || CalledDeleted(b) || FoundOrphaned(b))
  {
    hide ConnectionBroke;
  }

  /** What the membership view shows of the fields of a resolution. */
  lemma ShowsGroups(r: Resolution, gap: string)
    ensures var d := Diagnostics(r);
      && (GroupResolutionIncomplete(gap) in d <==> gap in r.gaps)
      && (NonSecurityGroupsExcluded(r.excluded) in d <==> r.excluded != [])
      && (GroupResolutionViaGlobalCatalog in d <==> r.viaGlobalCatalog)
      && (IdentityResolvedViaForeignSecurityPrincipal in d <==> r.viaFsp)
  {
    DiagnosticsExact(r, GroupResolutionIncomplete(gap));
    DiagnosticsExact(r, NonSecurityGroupsExcluded(r.excluded));
    DiagnosticsExact(r, GroupResolutionViaGlobalCatalog);
    DiagnosticsExact(r, IdentityResolvedViaForeignSecurityPrincipal);
    hide Diagnostics, TallyOf, StateUnknown;
  }

  lemma ShowsTrust(r: Resolution, p: Provenance)
    ensures var d := Diagnostics(r);
      && (TrustBoundaryEffectsNotModeled in d <==>
            r.viaFsp || r.scope.OutsideConfiguredLdapBase? || (r.trusted.Some? && r.trusted.value.selective))
      && (TrustedDomainAccountResolved(p) in d <==> r.trusted == Some(p))
  {
    DiagnosticsExact(r, TrustBoundaryEffectsNotModeled);
    DiagnosticsExact(r, TrustedDomainAccountResolved(p));
    hide Diagnostics, TallyOf, StateUnknown;
  }

  /** The gaps and the excluded groups of a hit are all shown, and its groups
      are the directory's. */
  lemma HitShowsEverything(b: Backends, sid: Sid, gap: string)
    requires !FromTrusted(b) && ResolveBySid(b, sid).groupStatus.LdapRecursive?
    ensures b.groups.Ok? && ResolveBySid(b, sid).memberships == b.groups.value.memberships
    ensures var d := Diagnostics(ResolveBySid(b, sid));
      && (GroupResolutionIncomplete(gap) in d <==> gap in b.groups.value.gaps)
      && (NonSecurityGroupsExcluded(b.groups.value.excluded) in d <==> b.groups.value.excluded != [])
      && (GroupResolutionViaGlobalCatalog in d <==> b.forestWide)
      && (IdentityResolvedViaForeignSecurityPrincipal in d <==> FspObject(b))
      && (TrustBoundaryEffectsNotModeled in d <==> FspObject(b))
  {
    var r := ResolveBySid(b, sid);
    ResolutionShape(b, sid);
    HitFields(b, sid);
    ShowsGroups(r, gap);
    ShowsTrust(r, Provenance(TrustPartner(""), [], [], false));
    hide *;
  }

  lemma HitFields(b: Backends, sid: Sid)
    requires !FromTrusted(b) && ResolveBySid(b, sid).scope.InsideConfiguredLdapBase? && b.groups.Ok?
    ensures var r := ResolveBySid(b, sid);
      && r.memberships == b.groups.value.memberships && r.gaps == b.groups.value.gaps
      && r.excluded == b.groups.value.excluded && r.viaGlobalCatalog == b.forestWide
      && r.viaFsp == FspObject(b) && r.trusted == None
  {
    hide Serves, Markers;
  }

  /** The marker agrees with the resolution. */
  predicate Agrees(r: Resolution, d: Diagnostic) {
    || (d == IdentityNotInConfiguredLdapBase && r.scope.OutsideConfiguredLdapBase?)
    || (d == IdentityDisabledStatusUnknown && r.disabledStatus.DisabledUnknown? && !r.scope.OrphanedSid?)
    || (d == IdentityDisabled && r.disabledStatus.Known? && r.identity.disabled)
    || (d == IdentityResolvedViaForeignSecurityPrincipal && r.viaFsp)
  }

  predicate AllAgree(r: Resolution) {
    forall d :: d in r.diagnostics ==> Agrees(r, d)
  }

  lemma HitsAgree(b: Backends, sid: Sid, i: Identity)
    ensures AllAgree(Hit(b, sid, i)) && AllAgree(FspHit(b, sid, i))
  {
    hide ResolveGroups;
  }

  lemma OthersAgree(sid: Sid, reason: Reason, error: string, a: LsaAccount)
    ensures AllAgree(OrphanedResolution(sid)) && AllAgree(UnresolvableResolution(sid, reason))
    ensures AllAgree(FailedLookup(sid, error)) && AllAgree(NamedByLsa(sid, a))
  {
  }

  lemma TrustedAgree(b: Backends, sid: Sid)
    requires !FromTrusted(b) && !IsPlainHit(b)
    ensures b.ldap == Ok(None) && !NamedHere(b) && ResolveInTrustedDomain(b, sid, 0).Some? ==>
      AllAgree(ResolveInTrustedDomain(b, sid, 0).value)
    ensures b.ldap.Ok? && (b.ldap == Ok(None) ==> NamedHere(b)) && ResolveWithServingConnection(b, sid).Some? ==>
      AllAgree(ResolveWithServingConnection(b, sid).value)
  {
    forall reason ensures AllAgree(UnresolvableResolution(sid, reason)) {
    }
    hide AllAgree, UnresolvableResolution, Serves;
  }

  predicate IsPlainHit(b: Backends) {
    IsHit(b) && !FspObject(b)
  }

  lemma CollectedAgree(b: Backends, sid: Sid)
    requires !FromTrusted(b)
    ensures AllAgree(ResolveBySid(b, sid))
  {
    if b.ldap.Err? {
      OthersAgree(sid, ByRelation(b.relation), b.ldap.error, LsaAccount("", "", User));
    } else if b.ldap.value.Some? {
      HitsAgree(b, sid, b.ldap.value.value);
    } else {
      OthersAgree(sid, ByRelation(b.relation), "", if NamedHere(b) then b.lsa.value.value else LsaAccount("", "", User));
    }
    if !IsPlainHit(b) {
      TrustedAgree(b, sid);
    }
    hide AllAgree, Hit, FspHit, OrphanedResolution, UnresolvableResolution, FailedLookup, NamedByLsa, Serves, FromTrusted,
      ResolveInTrustedDomain, ResolveWithServingConnection;
  }

  /** The markers collected while resolving all appear in the membership view:
      the two cannot drift apart. */
  lemma CollectedMarkersAreShown(b: Backends, sid: Sid, d: Diagnostic)
    requires !FromTrusted(b) && d in ResolveBySid(b, sid).diagnostics
    ensures d in Diagnostics(ResolveBySid(b, sid))
  {
    CollectedAgree(b, sid);
    DiagnosticsExact(ResolveBySid(b, sid), d);
    hide ResolveBySid, Diagnostics;
  }

  // ---------- The trusted domain's answer ----------

  function SidsShown(shown: seq<Trusted.Shown>): seq<Sid> {
    seq(|shown|, i requires 0 <= i < |shown| => shown[i].sid)
  }

  /** A successful resolution in the trusted domain as the pipeline returns it. */
  function InTrustedDomain(
    sid: Sid, kind: Kind, partner: Partner, r: TrustedAccount.Resolved, gapText: TrustedAccount.Gap -> string): Resolution
  {
    var gaps := seq(|r.gaps|, i requires 0 <= i < |r.gaps| => gapText(r.gaps[i]));
    Resolution(
      sid,
      Identity(sid, if r.name.Some? then Some(r.name.value.text) else None, Some(r.domain), kind, r.disabled,
               r.historyCount, r.history),
      r.memberships,
      ResolvedInTrustedDomain(partner),
      LdapRecursive,
      Known(r.disabled),
      Markers(ResolvedInTrustedDomain(partner), Known(r.disabled), r.disabled),
      false, false, gaps, r.excluded,
      Some(Provenance(partner, SidsShown(r.homeOnly), SidsShown(r.filtered), r.selective)))
  }

  /** It is marked as such, with every SID the trust filtered and every gap,
      and says that Selective Authentication bounds it exactly when the trust
      uses it. */
  lemma TrustedResolutionIsMarked(
    sid: Sid, kind: Kind, partner: Partner, r: TrustedAccount.Resolved, gapText: TrustedAccount.Gap -> string, g: TrustedAccount.Gap)
    requires kind != Orphaned
    ensures var d := Diagnostics(InTrustedDomain(sid, kind, partner, r, gapText));
      && TrustedDomainAccountResolved(Provenance(partner, SidsShown(r.homeOnly), SidsShown(r.filtered), r.selective)) in d
      && (g in r.gaps ==> GroupResolutionIncomplete(gapText(g)) in d)
      && (TrustBoundaryEffectsNotModeled in d <==> r.selective)
      && (forall x :: x in d ==> !SaysUnresolved(x))
  {
    var res := InTrustedDomain(sid, kind, partner, r, gapText);
    SaysNothingUnresolved(res);
    ShowsGroups(res, gapText(g));
    ShowsTrust(res, res.trusted.value);
    if g in r.gaps {
      var i :| 0 <= i < |r.gaps| && r.gaps[i] == g;
      assert res.gaps[i] == gapText(g);
    }
    hide Diagnostics, Markers, SidsShown, SaysUnresolved;
  }

  lemma SaysNothingUnresolved(r: Resolution)
    requires r.groupStatus.LdapRecursive? && r.scope.ResolvedInTrustedDomain? && r.identity.kind != Orphaned
    ensures forall x :: x in Diagnostics(r) ==> !SaysUnresolved(x)
  {
    hide SaysUnresolved, Diagnostics;
    forall x | x in Diagnostics(r) ensures !SaysUnresolved(x) {
      NotUnresolved(r, x);
    }
  }

  lemma NotUnresolved(r: Resolution, x: Diagnostic)
    requires r.groupStatus.LdapRecursive? && r.scope.ResolvedInTrustedDomain? && r.identity.kind != Orphaned
    requires x in Diagnostics(r)
    ensures !SaysUnresolved(x)
  {
    DiagnosticsExact(r, x);
    hide Diagnostics, TallyOf, StateUnknown;
  }
}
