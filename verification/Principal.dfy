/** Resolving a SID to a principal: the pipeline over the answers of the
    directory, the local security authority and an optional connection to a
    trusted domain. Answers are data; every statement holds for all of them. */
module Principal {
  import opened Wrappers
  import opened Text
  import opened Directory
  import opened Trusts

  datatype Kind = User | Group | Computer | WellKnown | ForeignSecurityPrincipal | Orphaned | UnknownKind

  datatype Identity = Identity(
    sid: Sid,
    name: Option<string>,
    domain: Option<string>,
    kind: Kind,
    disabled: bool,
    historyCount: nat,
    history: seq<Sid>)

  /** Why a SID is not resolvable. */
  datatype Reason =
    | ByRelation(relation: Relation)
    | ServesAnother(served: string)
    | ServedUnreadable(error: string)
    | ResolutionThereFailed(error: string)

  datatype Scope =
    | InsideConfiguredLdapBase
    | OutsideConfiguredLdapBase
    | OrphanedSid
    | Unresolvable(reason: Reason)
    | LookupFailed(error: string)
    | ResolvedInTrustedDomain(domain: Partner)

  datatype GroupStatus = LdapRecursive | SamFlat | LocalAccount | Failed(error: string) | NotAttempted

  datatype Disabled = Known(value: bool) | DisabledUnknown

  datatype Provenance = Provenance(domain: Partner, homeOnly: seq<Sid>, filtered: seq<Sid>, selective: bool)

  datatype Diagnostic =
    | IdentityDisabled
    | IdentityDisabledStatusUnknown
    | IdentityNotInConfiguredLdapBase
    | DomainGroupRecursionIncomplete
    | IdentityLookupFailed(error: string)
    | GroupResolutionFailed(why: GroupFailure)
    | GroupResolutionIncomplete(gap: string)
    | NonSecurityGroupsExcluded(groups: seq<string>)
    | IdentityNotResolvable(reason: Reason)
    | IdentityOrphaned
    | IdentityResolvedViaForeignSecurityPrincipal
    | GroupResolutionViaGlobalCatalog
    | SidHistoryEvaluated(count: nat)
    | SidHistoryPresent(count: nat)
    | GroupSidHistoryEvaluated(over: nat, values: nat)
    | GroupSidHistoryPresent(values: nat)
    | TrustBoundaryEffectsNotModeled
    | TrustedDomainAccountResolved(provenance: Provenance)

  datatype GroupFailure = SearchFailed(error: string) | SkippedOutsideBase

  datatype Resolution = Resolution(
    sid: Sid,
    identity: Identity,
    memberships: seq<GroupMembership>,
    scope: Scope,
    groupStatus: GroupStatus,
    disabledStatus: Disabled,
    diagnostics: seq<Diagnostic>,
    viaFsp: bool,
    viaGlobalCatalog: bool,
    gaps: seq<string>,
    excluded: seq<string>,
    trusted: Option<Provenance>)

  // ---------- Answers of the backends ----------

  datatype Groups = Groups(memberships: seq<GroupMembership>, gaps: seq<string>, excluded: seq<string>)

  datatype LsaAccount = LsaAccount(name: string, domain: string, kind: Kind)

  datatype TrustContext = TrustContext(partner: Partner, domainSid: string, attributes: nat, forest: Option<TrustedForest>)

  /** The connection to a trusted domain. It is asked for its domain SID up to
      twice and need not answer the same. */
  datatype TrustedBackend = TrustedBackend(
    served: nat -> Result<string, string>,
    account: TrustContext -> Result<Resolution, string>)

  /** `lsa` is nothing without a local security authority. */
  datatype Backends = Backends(
    ldap: Result<Option<Identity>, string>,
    groups: Result<Groups, string>,
    forestWide: bool,
    lsa: Option<Result<LsaAccount, string>>,
    relation: Relation,
    trusted: Option<TrustedBackend>)

  // ---------- The pieces of a resolution ----------

  datatype GroupAnswer = GroupAnswer(memberships: seq<GroupMembership>, status: GroupStatus, gaps: seq<string>, excluded: seq<string>)

  function ResolveGroups(b: Backends): GroupAnswer {
    match b.groups
    case Ok(g) => GroupAnswer(g.memberships, LdapRecursive, g.gaps, g.excluded)
    case Err(e) => GroupAnswer([], Failed(e), [], [])
  }

  function Anonymous(sid: Sid, kind: Kind): Identity {
    Identity(sid, None, None, kind, false, 0, [])
  }

  function Markers(scope: Scope, status: Disabled, disabled: bool): seq<Diagnostic> {
    (if scope.OutsideConfiguredLdapBase? then [IdentityNotInConfiguredLdapBase] else [])
    + (if status.DisabledUnknown? then [IdentityDisabledStatusUnknown] else if disabled then [IdentityDisabled] else [])
  }

  method PushDiagnostics(before: seq<Diagnostic>, scope: Scope, status: Disabled, disabled: bool)
    returns (d: seq<Diagnostic>)
    ensures d == before + Markers(scope, status, disabled)
  {
    d := before;
    if scope.OutsideConfiguredLdapBase? {
      d := d + [IdentityNotInConfiguredLdapBase];
    }
    if status.DisabledUnknown? {
      d := d + [IdentityDisabledStatusUnknown];
    } else if disabled {
      d := d + [IdentityDisabled];
    }
  }

  function Hit(b: Backends, sid: Sid, identity: Identity): Resolution {
    var g := ResolveGroups(b);
    Resolution(
      sid, identity, g.memberships, InsideConfiguredLdapBase, g.status, Known(identity.disabled),
      Markers(InsideConfiguredLdapBase, Known(identity.disabled), identity.disabled),
      false, b.forestWide, g.gaps, g.excluded, None)
  }

  function OrphanedResolution(sid: Sid): Resolution {
    Resolution(
      sid, Anonymous(sid, Orphaned), [], OrphanedSid, NotAttempted, DisabledUnknown, [], false, false, [], [], None)
  }

  function UnresolvableResolution(sid: Sid, reason: Reason): Resolution {
    Resolution(
      sid, Anonymous(sid, UnknownKind), [], Unresolvable(reason), NotAttempted, DisabledUnknown,
      [IdentityDisabledStatusUnknown], false, false, [], [], None)
  }

  function FailedLookup(sid: Sid, error: string): Resolution {
    Resolution(
      sid, Anonymous(sid, UnknownKind), [], LookupFailed(error), NotAttempted, DisabledUnknown, [],
      false, false, [], [], None)
  }

  function NonEmpty(s: string): Option<string> {
    if s == "" then None else Some(s)
  }

  function NamedByLsa(sid: Sid, a: LsaAccount): Resolution {
    Resolution(
      sid, Identity(sid, NonEmpty(a.name), NonEmpty(a.domain), a.kind, false, 0, []), [],
      OutsideConfiguredLdapBase, NotAttempted, DisabledUnknown,
      Markers(OutsideConfiguredLdapBase, DisabledUnknown, false), false, false, [], [], None)
  }

  function FspHit(b: Backends, sid: Sid, fsp: Identity): Resolution {
    var g := ResolveGroups(b);
    var identity :=
      if b.lsa.Some? && b.lsa.value.Ok? then
        var a := b.lsa.value.value;
        Identity(
          sid,
          if a.name == "" then fsp.name else Some(a.name),
          if a.domain == "" then fsp.domain else Some(a.domain),
          a.kind, false, fsp.historyCount, fsp.history)
      else fsp;
    Resolution(
      sid, identity, g.memberships, InsideConfiguredLdapBase, g.status, DisabledUnknown,
      Markers(InsideConfiguredLdapBase, DisabledUnknown, false) + [IdentityResolvedViaForeignSecurityPrincipal],
      true, b.forestWide, g.gaps, g.excluded, None)
  }

  // ---------- The trusted domain ----------

  predicate Serves(served: Result<string, string>, domainSid: string) {
    served.Ok? && EqIgnoreCase(served.value, domainSid)
  }

  /** `call` numbers the question for the served domain. */
  function ResolveInTrustedDomain(b: Backends, sid: Sid, call: nat): Option<Resolution> {
    if !b.relation.TrustedDomain? || b.trusted.None? then None
    else
      var r := b.relation;
      var served := b.trusted.value.served(call);
      if !Serves(served, r.domainSid) then
        Some(UnresolvableResolution(
          sid, if served.Ok? then ServesAnother(served.value) else ServedUnreadable(served.error)))
      else
        match b.trusted.value.account(TrustContext(r.partner, r.domainSid, r.attributes, r.forest))
        case Ok(resolution) => Some(resolution)
        case Err(e) => Some(UnresolvableResolution(sid, ResolutionThereFailed(e)))
  }

  function ResolveWithServingConnection(b: Backends, sid: Sid): Option<Resolution> {
    if b.trusted.None? || !b.relation.TrustedDomain? then None
    else if !Serves(b.trusted.value.served(0), b.relation.domainSid) then None
    else ResolveInTrustedDomain(b, sid, 1)
  }

  // ---------- The pipeline ----------

  function ClassifyUnresolved(b: Backends, sid: Sid): Resolution {
    var there := ResolveInTrustedDomain(b, sid, 0);
    if there.Some? then there.value
    else if b.relation.ConfiguredDomainWholeBase? then OrphanedResolution(sid)
    else UnresolvableResolution(sid, ByRelation(b.relation))
  }

  function FallBackToLsa(b: Backends, sid: Sid): Resolution {
    if b.lsa.None? || b.lsa.value.Err? then ClassifyUnresolved(b, sid)
    else
      var there := ResolveWithServingConnection(b, sid);
      if there.Some? then there.value else NamedByLsa(sid, b.lsa.value.value)
  }

  function ResolveBySid(b: Backends, sid: Sid): Resolution {
    match b.ldap
    case Err(e) => FailedLookup(sid, e)
    case Ok(None) => FallBackToLsa(b, sid)
    case Ok(Some(identity)) =>
      if identity.kind != ForeignSecurityPrincipal then Hit(b, sid, identity)
      else
        var there := ResolveWithServingConnection(b, sid);
        if there.Some? then there.value else FspHit(b, sid, identity)
  }

  // ---------- Flags and diagnostics ----------

  datatype Flags = Flags(
    unresolvable: Option<Reason>,
    gaps: seq<string>,
    excluded: seq<string>,
    notInBase: bool,
    disabledUnknown: bool,
    samFallback: bool,
    lookupFailure: Option<string>,
    groupFailure: Option<GroupFailure>,
    viaFsp: bool,
    viaGlobalCatalog: bool,
    trusted: Option<Provenance>)

  function EngineFlags(r: Resolution): Flags {
    Flags(
      if r.scope.Unresolvable? then Some(r.scope.reason) else None,
      r.gaps,
      r.excluded,
      r.scope.OutsideConfiguredLdapBase?,
      r.disabledStatus.DisabledUnknown? && !r.scope.OrphanedSid?,
      r.groupStatus.SamFlat?,
      if r.scope.LookupFailed? then Some(r.scope.error) else None,
      if r.groupStatus.Failed? then Some(SearchFailed(r.groupStatus.error))
      else if r.groupStatus.NotAttempted? && r.scope.OutsideConfiguredLdapBase? then Some(SkippedOutsideBase)
      else None,
      r.viaFsp,
      r.viaGlobalCatalog,
      r.trusted)
  }

  function Incomplete(gaps: seq<string>): seq<Diagnostic> {
    seq(|gaps|, i requires 0 <= i < |gaps| => GroupResolutionIncomplete(gaps[i]))
  }

  function SidHistoryDiagnostics(i: Identity): seq<Diagnostic> {
    (if |i.history| > 0 then [SidHistoryEvaluated(|i.history|)] else [])
    + (if i.historyCount > |i.history| then [SidHistoryPresent(i.historyCount - |i.history|)] else [])
  }

  // ---------- Histories of the groups ----------

  /** Historical SIDs over the groups of a list. */
  datatype Tally = Tally(groups: nat, evaluated: nat, unevaluated: nat)

  function GroupSids(ms: seq<GroupMembership>): set<Sid> {
    set i | 0 <= i < |ms| :: ms[i].groupSid
  }

  /** What one group adds; a stated count of zero means no history was read. */
  function Added(t: Tally, m: GroupMembership): Tally {
    if m.historyCount == 0 then t
    else
      Tally(
        t.groups + (if m.history == [] then 0 else 1),
        t.evaluated + |m.history|,
        t.unevaluated + (if m.historyCount > |m.history| then m.historyCount - |m.history| else 0))
  }

  /** Each group counts once, by its first membership. */
  function TallyOf(ms: seq<GroupMembership>): Tally {
    if ms == [] then Tally(0, 0, 0)
    else
      var front, m := ms[..|ms| - 1], ms[|ms| - 1];
      if m.groupSid in GroupSids(front) then TallyOf(front) else Added(TallyOf(front), m)
  }

  function GroupHistoryDiagnostics(ms: seq<GroupMembership>): seq<Diagnostic> {
    var t := TallyOf(ms);
    (if t.evaluated > 0 then [GroupSidHistoryEvaluated(t.groups, t.evaluated)] else [])
    + (if t.unevaluated > 0 then [GroupSidHistoryPresent(t.unevaluated)] else [])
  }

  method CountGroupHistories(ms: seq<GroupMembership>) returns (t: Tally)
    ensures t == TallyOf(ms)
  {
    var groups: nat, evaluated: nat, unevaluated: nat := 0, 0, 0;
    var seen: set<Sid> := {};
    for i := 0 to |ms|
      invariant Tally(groups, evaluated, unevaluated) == TallyOf(ms[..i])
      invariant seen == GroupSids(ms[..i])
    {
      assert ms[..i + 1][..i] == ms[..i];
      GroupSidsPush(ms[..i], ms[i]);
      assert ms[..i + 1] == ms[..i] + [ms[i]];
      if ms[i].groupSid in seen {
        continue;
      }
      seen := seen + {ms[i].groupSid};
      if ms[i].historyCount == 0 {
        continue;
      }
      var parsed := |ms[i].history|;
      if parsed > 0 {
        groups := groups + 1;
        evaluated := evaluated + parsed;
      }
      unevaluated := unevaluated + if ms[i].historyCount > parsed then ms[i].historyCount - parsed else 0;
    }
    assert ms[..|ms|] == ms;
    t := Tally(groups, evaluated, unevaluated);
  }

  lemma GroupSidsPush(ms: seq<GroupMembership>, m: GroupMembership)
    ensures GroupSids(ms + [m]) == GroupSids(ms) + {m.groupSid}
  {
    var all := ms + [m];
    assert all[|ms|] == m && forall i :: 0 <= i < |ms| ==> all[i] == ms[i];
  }

  // ---------- The membership view ----------

  /** Nobody could read whether the account is disabled; for one that is gone
      the question does not arise. */
  predicate StateUnknown(r: Resolution) {
    r.disabledStatus.DisabledUnknown? && !r.scope.OrphanedSid?
  }

  /** When a diagnostic belongs into the membership view of a resolution: about
      the account's state and how it was found, */
  predicate StateWarrants(r: Resolution, d: Diagnostic) {
    || (d == IdentityDisabledStatusUnknown && StateUnknown(r))
    || (d == IdentityDisabled && r.identity.disabled && !StateUnknown(r))
    || (d == IdentityNotInConfiguredLdapBase && r.scope.OutsideConfiguredLdapBase?)
    || (d == DomainGroupRecursionIncomplete && r.groupStatus.SamFlat?)
    || (d.IdentityLookupFailed? && r.scope == LookupFailed(d.error))
    || (d.GroupResolutionFailed? && d.why.SearchFailed? && r.groupStatus == Failed(d.why.error))
    || (d == GroupResolutionFailed(SkippedOutsideBase) && r.groupStatus.NotAttempted? && r.scope.OutsideConfiguredLdapBase?)
  }

  /** about its groups and whether it exists, */
  predicate GroupsWarrant(r: Resolution, d: Diagnostic) {
    || (d.GroupResolutionIncomplete? && d.gap in r.gaps)
    || (d == NonSecurityGroupsExcluded(r.excluded) && r.excluded != [])
    || (d.IdentityNotResolvable? && r.scope == Unresolvable(d.reason))
    || (d == IdentityOrphaned && r.identity.kind == Orphaned)
    || (d == IdentityResolvedViaForeignSecurityPrincipal && r.viaFsp)
    || (d == GroupResolutionViaGlobalCatalog && r.viaGlobalCatalog)
  }

  /** about historical SIDs, */
  predicate HistoryWarrants(r: Resolution, d: Diagnostic) {
    var t := TallyOf(r.memberships);
    || (d == SidHistoryEvaluated(|r.identity.history|) && r.identity.history != [])
    || (d.SidHistoryPresent? && d.count == r.identity.historyCount - |r.identity.history| && d.count > 0)
    || (d == GroupSidHistoryEvaluated(t.groups, t.evaluated) && t.evaluated > 0)
    || (d == GroupSidHistoryPresent(t.unevaluated) && t.unevaluated > 0)
  }

  /** and about trusts. */
  predicate TrustWarrants(r: Resolution, d: Diagnostic) {
    || (d == TrustBoundaryEffectsNotModeled
        && (r.viaFsp || r.scope.OutsideConfiguredLdapBase? || (r.trusted.Some? && r.trusted.value.selective)))
    || (d.TrustedDomainAccountResolved? && r.trusted == Some(d.provenance))
  }

  predicate Belongs(r: Resolution, d: Diagnostic) {
    StateWarrants(r, d) || GroupsWarrant(r, d) || HistoryWarrants(r, d) || TrustWarrants(r, d)
  }

  function When(b: bool, d: Diagnostic): seq<Diagnostic> {
    if b then [d] else []
  }

  /** About the account's state and how it was found. */
  function StateDiagnostics(r: Resolution, f: Flags): seq<Diagnostic> {
    (if f.disabledUnknown then [IdentityDisabledStatusUnknown] else When(r.identity.disabled, IdentityDisabled))
    + When(f.notInBase, IdentityNotInConfiguredLdapBase)
    + When(f.samFallback, DomainGroupRecursionIncomplete)
    + (if f.lookupFailure.Some? then [IdentityLookupFailed(f.lookupFailure.value)] else [])
    + (if f.groupFailure.Some? then [GroupResolutionFailed(f.groupFailure.value)] else [])
  }

  /** About its groups and whether it exists. */
  function GroupDiagnostics(r: Resolution, f: Flags): seq<Diagnostic> {
    Incomplete(f.gaps)
    + When(f.excluded != [], NonSecurityGroupsExcluded(f.excluded))
    + (if f.unresolvable.Some? then [IdentityNotResolvable(f.unresolvable.value)] else [])
    + When(r.identity.kind == Orphaned, IdentityOrphaned)
    + When(f.viaFsp, IdentityResolvedViaForeignSecurityPrincipal)
    + When(f.viaGlobalCatalog, GroupResolutionViaGlobalCatalog)
  }

  function HistoryDiagnostics(r: Resolution): seq<Diagnostic> {
    SidHistoryDiagnostics(r.identity) + GroupHistoryDiagnostics(r.memberships)
  }

  function TrustDiagnostics(f: Flags): seq<Diagnostic> {
    When(f.viaFsp || f.notInBase, TrustBoundaryEffectsNotModeled)
    + (if f.trusted.Some? then
         [TrustedDomainAccountResolved(f.trusted.value)] + When(f.trusted.value.selective, TrustBoundaryEffectsNotModeled)
       else [])
  }

  function Diagnostics(r: Resolution): seq<Diagnostic> {
    var f := EngineFlags(r);
    StateDiagnostics(r, f) + GroupDiagnostics(r, f) + HistoryDiagnostics(r) + TrustDiagnostics(f)
  }

  method Push(before: seq<Diagnostic>, b: bool, d: Diagnostic) returns (after: seq<Diagnostic>)
    ensures after == before + When(b, d)
  {
    after := before;
    if b {
      after := after + [d];
    }
  }

  method ListStateDiagnostics(r: Resolution, f: Flags) returns (d: seq<Diagnostic>)
    ensures d == StateDiagnostics(r, f)
  {
    hide When;
    if f.disabledUnknown {
      d := [IdentityDisabledStatusUnknown];
    } else {
      d := Push([], r.identity.disabled, IdentityDisabled);
      assert d == When(r.identity.disabled, IdentityDisabled);
    }
    d := Push(d, f.notInBase, IdentityNotInConfiguredLdapBase);
    d := Push(d, f.samFallback, DomainGroupRecursionIncomplete);
    if f.lookupFailure.Some? {
      d := d + [IdentityLookupFailed(f.lookupFailure.value)];
    }
    if f.groupFailure.Some? {
      d := d + [GroupResolutionFailed(f.groupFailure.value)];
    }
  }

  method ListGroupDiagnostics(r: Resolution, f: Flags) returns (d: seq<Diagnostic>)
    ensures d == GroupDiagnostics(r, f)
  {
    d := [];
    for i := 0 to |f.gaps|
      invariant d == Incomplete(f.gaps[..i])
    {
      d := d + [GroupResolutionIncomplete(f.gaps[i])];
    }
    assert f.gaps[..|f.gaps|] == f.gaps;
    hide Incomplete, When;
    d := Push(d, f.excluded != [], NonSecurityGroupsExcluded(f.excluded));
    if f.unresolvable.Some? {
      d := d + [IdentityNotResolvable(f.unresolvable.value)];
    }
    d := Push(d, r.identity.kind == Orphaned, IdentityOrphaned);
    d := Push(d, f.viaFsp, IdentityResolvedViaForeignSecurityPrincipal);
    d := Push(d, f.viaGlobalCatalog, GroupResolutionViaGlobalCatalog);
  }

  method ListHistoryDiagnostics(r: Resolution) returns (d: seq<Diagnostic>)
    ensures d == HistoryDiagnostics(r)
  {
    d := SidHistoryDiagnostics(r.identity);
    var t := CountGroupHistories(r.memberships);
    var groups: seq<Diagnostic> := [];
    if t.evaluated > 0 {
      groups := groups + [GroupSidHistoryEvaluated(t.groups, t.evaluated)];
    }
    if t.unevaluated > 0 {
      groups := groups + [GroupSidHistoryPresent(t.unevaluated)];
    }
    hide SidHistoryDiagnostics;
    d := d + groups;
  }

  method ListTrustDiagnostics(f: Flags) returns (d: seq<Diagnostic>)
    ensures d == TrustDiagnostics(f)
  {
    d := Push([], f.viaFsp || f.notInBase, TrustBoundaryEffectsNotModeled);
    if f.trusted.Some? {
      var t := [TrustedDomainAccountResolved(f.trusted.value)];
      t := Push(t, f.trusted.value.selective, TrustBoundaryEffectsNotModeled);
      d := d + t;
    }
    hide When;
  }

  method MembershipDiagnostics(r: Resolution) returns (d: seq<Diagnostic>)
    ensures d == Diagnostics(r)
  {
    hide EngineFlags, StateDiagnostics, GroupDiagnostics, HistoryDiagnostics, TrustDiagnostics;
    var f := EngineFlags(r);
    var state := ListStateDiagnostics(r, f);
    var groups := ListGroupDiagnostics(r, f);
    var history := ListHistoryDiagnostics(r);
    var trust := ListTrustDiagnostics(f);
    d := state + groups + history + trust;
  }
}
