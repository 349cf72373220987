/** Trust objects and what they say about the domain of a SID: the shape of
    domain SIDs, trusted forests, and the classification of a SID the
    configured directory holds no object for. */
module Trusts {
  import opened Wrappers
  import opened Text
  import opened Bytes
  import opened Directory
  import SidUtil
  import ForestTrustInfo

  const U32_MAX := 0xFFFF_FFFF

  // ---------- Domain SIDs ----------

  predicate Numbers(parts: seq<string>) {
    forall i :: 0 <= i < |parts| ==> ParseUint(parts[i], U32_MAX).Some?
  }

  predicate DomainParts(parts: seq<string>) {
    && |parts| >= 4
    && EqIgnoreCase(parts[0], "S")
    && parts[1] == "1" && parts[2] == "5" && parts[3] == "21"
    && Numbers(parts[4..])
  }

  /** The shape `S-1-5-21-a-b-c`. */
  predicate IsDomainSid(value: string) {
    |Split(value, '-')| == 7 && DomainParts(Split(value, '-'))
  }

  /** `S-1-5-21-a-b-c-rid` without its last part; nothing for another shape. */
  function AccountDomainOf(sid: Sid): Option<string> {
    var parts := Split(sid, '-');
    if |parts| == 8 && DomainParts(parts) then Some(Join(parts[..7], '-')) else None
  }

  // ---------- Trust objects ----------

  type ForestDomain = ForestTrustInfo.Domain

  predicate QuarantinedDomain(attributes: nat) { Bit(attributes, 0x4) }
  predicate ForestTransitive(attributes: nat) { Bit(attributes, 0x8) }
  predicate SelectiveAuthentication(attributes: nat) { Bit(attributes, 0x10) }
  predicate WithinForest(attributes: nat) { Bit(attributes, 0x20) }

  /** Disabled neither by an administrator nor because of a conflict. */
  predicate SidEnabled(d: ForestDomain) {
    !Bit(d.flags, 0x1) && !Bit(d.flags, 0x2)
  }

  datatype InfoError = NotReturned | NotParsed(error: ForestTrustInfo.ParseError)

  datatype DomainTrust = DomainTrust(
    partner: string,
    attributes: nat,
    sid: Option<Sid>,
    forestDomains: seq<ForestDomain>,
    infoError: Option<InfoError>)

  /** The attributes of a trust object the classification depends on. */
  datatype TrustEntry = TrustEntry(
    partner: Option<string>,
    attributes: Option<string>,
    sid: Option<seq<Byte>>,
    forestInfo: Option<seq<Byte>>)

  function AttributesOf(e: TrustEntry): nat {
    if e.attributes.None? then 0 else ParseUint(Trim(e.attributes.value), U32_MAX).GetOr(0)
  }

  function ParseTrust(e: TrustEntry): Option<DomainTrust> {
    if e.partner.None? || Trim(e.partner.value) == "" then None
    else
      var attributes := AttributesOf(e);
      var text := if e.sid.None? then Err(SidUtil.TooShort) else SidUtil.SidOfBytes(e.sid.value);
      var sid := if text.Ok? then Some(text.value) else None;
      if !ForestTransitive(attributes) then Some(DomainTrust(Trim(e.partner.value), attributes, sid, [], None))
      else if e.forestInfo.None? then
        Some(DomainTrust(Trim(e.partner.value), attributes, sid, [], Some(NotReturned)))
      else
        match ForestTrustInfo.Parse(e.forestInfo.value)
        case Ok(domains) => Some(DomainTrust(Trim(e.partner.value), attributes, sid, domains, None))
        case Err(error) => Some(DomainTrust(Trim(e.partner.value), attributes, sid, [], Some(NotParsed(error))))
  }

  /** A trust object and the domain that holds it. */
  datatype HeldTrust = HeldTrust(trust: DomainTrust, holder: string)

  /** A directory entry of a trust object and its domain. */
  datatype HeldEntry = HeldEntry(entry: TrustEntry, holder: string)

  function HeldTrusts(entries: seq<HeldEntry>): seq<HeldTrust> {
    if entries == [] then []
    else
      var t := ParseTrust(entries[0].entry);
      (if t.Some? then [HeldTrust(t.value, entries[0].holder)] else []) + HeldTrusts(entries[1..])
  }

  datatype TrustedForest = TrustedForest(partner: string, domainSids: seq<Sid>, infoError: Option<InfoError>)

  function EnabledSids(ds: seq<ForestDomain>): seq<Sid> {
    if ds == [] then [] else (if SidEnabled(ds[0]) then [ds[0].sid] else []) + EnabledSids(ds[1..])
  }

  function ForestOf(t: DomainTrust): Option<TrustedForest> {
    if ForestTransitive(t.attributes) then Some(TrustedForest(t.partner, EnabledSids(t.forestDomains), t.infoError))
    else None
  }

  predicate ForestContains(f: TrustedForest, domain: string) {
    exists i :: 0 <= i < |f.domainSids| && EqIgnoreCase(f.domainSids[i], domain)
  }

  // ---------- Classification ----------

  /** `Domain`: the trust objects of the configured domain only, with whether
      it is the root of its forest. `Forest`: those of the whole forest. */
  datatype TrustView = Domain(isForestRoot: Option<bool>) | Forest

  /** The name of the SID's own domain: the partner of the trust, or a domain
      of its forest. */
  datatype Partner = TrustPartner(name: string) | ForestMember(dnsName: seq<Byte>)

  datatype UnknownReason =
    | NoAccountSid
    | DirectoryFailed
    | BaseNamesNoDomain
    | NoDomainSid
    | ForestsUnknown(partners: seq<string>)
    | NotForestRoot
    | ForestRootUnknown

  datatype Relation =
    | ConfiguredDomainWholeBase
    | ConfiguredDomainPartialBase
    | TrustedDomain(partner: Partner, domainSid: string, attributes: nat, forest: Option<TrustedForest>)
    | ForestDomainSidDisabled(dnsName: seq<Byte>, domainSid: string, root: string, flags: nat)
    | TrustedByForestDomain(external: string, domainSid: string, holder: string)
    | OtherDomain(domainSid: string)
    | Unknown(reason: UnknownReason)

  /** The trust object is the one of the SID's domain. */
  predicate IsDirect(h: HeldTrust, domain: string) {
    h.trust.sid.Some? && EqIgnoreCase(h.trust.sid.value, domain)
  }

  predicate NamesDomain(d: ForestDomain, domain: string) {
    EqIgnoreCase(d.sid, domain)
  }

  /** The trust is a forest trust whose information lists the SID's domain. */
  predicate Lists(h: HeldTrust, domain: string) {
    && ForestTransitive(h.trust.attributes)
    && exists j :: 0 <= j < |h.trust.forestDomains| && NamesDomain(h.trust.forestDomains[j], domain)
  }

  predicate ForestUnknown(h: HeldTrust) {
    ForestTransitive(h.trust.attributes) && h.trust.infoError.Some?
  }

  function DirectAnswer(h: HeldTrust, domain: string, view: TrustView): Relation {
    if view.Forest? && !ForestTransitive(h.trust.attributes)
    then TrustedByForestDomain(h.trust.partner, domain, h.holder)
    else TrustedDomain(TrustPartner(h.trust.partner), domain, h.trust.attributes, ForestOf(h.trust))
  }

  function ListedAnswer(t: DomainTrust, d: ForestDomain, domain: string): Relation {
    if !SidEnabled(d) then ForestDomainSidDisabled(d.dnsName, domain, t.partner, d.flags)
    else TrustedDomain(ForestMember(d.dnsName), domain, t.attributes, ForestOf(t))
  }

  function FirstDirect(ts: seq<HeldTrust>, domain: string, view: TrustView): Option<Relation> {
    if ts == [] then None
    else if IsDirect(ts[0], domain) then Some(DirectAnswer(ts[0], domain, view))
    else FirstDirect(ts[1..], domain, view)
  }

  function FindDomain(ds: seq<ForestDomain>, domain: string): Option<ForestDomain> {
    if ds == [] then None
    else if NamesDomain(ds[0], domain) then Some(ds[0])
    else FindDomain(ds[1..], domain)
  }

  function FirstListed(ts: seq<HeldTrust>, domain: string): Option<Relation> {
    if ts == [] then None
    else
      var t := ts[0].trust;
      var d := if ForestTransitive(t.attributes) then FindDomain(t.forestDomains, domain) else None;
      if d.Some? then Some(ListedAnswer(t, d.value, domain)) else FirstListed(ts[1..], domain)
  }

  function UnknownForests(ts: seq<HeldTrust>): seq<string> {
    if ts == [] then []
    else (if ForestUnknown(ts[0]) then [ts[0].trust.partner] else []) + UnknownForests(ts[1..])
  }

  function NotFound(domain: string, view: TrustView): Relation {
    if view.Forest? || view.isForestRoot == Some(true) then OtherDomain(domain)
    else if view.isForestRoot == Some(false) then Unknown(NotForestRoot)
    else Unknown(ForestRootUnknown)
  }

  function AgainstTrusts(domain: string, ts: seq<HeldTrust>, view: TrustView): Relation {
    var direct := FirstDirect(ts, domain, view);
    var listed := FirstListed(ts, domain);
    if direct.Some? then direct.value
    else if listed.Some? then listed.value
    else if UnknownForests(ts) != [] then Unknown(ForestsUnknown(UnknownForests(ts)))
    else NotFound(domain, view)
  }

  method ClassifyAgainstTrusts(domain: string, trusts: seq<HeldTrust>, view: TrustView) returns (r: Relation)
    ensures r == AgainstTrusts(domain, trusts, view)
  {
    for i := 0 to |trusts|
      invariant FirstDirect(trusts, domain, view) == FirstDirect(trusts[i..], domain, view)
    {
      if IsDirect(trusts[i], domain) {
        if view.Forest? && !ForestTransitive(trusts[i].trust.attributes) {
          return TrustedByForestDomain(trusts[i].trust.partner, domain, trusts[i].holder);
        }
        return TrustedDomain(
          TrustPartner(trusts[i].trust.partner), domain, trusts[i].trust.attributes, ForestOf(trusts[i].trust));
      }
    }
    for i := 0 to |trusts|
      invariant FirstListed(trusts, domain) == FirstListed(trusts[i..], domain)
    {
      var trust := trusts[i].trust;
      if ForestTransitive(trust.attributes) {
        var found := FindDomain(trust.forestDomains, domain);
        if found.Some? {
          var d := found.value;
          if !SidEnabled(d) {
            return ForestDomainSidDisabled(d.dnsName, domain, trust.partner, d.flags);
          }
          return TrustedDomain(ForestMember(d.dnsName), domain, trust.attributes, ForestOf(trust));
        }
      }
    }
    var unknown := UnknownForests(trusts);
    if unknown != [] {
      return Unknown(ForestsUnknown(unknown));
    }
    if view.Domain? {
      match view.isForestRoot {
        case Some(isRoot) => if !isRoot { return Unknown(NotForestRoot); }
        case None => return Unknown(ForestRootUnknown);
      }
    }
    return OtherDomain(domain);
  }

  // ---------- The directory's answers ----------

  /** What the directory answers while a SID is classified. A failed search is
      an error; `baseIsRoot` compares the configured base with the domain root
      it names; `rootIsForestRoot` is nothing when it could not be read. */
  datatype Context = Context(
    globalCatalog: bool,
    forestSids: Result<seq<string>, ()>,
    baseNamesDomain: bool,
    baseIsRoot: bool,
    domainSid: Result<Option<string>, ()>,
    trusts: Result<seq<HeldEntry>, ()>,
    rootIsForestRoot: Option<bool>)

  function ViewOf(c: Context, ts: seq<HeldTrust>): TrustView {
    if c.globalCatalog then Forest
    else if exists i :: 0 <= i < |ts| && WithinForest(ts[i].trust.attributes) then Domain(c.rootIsForestRoot)
    else Domain(Some(true))
  }

  /** A domain SID among `sids` is the domain's. */
  predicate Covered(sids: seq<string>, domain: string) {
    exists i :: 0 <= i < |sids| && IsDomainSid(sids[i]) && EqIgnoreCase(sids[i], domain)
  }

  function ClassifyWith(c: Context, domain: string): Result<Relation, ()> {
    if c.globalCatalog then
      var forest :- c.forestSids;
      if Covered(forest, domain) then Ok(ConfiguredDomainWholeBase)
      else
        var entries :- c.trusts;
        Ok(AgainstTrusts(domain, HeldTrusts(entries), Forest))
    else if !c.baseNamesDomain then Ok(Unknown(BaseNamesNoDomain))
    else
      var own :- c.domainSid;
      if own.None? || !IsDomainSid(own.value) then Ok(Unknown(NoDomainSid))
      else if EqIgnoreCase(own.value, domain) then
        Ok(if c.baseIsRoot then ConfiguredDomainWholeBase else ConfiguredDomainPartialBase)
      else
        var entries :- c.trusts;
        var ts := HeldTrusts(entries);
        Ok(AgainstTrusts(domain, ts, ViewOf(c, ts)))
  }

  function ClassifySid(c: Context, sid: Sid): Relation {
    var domain := AccountDomainOf(sid);
    if domain.None? then Unknown(NoAccountSid)
    else
      match ClassifyWith(c, domain.value)
      case Ok(r) => r
      case Err(_) => Unknown(DirectoryFailed)
  }
}
