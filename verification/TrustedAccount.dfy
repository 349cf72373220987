/** Resolving an account of a trusted domain: its groups at home, the trust's
    SID filtering, and the resource domain's groups, put together. The answers
    of the two directories are functions of the SID asked for. */
module TrustedAccount {
  import opened Wrappers
  import opened Text
  import opened Directory
  import opened Trusts
  import opened Trusted

  const THIS_ORGANIZATION := "S-1-5-15"
  const OTHER_ORGANIZATION := "S-1-5-1000"

  datatype Error = Failed(text: string) | NoSuchAccount | CrossingGroupsUnknown

  datatype HomeAccount = HomeAccount(
    name: Option<Name>, domain: Option<string>, orphaned: bool, disabled: bool, history: seq<Sid>, historyCount: nat)

  /** `tokenSetGaps`: the gaps that only concern which groups the token holds. */
  datatype HomeGroups = HomeGroups(
    memberships: seq<GroupMembership>, gaps: seq<string>, tokenSetGaps: seq<string>, excluded: seq<string>)

  datatype ResourceGroups = ResourceGroups(
    memberships: seq<GroupMembership>, gaps: seq<string>, excluded: seq<string>)

  /** The domain controller of the trusted domain and that of the resource
      domain, each answering or failing. */
  datatype Servers = Servers(
    account: Result<HomeAccount, string>,
    home: Result<HomeGroups, string>,
    globalAndUniversal: Result<Option<seq<Sid>>, string>,
    nameOf: Sid -> Option<Name>,
    present: Sid -> Result<bool, string>,
    resource: Sid -> Result<ResourceGroups, string>)

  datatype Trust = Trust(partner: string, domainSid: string, attributes: nat, forest: Option<TrustedForest>)

  datatype Gap = Stated(text: string) | NotModelled(shown: Shown)

  datatype Resolved = Resolved(
    name: Option<Name>,
    domain: string,
    disabled: bool,
    history: seq<Sid>,
    historyCount: nat,
    memberships: seq<GroupMembership>,
    gaps: seq<Gap>,
    excluded: seq<string>,
    homeOnly: seq<Shown>,
    filtered: seq<Shown>,
    selective: bool)

  // ---------- Specification ----------

  function WithoutPath(servers: Servers, account: Sid, g: Sid): GroupMembership {
    GroupMembership(account, g, false, servers.nameOf(g), None, 0, [])
  }

  function WithoutPaths(servers: Servers, account: Sid, sids: seq<Sid>): seq<GroupMembership> {
    seq(|sids|, i requires 0 <= i < |sids| => WithoutPath(servers, account, sids[i]))
  }

  /** The groups that cross, before the trust filters them. */
  function Crossing(servers: Servers, account: Sid, s: Selection): seq<GroupMembership> {
    s.kept + WithoutPaths(servers, account, s.withoutChain)
  }

  /** A SID looked up in the resource domain, with its home membership. */
  datatype Via = Via(sid: Sid, home: Option<GroupMembership>)

  /** The first membership of each group. */
  function ViasOf(ms: seq<GroupMembership>): seq<Via> {
    if ms == [] then []
    else
      var m := ms[|ms| - 1];
      var before := ms[..|ms| - 1];
      ViasOf(before) + if Upper(m.groupSid) in KeySet(SidsOf(before)) then [] else [Via(m.groupSid, Some(m))]
  }

  function Chained(account: Sid, home: Option<GroupMembership>, ms: seq<GroupMembership>): seq<GroupMembership> {
    seq(|ms|, i requires 0 <= i < |ms| => ChainThrough(account, home, ms[i]))
  }

  /** What the resource domain adds for one SID; nothing without an object. */
  function Visit(servers: Servers, account: Sid, v: Via): Result<ResourceGroups, string> {
    var present :- servers.present(v.sid);
    if !present then Ok(ResourceGroups([], [], []))
    else
      var r :- servers.resource(v.sid);
      Ok(ResourceGroups(Chained(account, v.home, r.memberships), r.gaps, r.excluded))
  }

  /** What it adds for all of them, in order; the first failure wins. */
  function VisitAll(servers: Servers, account: Sid, vias: seq<Via>): Result<ResourceGroups, string> {
    if vias == [] then Ok(ResourceGroups([], [], []))
    else
      var before :- VisitAll(servers, account, vias[..|vias| - 1]);
      var last :- Visit(servers, account, vias[|vias| - 1]);
      Ok(ResourceGroups(
        before.memberships + last.memberships, before.gaps + last.gaps, before.excluded + last.excluded))
  }

  function StatedGaps(gaps: seq<string>): seq<Gap> {
    seq(|gaps|, i requires 0 <= i < |gaps| => Stated(gaps[i]))
  }

  /** The gaps the crossing set does not settle. */
  function OpenGaps(gaps: seq<string>, settled: seq<string>): seq<string> {
    if gaps == [] then []
    else
      var g := gaps[|gaps| - 1];
      OpenGaps(gaps[..|gaps| - 1], settled) + if g in settled then [] else [g]
  }

  function NotModelledGaps(shown: seq<Shown>): seq<Gap> {
    seq(|shown|, i requires 0 <= i < |shown| => NotModelled(shown[i]))
  }

  function OrganizationOf(attributes: nat): Sid {
    if SelectiveAuthentication(attributes) then OTHER_ORGANIZATION else THIS_ORGANIZATION
  }

  /** `rank` is the rank of the organization's name among folded names. */
  function OrganizationName(attributes: nat, rank: nat): Name {
    Name(if SelectiveAuthentication(attributes) then "NT AUTHORITY\\Other Organization"
         else "NT AUTHORITY\\This Organization", rank)
  }

  function Organization(account: Sid, name: Option<Name>, attributes: nat, rank: nat): GroupMembership {
    var org := OrganizationOf(attributes);
    var orgName := Some(OrganizationName(attributes, rank));
    GroupMembership(
      account, org, true, orgName,
      Some(MembershipPath([account, org], [name, orgName], TrustedDomainLogon, true, [])), 0, [])
  }

  function RuleFor(trust: Trust): Rule {
    RuleOf(trust.domainSid, trust.attributes, trust.forest)
  }

  /** The account's SIDs before and after the trust filters them. */
  function Unfiltered(servers: Servers, sid: Sid, a: HomeAccount, h: HomeGroups, g: seq<Sid>): Token {
    Token(a.history, a.historyCount, Crossing(servers, sid, SelectionOf(h.memberships, g)))
  }

  function Assembled(
    servers: Servers, sid: Sid, trust: Trust, rank: nat, a: HomeAccount, h: HomeGroups, g: seq<Sid>): Result<Resolved, Error>
  {
    var before := Unfiltered(servers, sid, a, h, g);
    var t := FilterToken(RuleFor(trust), before);
    var outcome := OutcomeOf(RuleFor(trust), Report(RuleFor(trust), before));
    var r := VisitAll(servers, sid, [Via(sid, None)] + ViasOf(t.groups));
    if r.Err? then Err(Failed(r.error))
    else
      Ok(Resolved(
        a.name,
        a.domain.GetOr(trust.partner),
        a.disabled,
        t.history,
        t.historyCount,
        t.groups + r.value.memberships + [Organization(sid, a.name, trust.attributes, rank)],
        StatedGaps(OpenGaps(h.gaps, h.tokenSetGaps)) + NotModelledGaps(outcome.notModelled) + StatedGaps(r.value.gaps),
        h.excluded + r.value.excluded,
        SelectionOf(h.memberships, g).homeOnly,
        outcome.filtered,
        SelectiveAuthentication(trust.attributes)))
  }

  function Account(servers: Servers, sid: Sid, trust: Trust, rank: nat): Result<Resolved, Error> {
    if servers.account.Err? then Err(Failed(servers.account.error))
    else if servers.account.value.orphaned then Err(NoSuchAccount)
    else if servers.home.Err? then Err(Failed(servers.home.error))
    else if servers.globalAndUniversal.Err? then Err(Failed(servers.globalAndUniversal.error))
    else if servers.globalAndUniversal.value.None? then Err(CrossingGroupsUnknown)
    else
      Assembled(
        servers, sid, trust, rank, servers.account.value, servers.home.value, servers.globalAndUniversal.value.value)
  }

  // ---------- The operation ----------

  method ListVias(account: Sid, ms: seq<GroupMembership>) returns (vias: seq<Via>)
    ensures vias == [Via(account, None)] + ViasOf(ms)
  {
    hide Upper;
    vias := [Via(account, None)];
    var seen: set<string> := {};
    for i := 0 to |ms|
      invariant vias == [Via(account, None)] + ViasOf(ms[..i])
      invariant seen == KeySet(SidsOf(ms[..i]))
    {
      assert ms[..i + 1][..i] == ms[..i];
      KeySetSnoc(ms[..i], ms[i]);
      assert ms[..i + 1] == ms[..i] + [ms[i]];
      var key := Upper(ms[i].groupSid);
      if key !in seen {
        seen := seen + {key};
        vias := vias + [Via(ms[i].groupSid, Some(ms[i]))];
      }
    }
    assert ms[..|ms|] == ms;
  }

  method VisitResourceDomain(servers: Servers, account: Sid, vias: seq<Via>) returns (r: Result<ResourceGroups, string>)
    ensures r == VisitAll(servers, account, vias)
  {
    hide ChainThrough;
    var memberships: seq<GroupMembership>, gaps: seq<string>, excluded: seq<string> := [], [], [];
    for i := 0 to |vias|
      invariant VisitAll(servers, account, vias[..i]) == Ok(ResourceGroups(memberships, gaps, excluded))
    {
      var v := vias[i];
      assert vias[..i + 1][..i] == vias[..i];
      assert VisitAll(servers, account, vias[..i + 1]).Err? ==> VisitAll(servers, account, vias[..i + 1]) == Visit(servers, account, v);
      var present := servers.present(v.sid);
      if present.Err? {
        VisitFails(servers, account, vias, i + 1);
        return Err(present.error);
      }
      if present.value {
        var answer := servers.resource(v.sid);
        if answer.Err? {
          VisitFails(servers, account, vias, i + 1);
          return Err(answer.error);
        }
        gaps := gaps + answer.value.gaps;
        excluded := excluded + answer.value.excluded;
        memberships := memberships + Chained(account, v.home, answer.value.memberships);
      } else {
        assert memberships + [] == memberships && gaps + [] == gaps && excluded + [] == excluded;
      }
    }
    assert vias[..|vias|] == vias;
    r := Ok(ResourceGroups(memberships, gaps, excluded));
  }

  lemma {:induction false} VisitFails(servers: Servers, account: Sid, vias: seq<Via>, n: nat)
    requires n <= |vias| && VisitAll(servers, account, vias[..n]).Err?
    ensures VisitAll(servers, account, vias) == VisitAll(servers, account, vias[..n])
    decreases |vias| - n
  {
    hide Visit;
    if n == |vias| {
      assert vias[..n] == vias;
    } else {
      assert vias[..n + 1][..n] == vias[..n];
      VisitFails(servers, account, vias, n + 1);
    }
  }

  method ResolveAccount(servers: Servers, sid: Sid, trust: Trust, rank: nat) returns (r: Result<Resolved, Error>)
    ensures r == Account(servers, sid, trust, rank)
  {
    hide VisitAll, ViasOf, FilterToken, Report, SelectionOf, Organization, RuleOf, SelectiveAuthentication;
    if servers.account.Err? {
      return Err(Failed(servers.account.error));
    }
    var a := servers.account.value;
    if a.orphaned {
      return Err(NoSuchAccount);
    }
    if servers.home.Err? {
      return Err(Failed(servers.home.error));
    }
    var h := servers.home.value;
    var gaps := StatedGaps(OpenGaps(h.gaps, h.tokenSetGaps));
    if servers.globalAndUniversal.Err? {
      return Err(Failed(servers.globalAndUniversal.error));
    }
    if servers.globalAndUniversal.value.None? {
      return Err(CrossingGroupsUnknown);
    }
    var g := servers.globalAndUniversal.value.value;
    var selection := SelectCrossDomainMemberships(h.memberships, g);
    var identity := new Identity(a.history, a.historyCount);
    var list := new MembershipList(selection.kept + WithoutPaths(servers, sid, selection.withoutChain));
    assert TokenOf(identity, list) == Unfiltered(servers, sid, a, h, g);
    var filter := ApplySidFiltering(identity, list, trust.domainSid, trust.attributes, trust.forest);
    gaps := gaps + NotModelledGaps(filter.notModelled);
    var vias := ListVias(sid, list.items);
    var visited := VisitResourceDomain(servers, sid, vias);
    if visited.Err? {
      return Err(Failed(visited.error));
    }
    r := Ok(Resolved(
      a.name,
      a.domain.GetOr(trust.partner),
      a.disabled,
      identity.history,
      identity.historyCount,
      list.items + visited.value.memberships + [Organization(sid, a.name, trust.attributes, rank)],
      gaps + StatedGaps(visited.value.gaps),
      h.excluded + visited.value.excluded,
      selection.homeOnly,
      filter.filtered,
      SelectiveAuthentication(trust.attributes)));
  }
}
