/** Accounts of a trusted domain: which groups cross the trust, the trust's
    SID filtering, and the groups of the resource domain reached through the
    foreign security principals of the remaining SIDs. */
module Trusted {
  import opened Wrappers
  import opened Text
  import opened Directory
  import opened Trusts

  // ---------- Step 1: the groups that cross the trust ----------

  /** SIDs are compared without case. */
  function KeySet(sids: seq<Sid>): set<string> {
    set i | 0 <= i < |sids| :: Upper(sids[i])
  }

  function SidsOf(ms: seq<GroupMembership>): seq<Sid> {
    seq(|ms|, i requires 0 <= i < |ms| => ms[i].groupSid)
  }

  /** What a reported SID is: a group, the account's own history, or the
      history of a group. */
  datatype Origin = OfGroup | OfAccountHistory | OfHistory(group: Sid)

  datatype Shown = Shown(sid: Sid, name: Option<Name>, origin: Origin)

  datatype Selection = Selection(kept: seq<GroupMembership>, homeOnly: seq<Shown>, withoutChain: seq<Sid>)

  function Kept(ms: seq<GroupMembership>, crossing: set<string>): seq<GroupMembership> {
    if ms == [] then []
    else
      var m := ms[|ms| - 1];
      Kept(ms[..|ms| - 1], crossing) + if Upper(m.groupSid) in crossing then [m] else []
  }

  /** The first membership of each group that does not cross. */
  function HomeOnly(ms: seq<GroupMembership>, crossing: set<string>): seq<Shown> {
    if ms == [] then []
    else
      var m := ms[|ms| - 1];
      var before := ms[..|ms| - 1];
      HomeOnly(before, crossing)
      + if Upper(m.groupSid) in crossing + KeySet(SidsOf(before)) then []
        else [Shown(m.groupSid, m.groupName, OfGroup)]
  }

  function WithoutChain(sids: seq<Sid>, keys: set<string>): seq<Sid> {
    if sids == [] then []
    else
      var s := sids[|sids| - 1];
      WithoutChain(sids[..|sids| - 1], keys) + if Upper(s) in keys then [] else [s]
  }

  function SelectionOf(ms: seq<GroupMembership>, global: seq<Sid>): Selection {
    var kept := Kept(ms, KeySet(global));
    Selection(kept, HomeOnly(ms, KeySet(global)), WithoutChain(global, KeySet(SidsOf(kept))))
  }

  method SelectCrossDomainMemberships(ms: seq<GroupMembership>, global: seq<Sid>) returns (out: Selection)
    ensures out == SelectionOf(ms, global)
  {
    var crossing := KeySet(global);
    var kept: seq<GroupMembership>, homeOnly: seq<Shown>, withoutChain: seq<Sid> := [], [], [];
    var seenHome: set<string>, seenKept: set<string> := {}, {};
    hide Upper;
    for i := 0 to |ms|
      invariant kept == Kept(ms[..i], crossing)
      invariant homeOnly == HomeOnly(ms[..i], crossing)
      invariant seenKept == KeySet(SidsOf(kept))
      invariant seenHome == KeySet(SidsOf(ms[..i])) - crossing
    {
      assert ms[..i + 1][..i] == ms[..i];
      var m := ms[i];
      var key := Upper(m.groupSid);
      KeySetSnoc(ms[..i], m);
      KeySetSnoc(kept, m);
      assert ms[..i + 1] == ms[..i] + [m];
      if key in crossing {
        seenKept := seenKept + {key};
        kept := kept + [m];
      } else if key !in seenHome {
        seenHome := seenHome + {key};
        homeOnly := homeOnly + [Shown(m.groupSid, m.groupName, OfGroup)];
      }
    }
    assert ms[..|ms|] == ms;
    for i := 0 to |global|
      invariant withoutChain == WithoutChain(global[..i], seenKept)
    {
      assert global[..i + 1][..i] == global[..i];
      if Upper(global[i]) !in seenKept {
        withoutChain := withoutChain + [global[i]];
      }
    }
    assert global[..|global|] == global;
    out := Selection(kept, homeOnly, withoutChain);
  }

  lemma KeySetSnoc(ms: seq<GroupMembership>, m: GroupMembership)
    ensures KeySet(SidsOf(ms + [m])) == KeySet(SidsOf(ms)) + {Upper(m.groupSid)}
  {
    hide Upper;
    var a, b := SidsOf(ms + [m]), SidsOf(ms);
    assert a == b + [m.groupSid];
    assert forall i :: 0 <= i < |b| ==> a[i] == b[i];
    assert a[|b|] == m.groupSid;
  }

  // ---------- Step 2: SID filtering ----------

  /** What lets a SID pass the trust. */
  datatype Rule = Rule(domain: string, quarantined: bool, forest: Option<TrustedForest>)

  /** Quarantine counts only on a trust that is no forest trust, the domains
      of a forest only on one that is. */
  function RuleOf(domain: string, attributes: nat, forest: Option<TrustedForest>): Rule {
    Rule(
      domain,
      QuarantinedDomain(attributes) && !ForestTransitive(attributes),
      if ForestTransitive(attributes) then forest else None)
  }

  predicate OfDomain(sid: Sid, domain: string) {
    AccountDomainOf(sid).Some? && EqIgnoreCase(AccountDomainOf(sid).value, domain)
  }

  predicate Passes(r: Rule, sid: Sid) {
    || OfDomain(sid, r.domain)
    || (r.forest.Some? && AccountDomainOf(sid).Some? && ForestContains(r.forest.value, AccountDomainOf(sid).value))
  }

  function SaturatingSub(a: nat, b: nat): nat {
    if a < b then 0 else a - b
  }

  /** The SIDs of a token the trust can filter. */
  datatype Token = Token(history: seq<Sid>, historyCount: nat, groups: seq<GroupMembership>)

  function Passing(r: Rule, sids: seq<Sid>): (kept: seq<Sid>)
    ensures |kept| <= |sids|
  {
    if sids == [] then []
    else
      var s := sids[|sids| - 1];
      Passing(r, sids[..|sids| - 1]) + if Passes(r, s) then [s] else []
  }

  function Dropped(r: Rule, sids: seq<Sid>, name: Option<Name>, origin: Origin): seq<Shown> {
    if sids == [] then []
    else
      var s := sids[|sids| - 1];
      Dropped(r, sids[..|sids| - 1], name, origin) + if Passes(r, s) then [] else [Shown(s, name, origin)]
  }

  function PassingGroups(r: Rule, ms: seq<GroupMembership>): seq<GroupMembership> {
    if ms == [] then []
    else
      var m := ms[|ms| - 1];
      PassingGroups(r, ms[..|ms| - 1]) + if Passes(r, m.groupSid) then [m] else []
  }

  function DroppedGroups(r: Rule, ms: seq<GroupMembership>): seq<Shown> {
    if ms == [] then []
    else
      var m := ms[|ms| - 1];
      DroppedGroups(r, ms[..|ms| - 1])
      + if Passes(r, m.groupSid) then [] else [Shown(m.groupSid, m.groupName, OfGroup)]
  }

  function FilterHistory(r: Rule, m: GroupMembership): GroupMembership {
    m.(history := Passing(r, m.history),
       historyCount := SaturatingSub(m.historyCount, |m.history| - |Passing(r, m.history)|))
  }

  function FilterHistories(r: Rule, ms: seq<GroupMembership>): seq<GroupMembership> {
    seq(|ms|, i requires 0 <= i < |ms| => FilterHistory(r, ms[i]))
  }

  function DroppedHistories(r: Rule, ms: seq<GroupMembership>): seq<Shown> {
    if ms == [] then []
    else
      var m := ms[|ms| - 1];
      DroppedHistories(r, ms[..|ms| - 1]) + Dropped(r, m.history, m.groupName, OfHistory(m.groupSid))
  }

  function FilterToken(r: Rule, t: Token): Token {
    Token(
      Passing(r, t.history),
      SaturatingSub(t.historyCount, |t.history| - |Passing(r, t.history)|),
      FilterHistories(r, PassingGroups(r, t.groups)))
  }

  /** Everything the filtering takes out, in the order it is taken out. */
  function Report(r: Rule, t: Token): seq<Shown> {
    Dropped(r, t.history, None, OfAccountHistory)
    + DroppedGroups(r, t.groups)
    + DroppedHistories(r, PassingGroups(r, t.groups))
  }

  datatype Outcome = Outcome(filtered: seq<Shown>, notModelled: seq<Shown>)

  function OutcomeOf(r: Rule, report: seq<Shown>): Outcome {
    if r.quarantined then Outcome(report, []) else Outcome([], report)
  }

  method RetainSids(r: Rule, sids: seq<Sid>, name: Option<Name>, origin: Origin)
    returns (kept: seq<Sid>, dropped: seq<Shown>)
    ensures kept == Passing(r, sids) && dropped == Dropped(r, sids, name, origin)
  {
    hide Passes;
    kept, dropped := [], [];
    for i := 0 to |sids|
      invariant kept == Passing(r, sids[..i]) && dropped == Dropped(r, sids[..i], name, origin)
    {
      assert sids[..i + 1][..i] == sids[..i];
      if Passes(r, sids[i]) {
        kept := kept + [sids[i]];
      } else {
        dropped := dropped + [Shown(sids[i], name, origin)];
      }
    }
    assert sids[..|sids|] == sids;
  }

  class Identity {
    var history: seq<Sid>
    var historyCount: nat

    constructor (values: seq<Sid>, count: nat)
      ensures history == values && historyCount == count
    {
      history := values;
      historyCount := count;
    }
  }

  class MembershipList {
    var items: seq<GroupMembership>

    constructor (ms: seq<GroupMembership>)
      ensures items == ms
    {
      items := ms;
    }
  }

  ghost function TokenOf(identity: Identity, list: MembershipList): Token
    reads identity, list
  {
    Token(identity.history, identity.historyCount, list.items)
  }

  /** Takes the SIDs the trust does not let through out of the identity and
      its memberships. */
  method ApplySidFiltering(
    identity: Identity, list: MembershipList, domain: string, attributes: nat, forest: Option<TrustedForest>)
    returns (out: Outcome)
    modifies identity, list
    ensures TokenOf(identity, list) == FilterToken(RuleOf(domain, attributes, forest), old(TokenOf(identity, list)))
    ensures out == OutcomeOf(
      RuleOf(domain, attributes, forest), Report(RuleOf(domain, attributes, forest), old(TokenOf(identity, list))))
  {
    var r := RuleOf(domain, attributes, forest);
    hide Passes, RuleOf;
    var before := |identity.history|;
    var kept, report := RetainSids(r, identity.history, None, OfAccountHistory);
    identity.history := kept;
    var removed := before - |identity.history|;
    identity.historyCount := SaturatingSub(identity.historyCount, removed);
    var groups := RetainGroups(r, list);
    var values := RetainHistories(r, list);
    report := report + groups + values;
    out := if r.quarantined then Outcome(report, []) else Outcome([], report);
  }

  method RetainGroups(r: Rule, list: MembershipList) returns (dropped: seq<Shown>)
    modifies list
    ensures list.items == PassingGroups(r, old(list.items)) && dropped == DroppedGroups(r, old(list.items))
  {
    hide Passes;
    var all := list.items;
    var kept: seq<GroupMembership> := [];
    dropped := [];
    for i := 0 to |all|
      invariant kept == PassingGroups(r, all[..i]) && dropped == DroppedGroups(r, all[..i])
      invariant list.items == all
    {
      assert all[..i + 1][..i] == all[..i];
      if Passes(r, all[i].groupSid) {
        kept := kept + [all[i]];
      } else {
        dropped := dropped + [Shown(all[i].groupSid, all[i].groupName, OfGroup)];
      }
    }
    assert all[..|all|] == all;
    list.items := kept;
  }

  method RetainHistories(r: Rule, list: MembershipList) returns (report: seq<Shown>)
    modifies list
    ensures list.items == FilterHistories(r, old(list.items)) && report == DroppedHistories(r, old(list.items))
  {
    hide Passes, Passing, Dropped;
    ghost var groups := list.items;
    report := [];
    for i := 0 to |list.items|
      invariant |list.items| == |groups|
      invariant forall k :: 0 <= k < i ==> list.items[k] == FilterHistory(r, groups[k])
      invariant forall k :: i <= k < |groups| ==> list.items[k] == groups[k]
      invariant report == DroppedHistories(r, groups[..i])
    {
      assert groups[..i + 1][..i] == groups[..i];
      var m := list.items[i];
      var values, dropped := RetainSids(r, m.history, m.groupName, OfHistory(m.groupSid));
      var removed := |m.history| - |values|;
      report := report + dropped;
      list.items := list.items[i := m.(history := values, historyCount := SaturatingSub(m.historyCount, removed))];
    }
    assert groups[..|groups|] == groups;
  }

  // ---------- Step 3: the resource domain ----------

  function Resized(names: seq<Option<Name>>, n: nat): seq<Option<Name>> {
    seq(n, i requires 0 <= i < n => if i < |names| then names[i] else None)
  }

  /** Continues a resource-domain path that starts at a group from the
      account's home path to that group. */
  function Splice(home: MembershipPath, resource: MembershipPath): MembershipPath {
    var names := Resized(resource.names, |resource.nodes|);
    MembershipPath(
      home.nodes + Tail(resource.nodes),
      Resized(home.names, |home.nodes|) + Tail(names),
      DomainGroup,
      home.complete && resource.complete,
      resource.alsoVia)
  }

  function Tail<T>(s: seq<T>): seq<T> {
    if s == [] then [] else s[1..]
  }

  function ChainThrough(account: Sid, home: Option<GroupMembership>, resource: GroupMembership): GroupMembership {
    if home.None? then resource.(memberSid := account)
    else
      resource.(
        memberSid := account,
        direct := false,
        path := if home.value.path.Some? && resource.path.Some?
                then Some(Splice(home.value.path.value, resource.path.value)) else None)
  }
}
