/** The token of an account of a trusted domain: which SIDs it holds, why, and
    what is said about those it does not. */
module TrustedAccountFacts {
  import opened Wrappers
  import opened Text
  import opened Directory
  import opened Trusts
  import TrustFacts
  import opened Trusted
  import opened TrustedFacts
  import opened TrustedAccount

  // ---------- Upper-casing a SID ----------

  lemma UpperTwice(s: string)
    ensures Upper(Upper(s)) == Upper(s)
  {
  }

  function UpperParts(parts: seq<string>): seq<string> {
    seq(|parts|, i requires 0 <= i < |parts| => Upper(parts[i]))
  }

  lemma {:induction false} SplitUpper(s: string, sep: char)
    requires UpperChar(sep) == sep && forall c :: UpperChar(c) == sep ==> c == sep
    ensures Split(Upper(s), sep) == UpperParts(Split(s, sep))
  {
    if s != "" {
      var u := Upper(s);
      SplitUpper(s[1..], sep);
      assert u[1..] == Upper(s[1..]) && u[0] == UpperChar(s[0]);
      TrustFacts.SplitCons(s, sep);
      TrustFacts.SplitCons(u, sep);
      GrowUpper(s[0], sep, Split(s[1..], sep));
      hide *;
    }
  }

  /** One character in front of the parts, before and after upper-casing. */
  lemma GrowUpper(c: char, sep: char, parts: seq<string>)
    requires |parts| > 0 && UpperChar(sep) == sep && (UpperChar(c) == sep ==> c == sep)
    ensures TrustFacts.Grow(UpperChar(c), sep, UpperParts(parts)) == UpperParts(TrustFacts.Grow(c, sep, parts))
  {
    hide UpperChar;
    assert Upper("") == "";
    assert Upper([c] + parts[0]) == [UpperChar(c)] + Upper(parts[0]);
    hide Upper;
    assert UpperParts(parts)[1..] == UpperParts(parts[1..]);
  }

  lemma {:induction false} JoinUpper(parts: seq<string>, sep: char)
    requires |parts| > 0 && UpperChar(sep) == sep
    ensures Join(UpperParts(parts), sep) == Upper(Join(parts, sep))
  {
    if |parts| > 1 {
      JoinUpper(parts[1..], sep);
      assert UpperParts(parts)[1..] == UpperParts(parts[1..]);
      assert Upper(parts[0] + [sep] + Join(parts[1..], sep)) == Upper(parts[0]) + [sep] + Upper(Join(parts[1..], sep));
    }
  }

  /** A numeral has no letters. */
  lemma NumeralUpper(p: string)
    ensures ParseUint(Upper(p), U32_MAX) == ParseUint(p, U32_MAX)
    ensures forall t :: AllDigits(t) ==> (Upper(p) == t <==> p == t)
  {
    var u := Upper(p);
    forall i | 0 <= i < |p| ensures IsDigit(u[i]) <==> IsDigit(p[i]) {
    }
    forall i | 0 <= i < |p| && IsDigit(u[i]) ensures u[i] == p[i] {
    }
    forall t | AllDigits(t) && (u == t || p == t) ensures u == p {
      assert forall i :: 0 <= i < |p| ==> u[i] == p[i];
    }
    var d := if p != "" && p[0] == '+' then p[1..] else p;
    var e := if u != "" && u[0] == '+' then u[1..] else u;
    assert |d| == |e| && forall i :: 0 <= i < |d| ==> (IsDigit(d[i]) <==> IsDigit(e[i])) && (IsDigit(d[i]) ==> d[i] == e[i]);
    if AllDigits(d) {
      assert d == e;
    }
  }

  lemma NumbersUpper(parts: seq<string>)
    ensures Numbers(UpperParts(parts)) <==> Numbers(parts)
  {
    var ups := UpperParts(parts);
    forall i | 0 <= i < |parts| ensures ParseUint(ups[i], U32_MAX) == ParseUint(parts[i], U32_MAX) {
      NumeralUpper(parts[i]);
    }
    hide ParseUint, Upper;
  }

  /** Upper-casing a part does not make or break a given numeral. */
  lemma LiteralUpper(p: string, numeral: string)
    requires AllDigits(numeral)
    ensures Upper(p) == numeral <==> p == numeral
  {
    NumeralUpper(p);
    hide Upper, ParseUint;
  }

  lemma HeadUpper(parts: seq<string>)
    requires |parts| >= 4
    ensures var ups := UpperParts(parts);
      && (EqIgnoreCase(ups[0], "S") <==> EqIgnoreCase(parts[0], "S"))
      && (ups[1] == "1" <==> parts[1] == "1") && (ups[2] == "5" <==> parts[2] == "5") && (ups[3] == "21" <==> parts[3] == "21")
  {
    assert AllDigits("1") && AllDigits("5") && AllDigits("21");
    UpperTwice(parts[0]);
    LiteralUpper(parts[1], "1");
    LiteralUpper(parts[2], "5");
    LiteralUpper(parts[3], "21");
    hide Upper, AllDigits;
  }

  lemma DomainPartsUpper(parts: seq<string>)
    ensures DomainParts(UpperParts(parts)) <==> DomainParts(parts)
  {
    if |parts| >= 4 {
      HeadUpper(parts);
      NumbersUpper(parts[4..]);
      hide Upper, Numbers, EqIgnoreCase;
      assert UpperParts(parts)[4..] == UpperParts(parts[4..]);
    }
  }

  /** Case does not change the domain of a SID. */
  lemma DomainUpper(sid: Sid)
    ensures AccountDomainOf(Upper(sid)).Some? <==> AccountDomainOf(sid).Some?
    ensures AccountDomainOf(sid).Some? ==> AccountDomainOf(Upper(sid)).value == Upper(AccountDomainOf(sid).value)
  {
    var parts := Split(sid, '-');
    SplitUpper(sid, '-');
    DomainPartsUpper(parts);
    assert UpperChar('-') == '-';
    hide Split, DomainParts, Upper, Join, UpperChar;
    if |parts| == 8 {
      JoinUpper(parts[..7], '-');
      assert UpperParts(parts[..7]) == UpperParts(parts)[..7];
    }
  }

  /** The trust's decision does not depend on the case of the SID. */
  lemma PassesUpper(r: Rule, sid: Sid)
    ensures Passes(r, Upper(sid)) <==> Passes(r, sid)
  {
    DomainUpper(sid);
    if AccountDomainOf(sid).Some? {
      UpperTwice(AccountDomainOf(sid).value);
    }
    hide AccountDomainOf, Upper;
  }

  // ---------- The groups that cross ----------

  lemma {:induction false} PassingKeys(r: Rule, ms: seq<GroupMembership>, k: string)
    ensures k in KeySet(SidsOf(PassingGroups(r, ms))) <==> k in KeySet(SidsOf(ms)) && Passes(r, k)
  {
    if ms != [] {
      hide *;
      var front, m := ms[..|ms| - 1], ms[|ms| - 1];
      assert ms == front + [m];
      PassingKeys(r, front, k);
      GroupsLast(r, front, m);
      KeySetSnoc(front, m);
      KeySetSnoc(PassingGroups(r, front), m);
      PassesUpper(r, m.groupSid);
      assert PassingGroups(r, front) + [] == PassingGroups(r, front);
    } else {
      assert SidsOf(ms) == [];
    }
  }

  lemma CrossingKeys(servers: Servers, sid: Sid, s: Selection)
    ensures KeySet(SidsOf(Crossing(servers, sid, s))) == KeySet(SidsOf(s.kept)) + KeySet(s.withoutChain)
  {
    var w := WithoutPaths(servers, sid, s.withoutChain);
    assert SidsOf(w) == s.withoutChain;
    assert SidsOf(s.kept + w) == SidsOf(s.kept) + SidsOf(w);
    KeySetAppend(SidsOf(s.kept), SidsOf(w));
  }

  /** The home groups in the token are exactly those the domain controller
      hands to other domains and the trust lets through. */
  lemma CrossingGroupsExact(
    servers: Servers, sid: Sid, rule: Rule, a: HomeAccount, h: HomeGroups, g: seq<Sid>, k: string)
    ensures k in KeySet(SidsOf(FilterToken(rule, Unfiltered(servers, sid, a, h, g)).groups))
      <==> k in KeySet(g) && Passes(rule, k)
  {
    var t := Unfiltered(servers, sid, a, h, g);
    var s := SelectionOf(h.memberships, g);
    SelectionIsTheGlobalSet(h.memberships, g);
    CrossingKeys(servers, sid, s);
    PassingKeys(rule, t.groups, k);
    HistoriesExact(rule, PassingGroups(rule, t.groups));
    assert FilterToken(rule, t).groups == FilterHistories(rule, PassingGroups(rule, t.groups));
    hide *;
  }

  // ---------- The SIDs looked up in the resource domain ----------

  predicate HasKey(vias: seq<Via>, k: string) {
    exists i :: 0 <= i < |vias| && Upper(vias[i].sid) == k
  }

  /** Every group that passed is looked up once, as itself. */
  lemma {:induction false} ViasExact(ms: seq<GroupMembership>)
    ensures forall k :: HasKey(ViasOf(ms), k) <==> k in KeySet(SidsOf(ms))
    ensures forall i, j :: 0 <= i < j < |ViasOf(ms)| ==> Upper(ViasOf(ms)[i].sid) != Upper(ViasOf(ms)[j].sid)
    ensures forall v :: v in ViasOf(ms) ==> v.home.Some? && v.home.value in ms && v.sid == v.home.value.groupSid
  {
    hide Upper;
    if ms != [] {
      var front, m := ms[..|ms| - 1], ms[|ms| - 1];
      assert ms == front + [m];
      ViasExact(front);
      KeySetSnoc(front, m);
      var before, key := ViasOf(front), Upper(m.groupSid);
      var v := Via(m.groupSid, Some(m));
      assert ViasOf(ms) == before + if key in KeySet(SidsOf(front)) then [] else [v];
      hide KeySet, SidsOf, ViasOf;
      forall k ensures HasKey(ViasOf(ms), k) <==> k in KeySet(SidsOf(ms)) {
        assert HasKey(before + [v], k) <==> HasKey(before, k) || k == key by {
          assert (before + [v])[|before|] == v;
          assert forall i :: 0 <= i < |before| ==> (before + [v])[i] == before[i];
        }
        assert before + [] == before;
      }
      forall i | 0 <= i < |before| ensures HasKey(before, Upper(before[i].sid)) {
      }
    }
  }

  /** What the visits yield together is what each of them yields. */
  lemma {:induction false} VisitAllExact(servers: Servers, account: Sid, vias: seq<Via>)
    ensures VisitAll(servers, account, vias).Ok? <==> forall v :: v in vias ==> Visit(servers, account, v).Ok?
    ensures VisitAll(servers, account, vias).Ok? ==>
      var r := VisitAll(servers, account, vias).value;
      && (forall m :: m in r.memberships <==>
            exists v :: v in vias && m in Visit(servers, account, v).value.memberships)
      && (forall g :: g in r.gaps <==> exists v :: v in vias && g in Visit(servers, account, v).value.gaps)
      && (forall x :: x in r.excluded <==> exists v :: v in vias && x in Visit(servers, account, v).value.excluded)
  {
    hide Visit;
    if vias != [] {
      var front, v := vias[..|vias| - 1], vias[|vias| - 1];
      assert vias == front + [v];
      VisitAllExact(servers, account, front);
    }
  }

  // ---------- The whole token ----------

  /** The answers that make up a successful resolution. */
  predicate Answered(servers: Servers) {
    && servers.account.Ok? && !servers.account.value.orphaned
    && servers.home.Ok?
    && servers.globalAndUniversal.Ok? && servers.globalAndUniversal.value.Some?
  }

  function Passed(servers: Servers, sid: Sid, trust: Trust): Token
    requires Answered(servers)
  {
    FilterToken(
      RuleFor(trust),
      Unfiltered(servers, sid, servers.account.value, servers.home.value, servers.globalAndUniversal.value.value))
  }

  function Vias(servers: Servers, sid: Sid, trust: Trust): seq<Via>
    requires Answered(servers)
  {
    [Via(sid, None)] + ViasOf(Passed(servers, sid, trust).groups)
  }

  /** Resolution succeeds exactly when every answer it needs arrives; none is
      guessed. */
  lemma SucceedsExactly(servers: Servers, sid: Sid, trust: Trust, rank: nat)
    ensures Account(servers, sid, trust, rank).Ok? <==>
      && Answered(servers)
      && forall v :: v in Vias(servers, sid, trust) ==> Visit(servers, sid, v).Ok?
  {
    if Answered(servers) {
      VisitAllExact(servers, sid, Vias(servers, sid, trust));
    }
    hide VisitAll, Visit, FilterToken, Unfiltered, Report, RuleFor, ViasOf, SelectionOf, Organization, OutcomeOf;
  }

  /** The parts of a successful result. */
  lemma PartsOf(servers: Servers, sid: Sid, trust: Trust, rank: nat)
    requires Account(servers, sid, trust, rank).Ok?
    ensures Answered(servers)
    ensures VisitAll(servers, sid, Vias(servers, sid, trust)).Ok?
    ensures var r := Account(servers, sid, trust, rank).value;
      var home := servers.home.value;
      var visited := VisitAll(servers, sid, Vias(servers, sid, trust)).value;
      var outcome := OutcomeOf(RuleFor(trust), Report(RuleFor(trust),
        Unfiltered(servers, sid, servers.account.value, home, servers.globalAndUniversal.value.value)));
      && r.memberships == Passed(servers, sid, trust).groups + visited.memberships
           + [Organization(sid, servers.account.value.name, trust.attributes, rank)]
      && r.gaps == StatedGaps(OpenGaps(home.gaps, home.tokenSetGaps)) + NotModelledGaps(outcome.notModelled)
           + StatedGaps(visited.gaps)
      && r.filtered == outcome.filtered
  {
    hide VisitAll, Visit, FilterToken, Unfiltered, Report, RuleFor, ViasOf, SelectionOf, Organization, OutcomeOf, OpenGaps;
  }

  /** A resource-domain group found through the foreign security principal of
      the account or of a group that passed the trust. */
  predicate ThroughResource(servers: Servers, sid: Sid, trust: Trust, g: Sid)
    requires Answered(servers)
  {
    exists v :: && v in Vias(servers, sid, trust) && servers.present(v.sid) == Ok(true)
                && servers.resource(v.sid).Ok? && g in SidsOf(servers.resource(v.sid).value.memberships)
  }

  lemma VisitSids(servers: Servers, account: Sid, v: Via, g: Sid)
    requires Visit(servers, account, v).Ok?
    ensures g in SidsOf(Visit(servers, account, v).value.memberships) <==>
      && servers.present(v.sid) == Ok(true)
      && servers.resource(v.sid).Ok? && g in SidsOf(servers.resource(v.sid).value.memberships)
  {
    if servers.present(v.sid) == Ok(true) {
      var ms := servers.resource(v.sid).value.memberships;
      forall i | 0 <= i < |ms| ensures ChainThrough(account, v.home, ms[i]).groupSid == ms[i].groupSid {
      }
      hide ChainThrough;
      assert SidsOf(Chained(account, v.home, ms)) == SidsOf(ms);
    }
  }

  lemma SidsMember(ms: seq<GroupMembership>, g: Sid)
    ensures g in SidsOf(ms) <==> exists m :: m in ms && m.groupSid == g
  {
    if g in SidsOf(ms) {
      var i :| 0 <= i < |SidsOf(ms)| && SidsOf(ms)[i] == g;
      assert ms[i] in ms;
    }
    if m :| m in ms && m.groupSid == g {
      var i :| 0 <= i < |ms| && ms[i] == m;
      assert SidsOf(ms)[i] == g;
    }
  }

  /** The token holds exactly: the home groups that cross and pass, the
      resource groups reached through them or through the account, and one of
      the two organization SIDs. */
  lemma TokenIsExact(servers: Servers, sid: Sid, trust: Trust, rank: nat, g: Sid)
    requires Account(servers, sid, trust, rank).Ok?
    ensures Answered(servers)
    ensures g in SidsOf(Account(servers, sid, trust, rank).value.memberships) <==>
      || g in SidsOf(Passed(servers, sid, trust).groups)
      || ThroughResource(servers, sid, trust, g)
      || g == OrganizationOf(trust.attributes)
    ensures Upper(g) in KeySet(SidsOf(Passed(servers, sid, trust).groups)) <==>
      Upper(g) in KeySet(servers.globalAndUniversal.value.value) && Passes(RuleFor(trust), g)
  {
    PartsOf(servers, sid, trust, rank);
    var vias := Vias(servers, sid, trust);
    VisitAllExact(servers, sid, vias);
    var passed, visited := Passed(servers, sid, trust).groups, VisitAll(servers, sid, vias).value.memberships;
    var org := Organization(sid, servers.account.value.name, trust.attributes, rank);
    assert org.groupSid == OrganizationOf(trust.attributes);
    CrossingGroupsExact(servers, sid, RuleFor(trust), servers.account.value, servers.home.value,
                        servers.globalAndUniversal.value.value, Upper(g));
    PassesUpper(RuleFor(trust), g);
    assert g in SidsOf(visited) <==> ThroughResource(servers, sid, trust, g) by {
      ResourceSids(servers, sid, trust, visited, g);
    }
    SidsMember(passed + visited + [org], g);
    SidsMember(passed, g);
    SidsMember(visited, g);
    hide *;
  }

  lemma ResourceSids(servers: Servers, sid: Sid, trust: Trust, visited: seq<GroupMembership>, g: Sid)
    requires Answered(servers)
    requires forall v :: v in Vias(servers, sid, trust) ==> Visit(servers, sid, v).Ok?
    requires forall m :: m in visited <==>
      exists v :: v in Vias(servers, sid, trust) && m in Visit(servers, sid, v).value.memberships
    ensures g in SidsOf(visited) <==> ThroughResource(servers, sid, trust, g)
  {
    var vias := Vias(servers, sid, trust);
    hide Vias, Visit, SidsOf;
    SidsMember(visited, g);
    if g in SidsOf(visited) {
      var m :| m in visited && m.groupSid == g;
      var v :| v in vias && m in Visit(servers, sid, v).value.memberships;
      SidsMember(Visit(servers, sid, v).value.memberships, g);
      VisitSids(servers, sid, v, g);
    }
    if ThroughResource(servers, sid, trust, g) {
      var v :| && v in vias && servers.present(v.sid) == Ok(true)
               && servers.resource(v.sid).Ok? && g in SidsOf(servers.resource(v.sid).value.memberships);
      VisitSids(servers, sid, v, g);
      SidsMember(Visit(servers, sid, v).value.memberships, g);
    }
  }

  // ---------- Paths ----------

  /** Both directories report real paths, and the logon puts the account into
      its organization. */
  ghost predicate Truthful(servers: Servers, sid: Sid, trust: Trust, member: Direct) {
    && (servers.home.Ok? ==> forall m :: m in servers.home.value.memberships ==> Honest(member, m, sid))
    && (forall s :: servers.resource(s).Ok? ==>
          forall m :: m in servers.resource(s).value.memberships ==> Honest(member, m, s))
    && member(sid, OrganizationOf(trust.attributes))
  }

  lemma {:induction false} KeptFrom(ms: seq<GroupMembership>, crossing: set<string>)
    ensures forall m :: m in Kept(ms, crossing) ==> m in ms
  {
    hide Upper;
    if ms != [] {
      KeptFrom(ms[..|ms| - 1], crossing);
    }
  }

  lemma PassedIsHonest(servers: Servers, sid: Sid, trust: Trust, member: Direct)
    requires Answered(servers) && Truthful(servers, sid, trust, member)
    ensures forall m :: m in Passed(servers, sid, trust).groups ==> Honest(member, m, sid)
  {
    var rule := RuleFor(trust);
    var home, g := servers.home.value.memberships, servers.globalAndUniversal.value.value;
    var kept, w := Kept(home, KeySet(g)), WithoutPaths(servers, sid, SelectionOf(home, g).withoutChain);
    assert Unfiltered(servers, sid, servers.account.value, servers.home.value, g).groups == kept + w;
    assert forall m :: m in home ==> Honest(member, m, sid);
    assert Passed(servers, sid, trust).groups == FilterHistories(rule, PassingGroups(rule, kept + w));
    GroupsExact(rule, kept + w);
    KeptFrom(home, KeySet(g));
    WithoutPathsHonest(servers, sid, SelectionOf(home, g).withoutChain, member);
    hide *;
    assert forall m :: m in kept + w ==> Honest(member, m, sid);
    FilterKeepsHonest(rule, PassingGroups(rule, kept + w), member, sid);
  }

  lemma WithoutPathsHonest(servers: Servers, sid: Sid, sids: seq<Sid>, member: Direct)
    ensures forall m :: m in WithoutPaths(servers, sid, sids) ==> Honest(member, m, sid)
  {
    hide RealPath;
  }

  lemma FilterKeepsHonest(rule: Rule, ms: seq<GroupMembership>, member: Direct, sid: Sid)
    requires forall m :: m in ms ==> Honest(member, m, sid)
    ensures forall m :: m in FilterHistories(rule, ms) ==> Honest(member, m, sid)
  {
    hide Passing, RealPath;
    forall m | m in FilterHistories(rule, ms) ensures Honest(member, m, sid) {
      var i :| 0 <= i < |ms| && m == FilterHistory(rule, ms[i]);
      assert ms[i] in ms;
    }
  }

  /** Every complete path of the token is a chain of real memberships from the
      account to the group, across the trust. */
  lemma PathsAreReal(servers: Servers, sid: Sid, trust: Trust, rank: nat, member: Direct, m: GroupMembership)
    requires Account(servers, sid, trust, rank).Ok? && Truthful(servers, sid, trust, member)
    requires m in Account(servers, sid, trust, rank).value.memberships
    ensures Honest(member, m, sid)
  {
    PartsOf(servers, sid, trust, rank);
    var vias := Vias(servers, sid, trust);
    VisitAllExact(servers, sid, vias);
    PassedIsHonest(servers, sid, trust, member);
    ViasExact(Passed(servers, sid, trust).groups);
    OrganizationIsHonest(servers, sid, trust, rank, member);
    hide VisitAll, Visit, ViasOf, Passed, Organization, Account, Honest;
    if m in VisitAll(servers, sid, vias).value.memberships {
      var v :| v in vias && m in Visit(servers, sid, v).value.memberships;
      assert v.home.Some? ==> v.home.value in Passed(servers, sid, trust).groups && v.sid == v.home.value.groupSid;
      VisitIsHonest(servers, sid, trust, member, v, m);
    }
  }

  lemma OrganizationIsHonest(servers: Servers, sid: Sid, trust: Trust, rank: nat, member: Direct)
    requires Answered(servers) && member(sid, OrganizationOf(trust.attributes))
    ensures Honest(member, Organization(sid, servers.account.value.name, trust.attributes, rank), sid)
  {
  }

  lemma VisitIsHonest(servers: Servers, sid: Sid, trust: Trust, member: Direct, v: Via, m: GroupMembership)
    requires Truthful(servers, sid, trust, member)
    requires v.home.Some? ==> Honest(member, v.home.value, sid) && v.sid == v.home.value.groupSid
    requires v.home.None? ==> v.sid == sid
    requires Visit(servers, sid, v).Ok? && m in Visit(servers, sid, v).value.memberships
    ensures Honest(member, m, sid)
  {
    hide Honest, ChainThrough;
    var ms := servers.resource(v.sid).value.memberships;
    var i :| 0 <= i < |ms| && m == ChainThrough(sid, v.home, ms[i]);
    assert ms[i] in ms;
    ChainThroughIsHonest(member, sid, v.home, ms[i]);
  }

  // ---------- What is said about the rest ----------

  lemma {:induction false} OpenGapsExact(gaps: seq<string>, settled: seq<string>, x: string)
    ensures x in OpenGaps(gaps, settled) <==> x in gaps && x !in settled
  {
    if gaps != [] {
      OpenGapsExact(gaps[..|gaps| - 1], settled, x);
      assert gaps == gaps[..|gaps| - 1] + [gaps[|gaps| - 1]];
    }
  }

  lemma StatedIn(gaps: seq<string>, x: string)
    ensures Stated(x) in StatedGaps(gaps) <==> x in gaps
  {
    if x in gaps {
      var i :| 0 <= i < |gaps| && gaps[i] == x;
      assert StatedGaps(gaps)[i] == Stated(x);
    }
  }

  lemma NotModelledIn(shown: seq<Shown>, d: Shown)
    ensures NotModelled(d) in NotModelledGaps(shown) <==> d in shown
  {
    if d in shown {
      var i :| 0 <= i < |shown| && shown[i] == d;
      assert NotModelledGaps(shown)[i] == NotModelled(d);
    }
  }

  predicate ResourceGap(servers: Servers, account: Sid, vias: seq<Via>, x: string) {
    exists v :: v in vias && Visit(servers, account, v).Ok? && x in Visit(servers, account, v).value.gaps
  }

  /** Every SID the filtering reports is named: as filtered under quarantine,
      else as a gap. Every gap of the home domain that the crossing set does
      not settle, and every gap of the resource domain, is passed on; no other
      gap is stated. */
  lemma ReportsAreNamed(servers: Servers, sid: Sid, trust: Trust, rank: nat)
    requires Account(servers, sid, trust, rank).Ok?
    ensures Answered(servers)
    ensures var r := Account(servers, sid, trust, rank).value;
      var home := servers.home.value;
      var report := Report(RuleFor(trust),
        Unfiltered(servers, sid, servers.account.value, home, servers.globalAndUniversal.value.value));
      && (forall d :: d in report <==> d in r.filtered || NotModelled(d) in r.gaps)
      && (RuleFor(trust).quarantined ==> forall d :: NotModelled(d) !in r.gaps)
      && (!RuleFor(trust).quarantined ==> r.filtered == [])
      && (forall x :: Stated(x) in r.gaps <==>
            || (x in home.gaps && x !in home.tokenSetGaps)
            || ResourceGap(servers, sid, Vias(servers, sid, trust), x))
  {
    PartsOf(servers, sid, trust, rank);
    var vias := Vias(servers, sid, trust);
    VisitAllExact(servers, sid, vias);
    var r := Account(servers, sid, trust, rank).value;
    var home := servers.home.value;
    var rule := RuleFor(trust);
    var report := Report(rule,
      Unfiltered(servers, sid, servers.account.value, home, servers.globalAndUniversal.value.value));
    var outcome := OutcomeOf(rule, report);
    var visited := VisitAll(servers, sid, vias).value.gaps;
    var open := OpenGaps(home.gaps, home.tokenSetGaps);
    assert forall x :: x in visited <==> ResourceGap(servers, sid, vias, x);
    hide VisitAll, Visit, Account, Vias, RuleFor, Unfiltered, Report, OpenGaps, ResourceGap;
    assert r.gaps == StatedGaps(open) + NotModelledGaps(outcome.notModelled) + StatedGaps(visited);
    forall d ensures NotModelled(d) in r.gaps <==> d in outcome.notModelled {
      NotModelledIn(outcome.notModelled, d);
    }
    forall x ensures Stated(x) in r.gaps <==> x in open || x in visited {
      StatedIn(open, x);
      StatedIn(visited, x);
    }
    forall x ensures x in open <==> x in home.gaps && x !in home.tokenSetGaps {
      OpenGapsExact(home.gaps, home.tokenSetGaps, x);
    }
  }

  // ---------- What is said about every SID ----------

  /** The SIDs named in a list of gaps. */
  function NamedGaps(gaps: seq<Gap>): seq<Shown> {
    if gaps == [] then [] else NamedGap(gaps[0]) + NamedGaps(gaps[1..])
  }

  function NamedGap(gap: Gap): seq<Shown> {
    if gap.NotModelled? then [gap.shown] else []
  }

  /** Every SID the result names as taken out. */
  function Named(r: Resolved): seq<Shown> {
    r.filtered + NamedGaps(r.gaps)
  }

  lemma {:induction false} NamedAppend(a: seq<Gap>, b: seq<Gap>)
    ensures NamedGaps(a + b) == NamedGaps(a) + NamedGaps(b)
  {
    hide *;
    if a == [] {
      assert a + b == b;
      NamedNone();
    } else {
      var first, rest := a[0], a[1..];
      assert a == [first] + rest;
      NamedAppend(rest, b);
      NamedFirst(first, rest);
      NamedBoth(first, rest, b);
    }
  }

  lemma NamedNone()
    ensures NamedGaps([]) == []
  {
  }

  lemma NamedBoth(first: Gap, rest: seq<Gap>, b: seq<Gap>)
    requires NamedGaps(rest + b) == NamedGaps(rest) + NamedGaps(b)
    ensures NamedGaps(([first] + rest) + b) == (NamedGap(first) + NamedGaps(rest)) + NamedGaps(b)
  {
    hide *;
    assert ([first] + rest) + b == [first] + (rest + b);
    NamedFirst(first, rest + b);
    var x, y, z := NamedGap(first), NamedGaps(rest), NamedGaps(b);
    assert (x + y) + z == x + (y + z);
  }

  lemma NamedFirst(gap: Gap, gaps: seq<Gap>)
    ensures NamedGaps([gap] + gaps) == NamedGap(gap) + NamedGaps(gaps)
  {
    hide NamedGap;
    assert ([gap] + gaps)[1..] == gaps;
  }

  lemma {:induction false} NamedStated(gaps: seq<string>)
    ensures NamedGaps(StatedGaps(gaps)) == []
  {
    if gaps != [] {
      NamedStated(gaps[1..]);
      assert StatedGaps(gaps)[1..] == StatedGaps(gaps[1..]);
    }
  }

  lemma {:induction false} NamedNotModelled(shown: seq<Shown>)
    ensures NamedGaps(NotModelledGaps(shown)) == shown
  {
    if shown != [] {
      NamedNotModelled(shown[1..]);
      assert NotModelledGaps(shown)[1..] == NotModelledGaps(shown[1..]);
    }
  }

  lemma NamedIsReport(rule: Rule, report: seq<Shown>, stated: seq<string>, visited: seq<string>)
    ensures var o := OutcomeOf(rule, report);
      o.filtered + NamedGaps(StatedGaps(stated) + NotModelledGaps(o.notModelled) + StatedGaps(visited)) == report
  {
    var o := OutcomeOf(rule, report);
    NamedAppend(StatedGaps(stated) + NotModelledGaps(o.notModelled), StatedGaps(visited));
    NamedAppend(StatedGaps(stated), NotModelledGaps(o.notModelled));
    NamedStated(stated);
    NamedStated(visited);
    NamedNotModelled(o.notModelled);
    hide NamedGaps, StatedGaps, NotModelledGaps;
  }

  /** The account's SIDs before the trust filters them. */
  function Before(servers: Servers, sid: Sid): Token
    requires Answered(servers)
  {
    Unfiltered(servers, sid, servers.account.value, servers.home.value, servers.globalAndUniversal.value.value)
  }

  /** Every SID the account brings remains in the token or is named. */
  ghost predicate NothingIsSilent(servers: Servers, sid: Sid, trust: Trust, r: Resolved)
    requires Answered(servers)
  {
    AllSids(Before(servers, sid)) == AllSids(Passed(servers, sid, trust)) + multiset(ShownSids(Named(r)))
  }

  /** A home group that crosses, is dropped by the trust and has historical SIDs. */
  predicate DropsHistory(servers: Servers, trust: Trust, m: GroupMembership)
    requires Answered(servers)
  {
    Upper(m.groupSid) in KeySet(servers.globalAndUniversal.value.value) && TakesHistory(RuleFor(trust), m)
  }

  lemma {:induction false} KeptMembers(ms: seq<GroupMembership>, crossing: set<string>, m: GroupMembership)
    ensures m in Kept(ms, crossing) <==> m in ms && Upper(m.groupSid) in crossing
  {
    hide Upper;
    if ms != [] {
      KeptMembers(ms[..|ms| - 1], crossing, m);
      assert ms == ms[..|ms| - 1] + [ms[|ms| - 1]];
    }
  }

  /** The groups that take their histories along, among all that cross. */
  lemma TakenFromHome(servers: Servers, sid: Sid, trust: Trust)
    requires Answered(servers)
    ensures (forall m :: m in Before(servers, sid).groups ==> !TakesHistory(RuleFor(trust), m))
      <==> forall m :: m in servers.home.value.memberships ==> !DropsHistory(servers, trust, m)
  {
    var home, global := servers.home.value.memberships, servers.globalAndUniversal.value.value;
    var kept, w := Kept(home, KeySet(global)), WithoutPaths(servers, sid, SelectionOf(home, global).withoutChain);
    assert Before(servers, sid).groups == kept + w;
    forall m ensures m in kept <==> m in home && Upper(m.groupSid) in KeySet(global) {
      KeptMembers(home, KeySet(global), m);
    }
    assert forall m :: m in w ==> m.history == [];
    hide Before, Kept, WithoutPaths, RuleFor, KeySet, Upper, Passes;
    assert forall m :: m in kept + w <==> m in kept || m in w;
  }

  /** Every SID the account brings remains or is named, if and only if no home
      group that crosses and is dropped has historical SIDs. */
  lemma NothingIsSilentExactly(servers: Servers, sid: Sid, trust: Trust, rank: nat)
    requires Account(servers, sid, trust, rank).Ok?
    ensures Answered(servers)
    ensures NothingIsSilent(servers, sid, trust, Account(servers, sid, trust, rank).value)
      <==> forall m :: m in servers.home.value.memberships ==> !DropsHistory(servers, trust, m)
  {
    NamedIsReportOf(servers, sid, trust, rank);
    var before, rule := Before(servers, sid), RuleFor(trust);
    assert Passed(servers, sid, trust) == FilterToken(rule, before);
    FilterIsSilentUnless(rule, before);
    TakenFromHome(servers, sid, trust);
    hide AllSids, FilterToken, Report, ShownSids, Account, Passed, Named, Before, RuleFor, DropsHistory, TakesHistory;
  }

  // ---------- An account that loses a SID ----------

  const DOMAIN := "S-1-5-21-1-2-3"
  const HISTORICAL := "S-1-5-21-1-2-3-500"

  lemma DomainIsDomain()
    ensures IsDomainSid(DOMAIN) && AccountDomainOf(HISTORICAL) == Some(DOMAIN)
  {
    hide *;
    DomainShape();
    Numerals();
    TrustFacts.DomainOfAccount(DOMAIN, "500");
    HistoricalText();
  }

  lemma HistoricalText()
    ensures DOMAIN + "-" + "500" == HISTORICAL
  {
  }

  lemma DomainShape()
    ensures IsDomainSid(DOMAIN)
  {
    hide Split, DomainParts, DOMAIN;
    DomainSplits();
    PartsShape();
  }

  lemma PartsShape()
    ensures DomainParts(["S", "1", "5", "21", "1", "2", "3"])
  {
    var parts := ["S", "1", "5", "21", "1", "2", "3"];
    Numerals();
    hide ParseUint, Upper;
    var tail := parts[4..];
    assert |tail| == 3 && tail[0] == "1" && tail[1] == "2" && tail[2] == "3";
  }

  lemma DomainSplits()
    ensures Split(DOMAIN, '-') == ["S", "1", "5", "21", "1", "2", "3"]
  {
    var parts := ["S", "1", "5", "21", "1", "2", "3"];
    forall p | p in parts ensures '-' !in p {
    }
    hide *;
    DomainText();
    SplitJoin(parts, '-');
  }

  lemma DomainText()
    ensures Join(["S", "1", "5", "21", "1", "2", "3"], '-') == DOMAIN
  {
    DomainHead();
    hide Join;
    var a := ["S", "1", "5", "21"];
    JoinAppend(a, "1", '-');
    var b := a + ["1"];
    JoinAppend(b, "2", '-');
    var c := b + ["2"];
    JoinAppend(c, "3", '-');
    assert c + ["3"] == ["S", "1", "5", "21", "1", "2", "3"];
  }

  lemma DomainHead()
    ensures Join(["S", "1", "5", "21"], '-') == "S-1-5-21"
  {
    var a := ["S"];
    assert Join(a, '-') == "S";
    hide Join;
    JoinAppend(a, "1", '-');
    var b := a + ["1"];
    JoinAppend(b, "5", '-');
    var c := b + ["5"];
    JoinAppend(c, "21", '-');
    assert c + ["21"] == ["S", "1", "5", "21"];
  }

  lemma Numerals()
    ensures ParseUint("1", U32_MAX).Some? && ParseUint("2", U32_MAX).Some? && ParseUint("3", U32_MAX).Some?
    ensures ParseUint("500", U32_MAX).Some?
  {
    assert "1"[..0] == "" && "2"[..0] == "" && "3"[..0] == "";
    assert "500"[..2] == "50" && "50"[..1] == "5" && "5"[..0] == "";
    assert Value("5") == 5 && Value("50") == 50 && Value("500") == 500;
  }

  /** A group of another domain whose historical SID is of the trusted one. */
  function Migrated(): GroupMembership {
    GroupMembership("U", "G", false, None, None, 1, [HISTORICAL])
  }

  function MigratedServers(): Servers {
    Servers(
      Ok(HomeAccount(None, None, false, false, [], 0)),
      Ok(HomeGroups([Migrated()], [], [], [])),
      Ok(Some(["G"])),
      _ => None,
      _ => Ok(false),
      _ => Err(""))
  }

  function MigratedTrust(): Trust {
    Trust("partner", DOMAIN, 0, None)
  }

  lemma MigratedPasses()
    ensures var r := RuleFor(MigratedTrust());
      !Passes(r, "G") && Passes(r, HISTORICAL)
  {
    hide AccountDomainOf, DOMAIN, HISTORICAL;
    DomainIsDomain();
    NoDomain();
  }

  lemma NoDomain()
    ensures AccountDomainOf("G") == None
  {
    hide DomainParts;
    SplitPart("G", '-');
  }

  /** Its historical SID, which the trust lets through, is neither kept nor named. */
  lemma MigratedSidIsLost(rank: nat)
    ensures var servers, sid, trust := MigratedServers(), "U", MigratedTrust();
      && Account(servers, sid, trust, rank).Ok? && Answered(servers)
      && !NothingIsSilent(servers, sid, trust, Account(servers, sid, trust, rank).value)
      && HISTORICAL in AllSids(Before(servers, sid))
      && HISTORICAL !in AllSids(Passed(servers, sid, trust))
      && Passes(RuleFor(trust), HISTORICAL)
      && forall d :: d in Named(Account(servers, sid, trust, rank).value) ==> d.sid != HISTORICAL
  {
    var servers, sid, trust := MigratedServers(), "U", MigratedTrust();
    MigratedToken();
    MigratedPasses();
    MigratedResolves(rank);
    PassingSidIsLost(RuleFor(trust), Migrated(), HISTORICAL);
    NothingIsSilentExactly(servers, sid, trust, rank);
    MigratedDrops();
    MigratedNamed(rank);
    hide *;
  }

  lemma OneCrosses(m: GroupMembership)
    ensures SelectionOf([m], [m.groupSid]).kept == [m] && SelectionOf([m], [m.groupSid]).withoutChain == []
  {
    var ms, keys := [m], KeySet([m.groupSid]);
    KeySetOne(m.groupSid);
    assert SidsOf(ms) == [m.groupSid];
    hide Upper, KeySet, SidsOf;
    assert Kept(ms, keys) == ms by {
      assert Kept([], keys) == [] && ms[..0] == [];
    }
    assert WithoutChain([m.groupSid], keys) == [] by {
      assert WithoutChain([], keys) == [] && [m.groupSid][..0] == [];
    }
  }

  lemma MigratedToken()
    ensures Answered(MigratedServers()) && Before(MigratedServers(), "U") == Token([], 0, [Migrated()])
    ensures Passed(MigratedServers(), "U", MigratedTrust()) == FilterToken(RuleFor(MigratedTrust()), Token([], 0, [Migrated()]))
    ensures Migrated().groupSid == "G" && Migrated().history == [HISTORICAL]
  {
    OneCrosses(Migrated());
    hide SelectionOf, FilterToken, RuleFor, HISTORICAL;
  }

  lemma MigratedDrops()
    ensures Answered(MigratedServers()) && Migrated() in MigratedServers().home.value.memberships
    ensures DropsHistory(MigratedServers(), MigratedTrust(), Migrated())
  {
    MigratedPasses();
    KeySetOne("G");
    hide Passes, Upper, KeySet;
  }

  lemma MigratedResolves(rank: nat)
    ensures Account(MigratedServers(), "U", MigratedTrust(), rank).Ok?
  {
    var servers := MigratedServers();
    MigratedToken();
    forall v | v in Vias(servers, "U", MigratedTrust()) ensures Visit(servers, "U", v).Ok? {
    }
    SucceedsExactly(servers, "U", MigratedTrust(), rank);
  }

  lemma MigratedNamed(rank: nat)
    ensures Account(MigratedServers(), "U", MigratedTrust(), rank).Ok?
    ensures Named(Account(MigratedServers(), "U", MigratedTrust(), rank).value)
         == Report(RuleFor(MigratedTrust()), Token([], 0, [Migrated()]))
  {
    var servers, trust := MigratedServers(), MigratedTrust();
    MigratedResolves(rank);
    MigratedToken();
    NamedIsReportOf(servers, "U", trust, rank);
    hide *;
  }

  lemma NamedIsReportOf(servers: Servers, sid: Sid, trust: Trust, rank: nat)
    requires Account(servers, sid, trust, rank).Ok?
    ensures Answered(servers)
    ensures Named(Account(servers, sid, trust, rank).value) == Report(RuleFor(trust), Before(servers, sid))
  {
    PartsOf(servers, sid, trust, rank);
    NamedIsReport(
      RuleFor(trust), Report(RuleFor(trust), Before(servers, sid)),
      OpenGaps(servers.home.value.gaps, servers.home.value.tokenSetGaps),
      VisitAll(servers, sid, Vias(servers, sid, trust)).value.gaps);
    hide Report, ShownSids, Account, VisitAll, Vias, OpenGaps, StatedGaps, NotModelledGaps, NamedGaps, OutcomeOf, Unfiltered, RuleFor;
  }
}
