/** Assembly of a principal's group memberships from the raw directory
    answers: the closure, the groups left out of the token, the gaps and one
    membership per remaining group with its chain. */
module Assembly {
  import opened Wrappers
  import opened SortedSets
  import opened Directory
  import opened Routes
  import opened RouteSearch
  import opened RouteChains

  /** The primary group: its SID and, when it could be read, its entry. */
  datatype Primary = Primary(sid: Sid, entry: Option<RawEntry>)

  datatype Input = Input(
    sid: Sid,
    principal: RawEntry,
    primary: Option<Primary>,
    transitive: seq<RawEntry>,
    pgParents: seq<RawEntry>)

  /** A group left out of the token: a distribution group itself, or reached
      only through one. */
  datatype Exclusion = Distribution(dn: Dn) | OnlyThroughDistribution(dn: Dn)

  /** A reason why the token may be incomplete. */
  datatype Gap = UnknownType(dns: set<Dn>) | WithoutSid(dns: set<Dn>) | Outside(dns: set<Dn>)

  datatype Assembled = Assembled(
    memberships: seq<GroupMembership>,
    gaps: seq<Gap>,
    excluded: seq<Exclusion>,
    tokenSetGaps: seq<Gap>)

  const USIZE_MAX: nat := 0xFFFF_FFFF_FFFF_FFFF

  // ---------- Closure ----------

  function PrimaryEntry(inp: Input): Option<RawEntry> {
    if inp.primary.Some? then inp.primary.value.entry else None
  }

  function PrimarySid(inp: Input): Option<Sid> {
    if inp.primary.Some? then Some(inp.primary.value.sid) else None
  }

  /** All entries in the order they are read; the primary group's comes last. */
  function Entries(inp: Input): seq<RawEntry> {
    inp.transitive + inp.pgParents + if PrimaryEntry(inp).Some? then [PrimaryEntry(inp).value] else []
  }

  function GroupOf(inp: Input, i: nat): ClosureGroup
    requires i < |Entries(inp)| && Entries(inp)[i].sid.Some?
  {
    var e := Entries(inp)[i];
    var security := if i >= |inp.transitive| + |inp.pgParents| then Some(true) else GroupIsSecurity(e);
    ClosureGroup(e.sid.value, e.name, SortedMemberOf(e), security, e.historyCount, e.history)
  }

  /** The closure and the groups without a readable SID after `n` entries. */
  function Scan(inp: Input, n: nat): (Closure, set<Dn>)
    requires n <= |Entries(inp)|
  {
    if n == 0 then (map[], {})
    else
      var (closure, withoutSid) := Scan(inp, n - 1);
      var e := Entries(inp)[n - 1];
      if e.dn in closure then (closure, withoutSid)
      else if e.sid.None? then (closure, withoutSid + {e.dn})
      else if e.sid.value == inp.sid then (closure, withoutSid)
      else (closure[e.dn := GroupOf(inp, n - 1)], withoutSid)
  }

  function FullClosure(inp: Input): Closure {
    Scan(inp, |Entries(inp)|).0
  }

  function NoSid(inp: Input): set<Dn> {
    Scan(inp, |Entries(inp)|).1
  }

  method ScanEntries(inp: Input) returns (closure: Closure, withoutSid: set<Dn>)
    ensures closure == FullClosure(inp) && withoutSid == NoSid(inp)
  {
    closure, withoutSid := map[], {};
    var entries := Entries(inp);
    for i := 0 to |entries|
      invariant (closure, withoutSid) == Scan(inp, i)
    {
      var e := entries[i];
      if e.dn !in closure {
        if e.sid.None? {
          withoutSid := withoutSid + {e.dn};
        } else if e.sid.value != inp.sid {
          closure := closure[e.dn := GroupOf(inp, i)];
        }
      }
    }
  }

  // ---------- Groups that are not in the token ----------

  /** Hop-1 groups: the principal's direct groups and its primary group. */
  function Seeds(inp: Input): set<Dn> {
    ToSet(inp.principal.memberOf) + if PrimaryEntry(inp).Some? then {PrimaryEntry(inp).value.dn} else {}
  }

  function Candidates(c: Closure): Closure {
    map dn | dn in c && c[dn].security != Some(false) :: c[dn]
  }

  ghost predicate Excluded(c: Closure, seeds: set<Dn>, dn: Dn) {
    && dn in c
    && (|| c[dn].security == Some(false)
        || (!Reachable(Candidates(c), seeds, dn) && Reachable(c, seeds, dn)))
  }

  ghost function ExcludedDns(c: Closure, seeds: set<Dn>): set<Dn> {
    set dn | dn in c && Excluded(c, seeds, dn)
  }

  /** The groups whose memberships are emitted. */
  ghost function Kept(c: Closure, seeds: set<Dn>): Closure {
    map dn | dn in c && !Excluded(c, seeds, dn) :: c[dn]
  }

  ghost function UnknownTypes(c: Closure, seeds: set<Dn>): set<Dn> {
    set dn | dn in Kept(c, seeds) && c[dn].security.None?
  }

  /** The excluded groups among the first `n` keys, in order. */
  ghost function ExcludedUpTo(c: Closure, seeds: set<Dn>, keys: seq<Dn>, n: nat): seq<Exclusion>
    requires n <= |keys| && forall i :: 0 <= i < |keys| ==> keys[i] in c
  {
    if n == 0 then []
    else
      ExcludedUpTo(c, seeds, keys, n - 1) +
      if !Excluded(c, seeds, keys[n - 1]) then []
      else if c[keys[n - 1]].security == Some(false) then [Distribution(keys[n - 1])]
      else [OnlyThroughDistribution(keys[n - 1])]
  }

  lemma SortedKeysIn(c: Closure)
    ensures forall i :: 0 <= i < |SortedSeq(c.Keys)| ==> SortedSeq(c.Keys)[i] in c
  {
    forall i | 0 <= i < |SortedSeq(c.Keys)| ensures SortedSeq(c.Keys)[i] in c {
      assert SortedSeq(c.Keys)[i] in ToSet(SortedSeq(c.Keys));
    }
  }

  ghost function ExcludedList(c: Closure, seeds: set<Dn>): seq<Exclusion> {
    SortedKeysIn(c);
    ExcludedUpTo(c, seeds, SortedSeq(c.Keys), |SortedSeq(c.Keys)|)
  }

  /** The two route tables the exclusion compares. */
  ghost predicate BothRoutes(c: Closure, seeds: set<Dn>, full: map<Dn, nat>, secure: map<Dn, nat>) {
    && (forall dn :: dn in c ==> (dn in full <==> Reachable(c, seeds, dn)))
    && (forall dn :: dn in c ==> (dn in secure <==> Reachable(Candidates(c), seeds, dn)))
  }

  method ListExcluded(c: Closure, ghost seeds: set<Dn>, full: map<Dn, nat>, secure: map<Dn, nat>)
    returns (excluded: seq<Exclusion>, unknownType: set<Dn>)
    requires BothRoutes(c, seeds, full, secure)
    ensures excluded == ExcludedList(c, seeds)
    ensures unknownType == UnknownTypes(c, seeds)
  {
    excluded, unknownType := [], {};
    var keys := SortedSeq(c.Keys);
    SortedKeysIn(c);
    for i := 0 to |keys|
      invariant excluded == ExcludedUpTo(c, seeds, keys, i)
      invariant forall dn :: dn in unknownType ==> dn in UnknownTypes(c, seeds)
      invariant forall j :: 0 <= j < i && keys[j] in UnknownTypes(c, seeds) ==> keys[j] in unknownType
    {
      var dn := keys[i];
      if c[dn].security == Some(false) {
        excluded := excluded + [Distribution(dn)];
      } else if dn !in secure && dn in full {
        excluded := excluded + [OnlyThroughDistribution(dn)];
      } else if c[dn].security.None? {
        unknownType := unknownType + {dn};
      }
    }
    assert forall dn :: dn in c ==> dn in ToSet(keys);
  }

  lemma TablesAreRoutes(c: Closure, seeds: set<Dn>)
    ensures BothRoutes(c, seeds, Table(c, seeds).dist, Table(Candidates(c), seeds).dist)
  {
    forall dn | dn in c
      ensures dn in Dist(c, seeds) <==> Reachable(c, seeds, dn)
      ensures dn in Dist(Candidates(c), seeds) <==> Reachable(Candidates(c), seeds, dn)
    {
      DistIsShortest(c, seeds, dn);
      DistIsShortest(Candidates(c), seeds, dn);
    }
  }

  method Reduce(c: Closure, ghost seeds: set<Dn>, full: map<Dn, nat>, secure: map<Dn, nat>)
    returns (kept: Closure, excludedDns: set<Dn>)
    requires BothRoutes(c, seeds, full, secure)
    ensures kept == Kept(c, seeds)
    ensures excludedDns == ExcludedDns(c, seeds)
  {
    var candidates := Candidates(c);
    excludedDns := set dn | dn in c && (c[dn].security == Some(false) || (dn !in secure && dn in full));
    kept := map dn | dn in candidates && dn !in excludedDns :: candidates[dn];
  }

  method ExcludeGroups(c: Closure, seeds: set<Dn>)
    returns (kept: Closure, excluded: seq<Exclusion>, excludedDns: set<Dn>, unknownType: set<Dn>)
    ensures kept == Kept(c, seeds)
    ensures excluded == ExcludedList(c, seeds)
    ensures excludedDns == ExcludedDns(c, seeds)
    ensures unknownType == UnknownTypes(c, seeds)
  {
    var full := Build(c, seeds);
    var secure := Build(Candidates(c), seeds);
    TablesAreRoutes(c, seeds);
    excluded, unknownType := ListExcluded(c, seeds, full.dist, secure.dist);
    kept, excludedDns := Reduce(c, seeds, full.dist, secure.dist);
  }

  // ---------- Gaps ----------

  /** Every group the principal or a kept group is a direct member of. */
  function Targets(inp: Input, kept: Closure): set<Dn> {
    ToSet(inp.principal.memberOf) + set k, dn | k in kept && dn in kept[k].parents :: dn
  }

  function OutsideDns(inp: Input, kept: Closure, excluded: set<Dn>, withoutSid: set<Dn>): set<Dn> {
    set dn | dn in Targets(inp, kept) && dn !in kept && dn !in excluded && dn != inp.principal.dn && dn !in withoutSid
  }

  method FindOutside(inp: Input, kept: Closure, excluded: set<Dn>, withoutSid: set<Dn>) returns (outside: set<Dn>)
    ensures outside == OutsideDns(inp, kept, excluded, withoutSid)
  {
    outside := {};
    var targets := SortedSeq(Targets(inp, kept));
    for i := 0 to |targets|
      invariant forall dn :: dn in outside <==> dn in targets[..i] && dn in OutsideDns(inp, kept, excluded, withoutSid)
    {
      var dn := targets[i];
      assert dn in ToSet(targets);
      if dn !in kept && dn !in excluded && dn != inp.principal.dn && dn !in withoutSid {
        outside := outside + {dn};
      }
    }
    assert targets[..|targets|] == targets;
    assert forall dn :: dn in Targets(inp, kept) ==> dn in ToSet(targets);
  }

  function GapsOf(unknownType: set<Dn>, withoutSid: set<Dn>, outside: set<Dn>): seq<Gap> {
    (if unknownType == {} then [] else [UnknownType(unknownType)]) +
    (if withoutSid == {} then [] else [WithoutSid(withoutSid)]) +
    (if outside == {} then [] else [Outside(outside)])
  }

  // ---------- Memberships ----------

  function Hops(kept: Closure, dns: seq<Dn>): seq<MembershipHop> {
    if dns == [] then []
    else
      (if dns[0] in kept then [MembershipHop(kept[dns[0]].sid, kept[dns[0]].name)] else []) + Hops(kept, dns[1..])
  }

  function PrimaryMembership(inp: Input, kept: Closure, t: RouteTable): GroupMembership
    requires inp.primary.Some?
  {
    var pg := inp.primary.value;
    var name := if pg.entry.Some? then pg.entry.value.name else None;
    var alsoVia := if pg.entry.Some? then Hops(kept, OtherEntries(t, pg.entry.value.dn, None)) else [];
    GroupMembership(inp.sid, pg.sid, true, name,
                    Some(MembershipPath([inp.sid, pg.sid], [inp.principal.name, name], PrimaryGroup, true, alsoVia)),
                    if pg.entry.Some? then pg.entry.value.historyCount else 0,
                    if pg.entry.Some? then pg.entry.value.history else [])
  }

  function Sids(kept: Closure, dns: seq<Dn>): seq<Sid> {
    if dns == [] then [] else (if dns[0] in kept then [kept[dns[0]].sid] else []) + Sids(kept, dns[1..])
  }

  function Labels(kept: Closure, dns: seq<Dn>): seq<Option<Name>> {
    if dns == [] then [] else (if dns[0] in kept then [kept[dns[0]].name] else []) + Labels(kept, dns[1..])
  }

  function PathOf(inp: Input, kept: Closure, t: RouteTable, dn: Dn): MembershipPath
    requires dn in kept
  {
    match ChainFrom(t, dn, 1)
    case Some(chain) =>
      var lastHop := if |chain| >= 2 then Some(chain[|chain| - 2]) else None;
      MembershipPath([inp.sid] + Sids(kept, chain), [inp.principal.name] + Labels(kept, chain),
                     DomainGroup, true, Hops(kept, OtherEntries(t, dn, lastHop)))
    case None =>
      MembershipPath([inp.sid, kept[dn].sid], [inp.principal.name, kept[dn].name],
                     LdapMatchingRule, false, Hops(kept, OtherEntries(t, dn, None)))
  }

  function MembershipOf(inp: Input, kept: Closure, t: RouteTable, dn: Dn): GroupMembership
    requires dn in kept
  {
    GroupMembership(inp.sid, kept[dn].sid, dn in inp.principal.memberOf, kept[dn].name,
                    Some(PathOf(inp, kept, t, dn)), kept[dn].historyCount, kept[dn].history)
  }

  /** Output order: hop distance (unreached last), lower-cased name, DN. */
  predicate Before(kept: Closure, t: RouteTable, a: Dn, b: Dn)
    requires a in kept && b in kept
  {
    var da := if a in t.dist then t.dist[a] else USIZE_MAX;
    var db := if b in t.dist then t.dist[b] else USIZE_MAX;
    var na := if kept[a].name.Some? then kept[a].name.value.fold else 0;
    var nb := if kept[b].name.Some? then kept[b].name.value.fold else 0;
    da < db || (da == db && (na < nb || (na == nb && a <= b)))
  }

  predicate IsFirst(kept: Closure, t: RouteTable, s: set<Dn>, m: Dn)
    requires s <= kept.Keys
  {
    m in s && forall x :: x in s ==> Before(kept, t, m, x)
  }

  lemma {:induction false} FirstExists(kept: Closure, t: RouteTable, s: set<Dn>)
    requires s <= kept.Keys && s != {}
    ensures exists m :: IsFirst(kept, t, s, m)
    decreases s
  {
    var x :| x in s;
    if s == {x} {
      assert IsFirst(kept, t, s, x);
    } else {
      FirstExists(kept, t, s - {x});
      var m :| IsFirst(kept, t, s - {x}, m);
      var first := if Before(kept, t, m, x) then m else x;
      forall y | y in s ensures Before(kept, t, first, y) {
        if y != x {
          assert y in s - {x} && Before(kept, t, m, y);
        }
      }
      assert IsFirst(kept, t, s, first);
    }
  }

  /** The groups of `s` in output order: the result of a sort by `Before`. */
  function InOrder(kept: Closure, t: RouteTable, s: set<Dn>): (r: seq<Dn>)
    requires s <= kept.Keys
    ensures ToSet(r) == s && |r| == |s|
    decreases |s|
  {
    if s == {} then []
    else
      FirstExists(kept, t, s);
      var m :| IsFirst(kept, t, s, m);
      var rest := InOrder(kept, t, s - {m});
      assert ToSet([m] + rest) == {m} + ToSet(rest);
      [m] + rest
  }

  /** Every kept group except the primary group. */
  function Rest(inp: Input, kept: Closure): set<Dn> {
    set dn | dn in kept && Some(kept[dn].sid) != PrimarySid(inp)
  }

  function EmitsPrimary(inp: Input): bool {
    inp.primary.Some? && inp.primary.value.sid != inp.sid
  }

  /** The kept groups except the primary group, in output order. */
  function OutputOrder(inp: Input, kept: Closure, t: RouteTable): (r: seq<Dn>)
    ensures ToSet(r) == Rest(inp, kept) && |r| == |Rest(inp, kept)|
    ensures forall i :: 0 <= i < |r| ==> r[i] in kept
  {
    var r := InOrder(kept, t, Rest(inp, kept));
    assert forall i :: 0 <= i < |r| ==> r[i] in ToSet(r);
    r
  }

  function RestList(inp: Input, kept: Closure, t: RouteTable, order: seq<Dn>): seq<GroupMembership>
    requires forall i :: 0 <= i < |order| ==> order[i] in kept
  {
    seq(|order|, i requires 0 <= i < |order| => MembershipOf(inp, kept, t, order[i]))
  }

  function MembershipList(inp: Input, kept: Closure, t: RouteTable): seq<GroupMembership> {
    (if EmitsPrimary(inp) then [PrimaryMembership(inp, kept, t)] else []) +
    RestList(inp, kept, t, OutputOrder(inp, kept, t))
  }

  method FindPath(inp: Input, kept: Closure, t: RouteTable, dn: Dn) returns (path: MembershipPath)
    requires dn in kept
    ensures path == PathOf(inp, kept, t, dn)
  {
    hide ChainFrom, Hops, OtherEntries;
    var r := ChainTo(t, dn);
    match r {
      case Some(chain) =>
        var nodes, names := [inp.sid], [inp.principal.name];
        for i := 0 to |chain|
          invariant nodes + Sids(kept, chain[i..]) == [inp.sid] + Sids(kept, chain)
          invariant names + Labels(kept, chain[i..]) == [inp.principal.name] + Labels(kept, chain)
        {
          assert chain[i..][1..] == chain[i + 1..];
          if chain[i] in kept {
            nodes := nodes + [kept[chain[i]].sid];
            names := names + [kept[chain[i]].name];
          }
        }
        var lastHop := if |chain| >= 2 then Some(chain[|chain| - 2]) else None;
        path := MembershipPath(nodes, names, DomainGroup, true, Hops(kept, OtherEntries(t, dn, lastHop)));
      case None =>
        path := MembershipPath([inp.sid, kept[dn].sid], [inp.principal.name, kept[dn].name],
                               LdapMatchingRule, false, Hops(kept, OtherEntries(t, dn, None)));
    }
  }

  method EmitRest(inp: Input, kept: Closure, t: RouteTable, order: seq<Dn>) returns (rest: seq<GroupMembership>)
    requires forall i :: 0 <= i < |order| ==> order[i] in kept
    ensures rest == RestList(inp, kept, t, order)
  {
    rest := [];
    for i := 0 to |order|
      invariant |rest| == i
      invariant forall j :: 0 <= j < i ==> rest[j] == MembershipOf(inp, kept, t, order[j])
    {
      var path := FindPath(inp, kept, t, order[i]);
      var g := kept[order[i]];
      rest := rest + [GroupMembership(inp.sid, g.sid, order[i] in inp.principal.memberOf, g.name,
                                      Some(path), g.historyCount, g.history)];
    }
  }

  method EmitMemberships(inp: Input, kept: Closure, t: RouteTable) returns (memberships: seq<GroupMembership>)
    ensures memberships == MembershipList(inp, kept, t)
  {
    memberships := if EmitsPrimary(inp) then [PrimaryMembership(inp, kept, t)] else [];
    var rest := EmitRest(inp, kept, t, OutputOrder(inp, kept, t));
    memberships := memberships + rest;
  }

  // ---------- The whole assembly ----------

  ghost function KeptGroups(inp: Input): Closure {
    Kept(FullClosure(inp), Seeds(inp))
  }

  ghost function OutsideGroups(inp: Input): set<Dn> {
    OutsideDns(inp, KeptGroups(inp), ExcludedDns(FullClosure(inp), Seeds(inp)), NoSid(inp))
  }

  ghost function Memberships(inp: Input): seq<GroupMembership> {
    var kept := KeptGroups(inp);
    var t := Table(kept, Seeds(inp));
    MembershipList(inp, kept, t)
  }

  ghost function Assemble(inp: Input): Assembled {
    var c, seeds := FullClosure(inp), Seeds(inp);
    Assembled(
      Memberships(inp),
      GapsOf(UnknownTypes(c, seeds), NoSid(inp), OutsideGroups(inp)),
      ExcludedList(c, seeds),
      if OutsideGroups(inp) == {} then [] else [Outside(OutsideGroups(inp))])
  }

  method AssembleMemberships(inp: Input) returns (r: Assembled)
    ensures r == Assemble(inp)
  {
    var closure, withoutSid := ScanEntries(inp);
    var seeds := Seeds(inp);
    var kept, excluded, excludedDns, unknownType := ExcludeGroups(closure, seeds);
    var outside := FindOutside(inp, kept, excludedDns, withoutSid);
    var routes := Build(kept, seeds);
    var memberships := EmitMemberships(inp, kept, routes);
    r := Assembled(memberships, GapsOf(unknownType, withoutSid, outside), excluded,
                   if outside == {} then [] else [Outside(outside)]);
  }
}
