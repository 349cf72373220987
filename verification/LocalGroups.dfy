/** The membership path into a local group of a server, from the group's direct
    members and the token groups of the account. */
module LocalGroups {
  import opened Wrappers
  import opened SortedSets
  import opened Directory
  import opened StableSort

  /** Names of the account's token groups by SID. */
  type KnownNames = map<Sid, Name>

  function HopKey(h: MembershipHop): Key {
    Key(if h.name.Some? then h.name.value.fold else 0, h.sid)
  }

  /** Members that are token groups of the account, other than itself. */
  function MediatorsOf(user: Sid, members: seq<Option<Sid>>, known: KnownNames): seq<MembershipHop> {
    if members == [] then []
    else
      MediatorsOf(user, members[..|members| - 1], known) +
      match members[|members| - 1] {
        case Some(sid) => if sid != user && sid in known then [MembershipHop(sid, Some(known[sid]))] else []
        case None => []
      }
  }

  function Mediators(user: Sid, members: seq<Option<Sid>>, known: KnownNames): seq<MembershipHop> {
    Dedup(Sort(MediatorsOf(user, members, known), HopKey), HopKey)
  }

  /** The shown chain: the account itself, else the first token group that is a
      member, else an honestly incomplete path. */
  function PathSpec(user: Sid, userName: Option<Name>, group: Sid, display: Name,
                    members: seq<Option<Sid>>, known: KnownNames): MembershipPath {
    var via := Mediators(user, members, known);
    if Some(user) in members then
      MembershipPath([user, group], [userName, Some(display)], LocalGroup, true, via)
    else if via != [] then
      MembershipPath([user, via[0].sid, group], [userName, via[0].name, Some(display)], LocalGroup, true, via[1..])
    else
      MembershipPath([user, group], [userName, Some(display)], LocalGroup, false, [])
  }

  method LocalGroupPath(user: Sid, userName: Option<Name>, group: Sid, display: Name,
                        members: seq<Option<Sid>>, known: KnownNames) returns (path: MembershipPath)
    ensures path == PathSpec(user, userName, group, display, members, known)
  {
    var viaSelf := false;
    var mediators: seq<MembershipHop> := [];
    for i := 0 to |members|
      invariant viaSelf <==> Some(user) in members[..i]
      invariant mediators == MediatorsOf(user, members[..i], known)
    {
      assert members[..i + 1][..i] == members[..i];
      match members[i] {
        case Some(sid) =>
          if sid == user {
            viaSelf := true;
          } else if sid in known {
            mediators := mediators + [MembershipHop(sid, Some(known[sid]))];
          }
        case None =>
      }
    }
    assert members[..|members|] == members;
    mediators := Sort(mediators, HopKey);
    mediators := Dedup(mediators, HopKey);
    if viaSelf {
      return MembershipPath([user, group], [userName, Some(display)], LocalGroup, true, mediators);
    }
    if mediators != [] {
      var first := mediators[0];
      return MembershipPath([user, first.sid, group], [userName, first.name, Some(display)], LocalGroup, true, mediators[1..]);
    }
    path := MembershipPath([user, group], [userName, Some(display)], LocalGroup, false, []);
  }

  lemma {:induction false} MediatorsAre(user: Sid, members: seq<Option<Sid>>, known: KnownNames, h: MembershipHop)
    ensures h in MediatorsOf(user, members, known) <==>
              Some(h.sid) in members && h.sid != user && h.sid in known && h.name == Some(known[h.sid])
  {
    if members != [] {
      MediatorsAre(user, members[..|members| - 1], known, h);
      assert members == members[..|members| - 1] + [members[|members| - 1]];
    }
  }

  /** The mediators are strictly ordered by name and SID, hence without
      duplicates, and are exactly the token groups among the members. */
  lemma MediatorsExact(user: Sid, members: seq<Option<Sid>>, known: KnownNames)
    ensures Strict(Mediators(user, members, known), HopKey)
    ensures forall h :: h in Mediators(user, members, known) <==>
              Some(h.sid) in members && h.sid != user && h.sid in known && h.name == Some(known[h.sid])
  {
    var all := MediatorsOf(user, members, known);
    var sorted := Sort(all, HopKey);
    SortIsSorted(all, HopKey);
    forall h ensures h in sorted <==> Some(h.sid) in members && h.sid != user && h.sid in known && h.name == Some(known[h.sid]) {
      MediatorsAre(user, members, known, h);
      assert h in sorted <==> h in multiset(sorted);
      assert h in all <==> h in multiset(all);
    }
    DedupStrict(sorted, HopKey);
  }

  /** Every entry into the group is shown or listed: the path is complete
      exactly when the account or one of its token groups is a direct member,
      and its hops name real direct members. */
  lemma PathIsReal(user: Sid, userName: Option<Name>, group: Sid, display: Name, members: seq<Option<Sid>>, known: KnownNames)
    ensures var p := PathSpec(user, userName, group, display, members, known);
            && |p.nodes| == |p.names| && p.nodes[0] == user && p.nodes[|p.nodes| - 1] == group
            && (p.complete <==> Some(user) in members || exists s :: s in known && Some(s) in members)
            && (p.complete ==> Some(p.nodes[|p.nodes| - 2]) in members)
            && (forall h :: h in p.alsoVia ==> Some(h.sid) in members && h.sid in known)
            && (forall s :: s in known && s != user && Some(s) in members ==>
                  MembershipHop(s, Some(known[s])) in p.alsoVia || (|p.nodes| == 3 && p.nodes[1] == s))
  {
    MediatorsExact(user, members, known);
    var via := Mediators(user, members, known);
    if via != [] {
      assert via[0] in via;
      assert via == [via[0]] + via[1..];
    }
    forall s | s in known && s != user && Some(s) in members ensures MembershipHop(s, Some(known[s])) in via {
    }
  }

  /** The member order the server returns and repeated members change nothing. */
  lemma PathForgetsOrder(user: Sid, userName: Option<Name>, group: Sid, display: Name,
                         a: seq<Option<Sid>>, b: seq<Option<Sid>>, known: KnownNames)
    requires ToSet(a) == ToSet(b)
    ensures PathSpec(user, userName, group, display, a, known) == PathSpec(user, userName, group, display, b, known)
  {
    forall x ensures x in a <==> x in b {
      assert x in a <==> x in ToSet(a);
      assert x in b <==> x in ToSet(b);
    }
    MediatorsExact(user, a, known);
    MediatorsExact(user, b, known);
    StrictUnique(Mediators(user, a, known), Mediators(user, b, known), HopKey);
  }

  // ---------- Order of the chains ----------

  datatype Chain = Chain(sid: Sid, name: Option<Name>, path: MembershipPath)

  function ChainKey(c: Chain): Key {
    Key(if c.name.Some? then c.name.value.fold else 0, c.sid)
  }

  method SortLocalGroupChains(chains: array<Chain>)
    modifies chains
    ensures chains[..] == Sort(old(chains[..]), ChainKey)
  {
    var sorted := Sort(chains[..], ChainKey);
    SortIsSorted(chains[..], ChainKey);
    assert |sorted| == |multiset(sorted)| == |multiset(chains[..])| == chains.Length;
    forall i | 0 <= i < chains.Length {
      chains[i] := sorted[i];
    }
  }

  /** The output order does not depend on the order in which the server listed
      the groups, if and only if chains with the same name and SID are the same. */
  lemma ChainsForgetOrder(a: seq<Chain>)
    ensures ForgetsOrder(a, ChainKey) <==> KeyedBy(a, ChainKey)
  {
    ForgetsOrderExactly(a, ChainKey);
  }
}
