/** The route table over a membership closure: shortest distances from the
    principal, the chosen predecessor of every reached group and the reverse
    edges. The definitions speak of routes only, not of a search. */
module Routes {
  import opened Wrappers
  import opened SortedSets
  import opened Directory

  datatype RouteTable = RouteTable(
    dist: map<Dn, nat>,
    pred: map<Dn, Option<Dn>>,
    children: map<Dn, seq<Dn>>)

  // ---------- Reference definitions ----------

  /** `kid` is a direct member of `parent`, both in the closure. */
  predicate Edge(c: Closure, kid: Dn, parent: Dn) {
    kid in c && parent in c && parent in c[kid].parents
  }

  /** A route starts at a seed and follows membership edges inside the closure. */
  ghost predicate IsRoute(c: Closure, seeds: set<Dn>, chain: seq<Dn>) {
    if |chain| == 0 then false
    else if |chain| == 1 then chain[0] in seeds && chain[0] in c
    else IsRoute(c, seeds, chain[..|chain| - 1]) && Edge(c, chain[|chain| - 2], chain[|chain| - 1])
  }

  ghost predicate RouteTo(c: Closure, seeds: set<Dn>, chain: seq<Dn>, dn: Dn) {
    IsRoute(c, seeds, chain) && chain[|chain| - 1] == dn
  }

  ghost predicate Reachable(c: Closure, seeds: set<Dn>, dn: Dn) {
    exists chain :: RouteTo(c, seeds, chain, dn)
  }

  ghost predicate HasRoute(c: Closure, seeds: set<Dn>, dn: Dn, n: nat) {
    exists chain :: RouteTo(c, seeds, chain, dn) && |chain| == n
  }

  ghost function ShortestUpTo(c: Closure, seeds: set<Dn>, dn: Dn, n: nat): (d: nat)
    requires HasRoute(c, seeds, dn, n)
    ensures HasRoute(c, seeds, dn, d)
    ensures forall m: nat :: HasRoute(c, seeds, dn, m) ==> d <= m
  {
    if m: nat :| m < n && HasRoute(c, seeds, dn, m) then ShortestUpTo(c, seeds, dn, m) else n
  }

  /** Length of a shortest route to `dn`. */
  ghost function Shortest(c: Closure, seeds: set<Dn>, dn: Dn): (d: nat)
    requires Reachable(c, seeds, dn)
    ensures HasRoute(c, seeds, dn, d)
    ensures forall m: nat :: HasRoute(c, seeds, dn, m) ==> d <= m
  {
    var chain :| RouteTo(c, seeds, chain, dn);
    assert HasRoute(c, seeds, dn, |chain|);
    ShortestUpTo(c, seeds, dn, |chain|)
  }

  /** Hops from the principal to every group it reaches. */
  ghost function Dist(c: Closure, seeds: set<Dn>): map<Dn, nat> {
    map dn | dn in c && Reachable(c, seeds, dn) :: Shortest(c, seeds, dn)
  }

  function Kids(c: Closure, parent: Dn): set<Dn> {
    set kid | kid in c && Edge(c, kid, parent)
  }

  function Children(c: Closure): map<Dn, seq<Dn>> {
    map parent | parent in c && Kids(c, parent) != {} :: SortedSeq(Kids(c, parent))
  }

  /** The direct members of `dn` exactly one hop closer to the principal. */
  ghost function Nearer(c: Closure, dist: map<Dn, nat>, dn: Dn): set<Dn>
    requires dn in dist
  {
    set kid | kid in Kids(c, dn) && kid in dist && dist[kid] + 1 == dist[dn]
  }

  /** `None` for a seed, otherwise the alphabetically first nearer member. */
  ghost function PredOf(c: Closure, dist: map<Dn, nat>, dn: Dn): Option<Dn>
    requires dn in dist
  {
    if dist[dn] == 1 || Nearer(c, dist, dn) == {} then None else Some(Min(Nearer(c, dist, dn)))
  }

  ghost function Pred(c: Closure, dist: map<Dn, nat>): map<Dn, Option<Dn>> {
    map dn | dn in dist :: PredOf(c, dist, dn)
  }

  ghost function Table(c: Closure, seeds: set<Dn>): RouteTable {
    RouteTable(Dist(c, seeds), Pred(c, Dist(c, seeds)), Children(c))
  }

  // ---------- Routes ----------

  lemma ExtendRoute(c: Closure, seeds: set<Dn>, chain: seq<Dn>, kid: Dn, parent: Dn)
    requires RouteTo(c, seeds, chain, kid) && Edge(c, kid, parent)
    ensures RouteTo(c, seeds, chain + [parent], parent)
  {
    assert (chain + [parent])[..|chain|] == chain;
  }

  lemma SeedRoute(c: Closure, seeds: set<Dn>, dn: Dn)
    requires dn in seeds && dn in c
    ensures RouteTo(c, seeds, [dn], dn)
  {
  }

  lemma {:induction false} RoutePrefix(c: Closure, seeds: set<Dn>, chain: seq<Dn>, i: nat)
    requires IsRoute(c, seeds, chain) && i < |chain|
    ensures RouteTo(c, seeds, chain[..i + 1], chain[i])
    ensures chain[i] in c
  {
    if i < |chain| - 1 {
      var init := chain[..|chain| - 1];
      RoutePrefix(c, seeds, init, i);
      assert init[..i + 1] == chain[..i + 1];
    } else {
      assert chain[..i + 1] == chain;
    }
  }

  /** Consecutive groups of a route are direct memberships; its first is a seed. */
  lemma RouteStep(c: Closure, seeds: set<Dn>, chain: seq<Dn>, i: nat)
    requires IsRoute(c, seeds, chain) && i < |chain|
    ensures chain[i] in c
    ensures i == 0 ==> chain[i] in seeds
    ensures i > 0 ==> Edge(c, chain[i - 1], chain[i])
  {
    RoutePrefix(c, seeds, chain, i);
    RoutePrefix(c, seeds, chain, 0);
    if i > 0 {
      var p := chain[..i + 1];
      assert p[|p| - 2] == chain[i - 1] && p[|p| - 1] == chain[i];
    }
  }

  /** What `Dist` means: a group is listed exactly when some route reaches it,
      with the length of a shortest route. */
  lemma DistIsShortest(c: Closure, seeds: set<Dn>, dn: Dn)
    ensures dn in Dist(c, seeds) <==> Reachable(c, seeds, dn)
    ensures dn in Dist(c, seeds) ==>
              && HasRoute(c, seeds, dn, Dist(c, seeds)[dn])
              && Dist(c, seeds)[dn] >= 1
    ensures forall chain :: RouteTo(c, seeds, chain, dn) ==> dn in Dist(c, seeds) && Dist(c, seeds)[dn] <= |chain|
  {
    forall chain | RouteTo(c, seeds, chain, dn)
      ensures dn in Dist(c, seeds) && Dist(c, seeds)[dn] <= |chain|
    {
      RouteStep(c, seeds, chain, |chain| - 1);
      assert Reachable(c, seeds, dn);
      assert HasRoute(c, seeds, dn, |chain|);
    }
  }

  /** Following one membership edge lengthens the distance by at most one. */
  lemma DistStep(c: Closure, seeds: set<Dn>, kid: Dn, parent: Dn)
    requires kid in Dist(c, seeds) && Edge(c, kid, parent)
    ensures parent in Dist(c, seeds) && Dist(c, seeds)[parent] <= Dist(c, seeds)[kid] + 1
  {
    DistIsShortest(c, seeds, kid);
    var chain :| RouteTo(c, seeds, chain, kid) && |chain| == Dist(c, seeds)[kid];
    ExtendRoute(c, seeds, chain, kid, parent);
    DistIsShortest(c, seeds, parent);
  }

  /** Distance one means seed; every other reached group has a direct member
      one hop nearer. */
  lemma NearerExists(c: Closure, seeds: set<Dn>, dn: Dn)
    requires dn in Dist(c, seeds)
    ensures Dist(c, seeds)[dn] == 1 <==> dn in seeds
    ensures dn in c
    ensures Dist(c, seeds)[dn] > 1 ==> Nearer(c, Dist(c, seeds), dn) != {}
  {
    var dist := Dist(c, seeds);
    DistIsShortest(c, seeds, dn);
    var chain :| RouteTo(c, seeds, chain, dn) && |chain| == dist[dn];
    RouteStep(c, seeds, chain, |chain| - 1);
    if dn in seeds {
      SeedRoute(c, seeds, dn);
    }
    if |chain| > 1 {
      var kid := chain[|chain| - 2];
      assert RouteTo(c, seeds, chain[..|chain| - 1], kid);
      DistIsShortest(c, seeds, kid);
      DistStep(c, seeds, kid, dn);
      assert kid in Nearer(c, dist, dn);
    }
  }

  /** Every reached group beyond the first hop has a chosen predecessor: a
      direct member one hop nearer, and the alphabetically first such group. */
  lemma PredIsLeast(c: Closure, seeds: set<Dn>, dn: Dn)
    requires dn in Dist(c, seeds)
    ensures var t := Table(c, seeds);
            && dn in t.pred
            && (t.pred[dn].None? <==> dn in seeds)
            && (t.pred[dn].Some? ==>
                  var p := t.pred[dn].value;
                  && Edge(c, p, dn)
                  && p in t.dist && t.dist[p] + 1 == t.dist[dn]
                  && forall kid: Dn :: Edge(c, kid, dn) && kid in t.dist && t.dist[kid] + 1 == t.dist[dn] ==> p <= kid)
  {
    NearerExists(c, seeds, dn);
    DistIsShortest(c, seeds, dn);
    var dist := Dist(c, seeds);
    forall kid: Dn | Edge(c, kid, dn) && kid in dist && dist[kid] + 1 == dist[dn]
      ensures kid in Nearer(c, dist, dn)
    {
    }
  }
}
