/** Chains of groups read off a route table, and the further routes. */
module RouteChains {
  import opened Wrappers
  import opened SortedSets
  import opened Directory
  import opened Routes

  // ---------- Chains ----------

  /** The chain from hop 1 to `current`, read backwards along `pred`; `len` is
      the length of the part already read. The bound on `len` is the source's
      defensive guard. */
  function ChainFrom(t: RouteTable, current: Dn, len: nat): Option<seq<Dn>>
    decreases if len <= |t.dist| then |t.dist| + 1 - len else 0
  {
    if current !in t.pred then None
    else if t.pred[current].None? then Some([current])
    else if len > |t.dist| then None
    else
      var init :- ChainFrom(t, t.pred[current].value, len + 1);
      Some(init + [current])
  }

  method ChainTo(t: RouteTable, target: Dn) returns (r: Option<seq<Dn>>)
    ensures r == ChainFrom(t, target, 1)
  {
    var chain := [target];
    var current := target;
    assert forall s: seq<Dn> :: s + chain[1..] == s;
    while true
      invariant |chain| >= 1 && chain[0] == current
      invariant ChainFrom(t, target, 1) ==
                match ChainFrom(t, current, |chain|) {
                  case None => None
                  case Some(init) => Some(init + chain[1..])
                }
      decreases |t.dist| + 1 - |chain|
    {
      if current !in t.pred {
        return None;
      }
      match t.pred[current] {
        case None =>
          assert [current] + chain[1..] == chain;
          return Some(chain);
        case Some(prev) =>
          if |chain| > |t.dist| {
            return None;
          }
          ghost var rest := ChainFrom(t, prev, |chain| + 1);
          assert rest.Some? ==> rest.value + [current] + chain[1..] == rest.value + ([prev] + chain)[1..];
          chain := [prev] + chain;
          current := prev;
      }
    }
  }

  ghost function UpTo(dist: map<Dn, nat>, d: nat): set<Dn> {
    set x | x in dist && dist[x] <= d
  }

  lemma {:induction false} UpToGrows(c: Closure, seeds: set<Dn>, dn: Dn, d: nat)
    requires dn in Dist(c, seeds) && Dist(c, seeds)[dn] == d
    ensures |UpTo(Dist(c, seeds), d)| >= d
    decreases d
  {
    var dist := Dist(c, seeds);
    hide Dist, Edge;
    if d > 1 {
      NearerExists(c, seeds, dn);
      var kid :| kid in Nearer(c, dist, dn);
      UpToGrows(c, seeds, kid, d - 1);
      SubsetSize(UpTo(dist, d - 1) + {dn}, UpTo(dist, d));
    } else {
      SubsetSize({dn}, UpTo(dist, d));
    }
  }

  /** No distance exceeds the number of reached groups. */
  lemma DistBounded(c: Closure, seeds: set<Dn>, dn: Dn)
    requires dn in Dist(c, seeds)
    ensures Dist(c, seeds)[dn] <= |Dist(c, seeds)|
  {
    var dist := Dist(c, seeds);
    UpToGrows(c, seeds, dn, dist[dn]);
    SubsetSize(UpTo(dist, dist[dn]), dist.Keys);
    assert |dist.Keys| == |dist|;
  }

  lemma {:induction false} SubsetSize(a: set<Dn>, b: set<Dn>)
    requires a <= b
    ensures |a| <= |b|
    decreases a
  {
    if a != {} {
      var x :| x in a;
      SubsetSize(a - {x}, b - {x});
    }
  }

  /** Every step of the chain is the chosen predecessor. */
  ghost predicate FollowsPred(pred: map<Dn, Option<Dn>>, chain: seq<Dn>) {
    |chain| >= 2 ==>
      && chain[|chain| - 1] in pred
      && pred[chain[|chain| - 1]] == Some(chain[|chain| - 2])
      && FollowsPred(pred, chain[..|chain| - 1])
  }

  /** Following `pred` lowers the distance by one until a seed is reached. */
  ghost predicate Descends(t: RouteTable) {
    && t.pred.Keys == t.dist.Keys
    && (forall dn :: dn in t.pred && t.pred[dn].None? ==> t.dist[dn] == 1)
    && (forall dn :: dn in t.pred && t.pred[dn].Some? ==>
          t.pred[dn].value in t.dist && t.dist[t.pred[dn].value] + 1 == t.dist[dn])
  }

  lemma {:induction false} ChainFromFollows(t: RouteTable, dn: Dn, len: nat)
    requires Descends(t) && dn in t.dist
    requires len + t.dist[dn] <= |t.dist| + 1
    ensures ChainFrom(t, dn, len).Some?
    ensures var chain := ChainFrom(t, dn, len).value;
            && |chain| == t.dist[dn] && |chain| > 0 && chain[|chain| - 1] == dn
            && chain[0] in t.pred && t.pred[chain[0]].None?
            && FollowsPred(t.pred, chain)
    decreases t.dist[dn]
  {
    if t.pred[dn].Some? {
      var p := t.pred[dn].value;
      ChainFromFollows(t, p, len + 1);
      var init := ChainFrom(t, p, len + 1).value;
      assert (init + [dn])[..|init|] == init;
    }
  }

  lemma TableDescends(c: Closure, seeds: set<Dn>)
    ensures Descends(Table(c, seeds))
  {
    forall dn | dn in Dist(c, seeds)
      ensures var t := Table(c, seeds);
              && (t.pred[dn].None? ==> t.dist[dn] == 1)
              && (t.pred[dn].Some? ==> t.pred[dn].value in t.dist && t.dist[t.pred[dn].value] + 1 == t.dist[dn])
    {
      PredIsLeast(c, seeds, dn);
      NearerExists(c, seeds, dn);
    }
  }

  lemma {:induction false} FollowsIsRoute(c: Closure, seeds: set<Dn>, chain: seq<Dn>)
    requires |chain| > 0 && FollowsPred(Table(c, seeds).pred, chain)
    requires chain[0] in Dist(c, seeds) && Table(c, seeds).pred[chain[0]].None?
    ensures IsRoute(c, seeds, chain)
  {
    if |chain| == 1 {
      PredIsLeast(c, seeds, chain[0]);
    } else {
      FollowsIsRoute(c, seeds, chain[..|chain| - 1]);
      PredIsLeast(c, seeds, chain[|chain| - 1]);
    }
  }

  /** A chain is found exactly for the reached groups. It is a real route of
      shortest length on which every step is the chosen predecessor, so the
      length guard never cuts one off. */
  lemma ChainExact(c: Closure, seeds: set<Dn>, dn: Dn)
    ensures var r := ChainFrom(Table(c, seeds), dn, 1);
            && (r.Some? <==> Reachable(c, seeds, dn))
            && (r.Some? ==>
                  && RouteTo(c, seeds, r.value, dn)
                  && FollowsPred(Table(c, seeds).pred, r.value)
                  && dn in Dist(c, seeds) && |r.value| == Dist(c, seeds)[dn])
  {
    DistIsShortest(c, seeds, dn);
    if dn in Dist(c, seeds) {
      DistBounded(c, seeds, dn);
      TableDescends(c, seeds);
      ChainFromFollows(Table(c, seeds), dn, 1);
      FollowsIsRoute(c, seeds, ChainFrom(Table(c, seeds), dn, 1).value);
    }
  }

  // ---------- Further routes ----------

  function Except(s: seq<Dn>, skip: Option<Dn>): seq<Dn> {
    if s == [] then []
    else (if Some(s[0]) == skip then [] else [s[0]]) + Except(s[1..], skip)
  }

  /** Direct members of `target` in the closure, except `skip`. */
  function OtherEntries(t: RouteTable, target: Dn, skip: Option<Dn>): seq<Dn> {
    if target in t.children then Except(t.children[target], skip) else []
  }

  lemma {:induction false} ExceptMembers(s: seq<Dn>, skip: Option<Dn>, x: Dn)
    ensures x in Except(s, skip) <==> x in s && Some(x) != skip
  {
    if s != [] {
      ExceptMembers(s[1..], skip, x);
    }
  }

  /** The further routes into a group name exactly its other direct members. */
  lemma OtherEntriesExact(c: Closure, seeds: set<Dn>, target: Dn, skip: Option<Dn>, kid: Dn)
    ensures kid in OtherEntries(Table(c, seeds), target, skip) <==> Edge(c, kid, target) && Some(kid) != skip
  {
    if target in Children(c) {
      ExceptMembers(Children(c)[target], skip, kid);
      assert kid in Children(c)[target] <==> kid in ToSet(Children(c)[target]);
    }
    if Edge(c, kid, target) {
      assert kid in Kids(c, target);
    }
  }
}
