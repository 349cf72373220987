/** The breadth-first search that builds the route table. */
module RouteSearch {
  import opened Wrappers
  import opened SortedSets
  import opened Directory
  import opened Routes

  /** The child lists hold exactly the edges out of `kids`. */
  ghost predicate Lists(c: Closure, kids: set<Dn>, lists: map<Dn, seq<Dn>>) {
    && (forall p: Dn, k: Dn :: p in lists && k in lists[p] ==> k in kids && Edge(c, k, p))
    && (forall p: Dn, k: Dn :: k in kids && Edge(c, k, p) ==> p in lists && k in lists[p])
    && (forall p :: p in lists ==> lists[p] != [])
  }

  method AddKid(c: Closure, lists0: map<Dn, seq<Dn>>, ghost kids: set<Dn>, dn: Dn)
    returns (lists: map<Dn, seq<Dn>>)
    requires dn in c && Lists(c, kids, lists0)
    ensures Lists(c, kids + {dn}, lists)
  {
    lists := lists0;
    var parents := c[dn].parents;
    for j := 0 to |parents|
      invariant forall p: Dn, k: Dn :: p in lists && k in lists[p] ==> k in kids + {dn} && Edge(c, k, p)
      invariant forall p: Dn, k: Dn :: k in kids && Edge(c, k, p) ==> p in lists && k in lists[p]
      invariant forall i :: 0 <= i < j && parents[i] in c ==> parents[i] in lists && dn in lists[parents[i]]
      invariant forall p :: p in lists ==> lists[p] != []
    {
      var parent := parents[j];
      if parent in c {
        lists := lists[parent := (if parent in lists then lists[parent] else []) + [dn]];
      }
    }
  }

  method BuildChildren(c: Closure) returns (children: map<Dn, seq<Dn>>)
    ensures children == Children(c)
  {
    var lists: map<Dn, seq<Dn>> := map[];
    var keys := SortedSeq(c.Keys);
    ghost var kids: set<Dn> := {};
    for i := 0 to |keys|
      invariant Lists(c, kids, lists)
      invariant forall j :: 0 <= j < i ==> keys[j] in kids
    {
      lists := AddKid(c, lists, kids, keys[i]);
      kids := kids + {keys[i]};
    }
    assert forall k :: k in c ==> k in keys;
    children := map p | p in lists :: SortedSeq(ToSet(lists[p]));
    ListsAreChildren(c, kids, lists);
  }

  lemma ListIsKids(c: Closure, kids: set<Dn>, lists: map<Dn, seq<Dn>>, p: Dn)
    requires Lists(c, kids, lists) && c.Keys <= kids
    ensures p in lists <==> p in c && Kids(c, p) != {}
    ensures p in lists ==> ToSet(lists[p]) == Kids(c, p)
  {
    if p in lists {
      var k := lists[p][0];
      assert k in lists[p] && Edge(c, k, p) && k in Kids(c, p);
      forall x | x in lists[p] ensures x in Kids(c, p) {
        assert Edge(c, x, p);
      }
      forall x | x in Kids(c, p) ensures x in lists[p] {
        assert Edge(c, x, p);
      }
    }
    if p in c && Kids(c, p) != {} {
      var k :| k in Kids(c, p);
      assert Edge(c, k, p);
    }
  }

  lemma ListsAreChildren(c: Closure, kids: set<Dn>, lists: map<Dn, seq<Dn>>)
    requires Lists(c, kids, lists) && c.Keys <= kids
    ensures (map p | p in lists :: SortedSeq(ToSet(lists[p]))) == Children(c)
  {
    forall p: Dn
      ensures p in lists <==> p in c && Kids(c, p) != {}
      ensures p in lists ==> ToSet(lists[p]) == Kids(c, p)
    {
      ListIsKids(c, kids, lists, p);
    }
  }

  /** The distances found so far are lengths of real routes. */
  ghost predicate Sound(c: Closure, seeds: set<Dn>, dist: map<Dn, nat>) {
    forall dn :: dn in dist ==> dn in c && HasRoute(c, seeds, dn, dist[dn])
  }

  /** The first `n` memberships of `kid` were followed. */
  predicate Followed(c: Closure, dist: map<Dn, nat>, kid: Dn, n: nat)
    requires kid in c && n <= |c[kid].parents|
  {
    kid in dist &&
    forall j {:trigger c[kid].parents[j]} :: 0 <= j < n && c[kid].parents[j] in c ==>
      c[kid].parents[j] in dist && dist[c[kid].parents[j]] <= dist[kid] + 1
  }

  /** Every seed is in, and every group not waiting was followed. */
  ghost predicate Settled(c: Closure, seeds: set<Dn>, dist: map<Dn, nat>, waiting: set<Dn>) {
    && (forall dn :: dn in seeds && dn in c ==> dn in dist && dist[dn] == 1)
    && (forall dn :: dn in dist && dn !in waiting ==> dn in c && Followed(c, dist, dn, |c[dn].parents|))
  }

  ghost predicate QueueOrdered(dist: map<Dn, nat>, queue: seq<Dn>) {
    && (forall i :: 0 <= i < |queue| ==> queue[i] in dist)
    && (forall i, j :: 0 <= i < j < |queue| ==> dist[queue[i]] <= dist[queue[j]])
  }

  ghost predicate WithinOne(dist: map<Dn, nat>, queue: seq<Dn>, d: nat) {
    && QueueOrdered(dist, queue)
    && (forall i :: 0 <= i < |queue| ==> d <= dist[queue[i]])
    && (forall dn :: dn in dist ==> dist[dn] <= d + 1)
  }

  ghost predicate Extends(dist0: map<Dn, nat>, dist: map<Dn, nat>) {
    forall dn :: dn in dist0 ==> dn in dist && dist[dn] == dist0[dn]
  }

  /** A settled table with nothing waiting bounds every route. */
  lemma {:induction false} SettledBounds(c: Closure, seeds: set<Dn>, dist: map<Dn, nat>, chain: seq<Dn>)
    requires Settled(c, seeds, dist, {}) && IsRoute(c, seeds, chain)
    ensures chain[|chain| - 1] in dist && dist[chain[|chain| - 1]] <= |chain|
  {
    if |chain| > 1 {
      SettledBounds(c, seeds, dist, chain[..|chain| - 1]);
      var kid, p := chain[|chain| - 2], chain[|chain| - 1];
      assert Followed(c, dist, kid, |c[kid].parents|);
      var j :| 0 <= j < |c[kid].parents| && c[kid].parents[j] == p;
    }
  }

  lemma SettledIsDist(c: Closure, seeds: set<Dn>, dist: map<Dn, nat>)
    requires Sound(c, seeds, dist) && Settled(c, seeds, dist, {})
    ensures dist == Dist(c, seeds)
  {
    forall dn: Dn
      ensures dn in dist <==> dn in Dist(c, seeds)
      ensures dn in dist ==> dist[dn] == Dist(c, seeds)[dn]
    {
      DistIsShortest(c, seeds, dn);
      if dn in dist {
        var chain :| RouteTo(c, seeds, chain, dn) && |chain| == dist[dn];
      }
      if dn in Dist(c, seeds) {
        var chain :| RouteTo(c, seeds, chain, dn) && |chain| == Dist(c, seeds)[dn];
        SettledBounds(c, seeds, dist, chain);
      }
    }
  }

  method EnqueueSeeds(c: Closure, seeds: set<Dn>) returns (dist: map<Dn, nat>, queue: seq<Dn>)
    ensures forall dn :: dn in dist <==> dn in seeds && dn in c
    ensures forall dn :: dn in dist ==> dist[dn] == 1
    ensures forall dn :: dn in queue <==> dn in dist
  {
    dist, queue := map[], [];
    var order := SortedSeq(seeds);
    for i := 0 to |order|
      invariant forall dn :: dn in dist ==> dn in seeds && dn in c && dist[dn] == 1
      invariant forall j :: 0 <= j < i && order[j] in c ==> order[j] in dist
      invariant forall dn :: dn in queue <==> dn in dist
    {
      var seed := order[i];
      if seed in c && seed !in dist {
        dist := dist[seed := 1];
        queue := queue + [seed];
      }
    }
  }

  lemma Discover(c: Closure, seeds: set<Dn>, dist: map<Dn, nat>, queue: seq<Dn>, node: Dn, parent: Dn)
    requires node in dist && Edge(c, node, parent) && parent !in dist
    requires Sound(c, seeds, dist) && WithinOne(dist, queue, dist[node])
    ensures var dist' := dist[parent := dist[node] + 1];
            Sound(c, seeds, dist') && WithinOne(dist', queue + [parent], dist[node])
  {
    var chain :| RouteTo(c, seeds, chain, node) && |chain| == dist[node];
    ExtendRoute(c, seeds, chain, node, parent);
    assert HasRoute(c, seeds, parent, |chain + [parent]|);
  }

  lemma PopHead(dist: map<Dn, nat>, queue: seq<Dn>)
    requires |queue| > 0 && queue[0] in dist && WithinOne(dist, queue, dist[queue[0]])
    ensures WithinOne(dist, queue[1..], dist[queue[0]])
  {
  }

  lemma NextHead(dist: map<Dn, nat>, queue: seq<Dn>, d: nat)
    requires |queue| > 0 && WithinOne(dist, queue, d)
    ensures queue[0] in dist && WithinOne(dist, queue, dist[queue[0]])
  {
  }

  /** The body of the search: the memberships of the group just taken from the queue. */
  method FollowParents(c: Closure, ghost seeds: set<Dn>, node: Dn, dist0: map<Dn, nat>, queue0: seq<Dn>)
    returns (dist: map<Dn, nat>, queue: seq<Dn>)
    requires node in c && node in dist0
    requires Sound(c, seeds, dist0) && WithinOne(dist0, queue0, dist0[node])
    ensures Sound(c, seeds, dist) && Extends(dist0, dist) && WithinOne(dist, queue, dist0[node])
    ensures Followed(c, dist, node, |c[node].parents|)
    ensures forall dn :: dn in queue <==> dn in queue0 || (dn in dist && dn !in dist0)
    ensures dist.Keys == dist0.Keys ==> queue == queue0
  {
    dist, queue := dist0, queue0;
    var d := dist[node];
    var parents := c[node].parents;
    for i := 0 to |parents|
      invariant Sound(c, seeds, dist) && Extends(dist0, dist) && WithinOne(dist, queue, d)
      invariant Followed(c, dist, node, i)
      invariant forall dn :: dn in queue <==> dn in queue0 || (dn in dist && dn !in dist0)
      invariant dist.Keys == dist0.Keys ==> queue == queue0
    {
      var parent := parents[i];
      if parent in c && parent !in dist {
        Discover(c, seeds, dist, queue, node, parent);
        dist := dist[parent := d + 1];
        queue := queue + [parent];
      }
    }
  }

  lemma Shrinks(all: set<Dn>, a: set<Dn>, b: set<Dn>)
    requires a <= b <= all
    ensures a == b || all - b < all - a
  {
    if a != b {
      var x :| x in b && x !in a;
      assert x in all - a && x !in all - b;
    }
  }

  method BuildDist(c: Closure, seeds: set<Dn>) returns (dist: map<Dn, nat>)
    ensures dist == Dist(c, seeds)
  {
    var queue;
    dist, queue := EnqueueSeeds(c, seeds);
    forall dn | dn in dist ensures HasRoute(c, seeds, dn, 1) {
      SeedRoute(c, seeds, dn);
    }
    while |queue| > 0
      invariant Sound(c, seeds, dist)
      invariant Settled(c, seeds, dist, ToSet(queue))
      invariant |queue| > 0 ==> queue[0] in dist && WithinOne(dist, queue, dist[queue[0]])
      decreases c.Keys - dist.Keys, |queue|
    {
      ghost var dist0, queue0 := dist, queue;
      var node := queue[0];
      PopHead(dist, queue);
      dist, queue := FollowParents(c, seeds, node, dist, queue[1..]);
      Shrinks(c.Keys, dist0.Keys, dist.Keys);
      StillSettled(c, seeds, dist0, queue0, dist, queue);
      if |queue| > 0 {
        NextHead(dist, queue, dist0[node]);
      }
    }
    SettledIsDist(c, seeds, dist);
  }

  lemma StillSettled(c: Closure, seeds: set<Dn>, dist0: map<Dn, nat>, queue0: seq<Dn>, dist: map<Dn, nat>, queue: seq<Dn>)
    requires Settled(c, seeds, dist0, ToSet(queue0)) && Extends(dist0, dist)
    requires |queue0| > 0 && queue0[0] in c && Followed(c, dist, queue0[0], |c[queue0[0]].parents|)
    requires forall dn :: dn in queue <==> dn in queue0[1..] || (dn in dist && dn !in dist0)
    ensures Settled(c, seeds, dist, ToSet(queue))
  {
    forall dn | dn in dist && dn !in ToSet(queue)
      ensures dn in c && Followed(c, dist, dn, |c[dn].parents|)
    {
      if dn != queue0[0] {
        assert dn in dist0 && dn !in queue0[1..];
        assert queue0 == [queue0[0]] + queue0[1..];
        assert dn !in ToSet(queue0);
        assert Followed(c, dist0, dn, |c[dn].parents|);
      }
    }
  }

  method FirstNearer(c: Closure, dist: map<Dn, nat>, dn: Dn, kids: seq<Dn>) returns (r: Option<Dn>)
    requires dn in dist && dist[dn] != 1 && kids == SortedSeq(Kids(c, dn))
    ensures r == PredOf(c, dist, dn)
  {
    for k := 0 to |kids|
      invariant forall j :: 0 <= j < k ==> kids[j] !in Nearer(c, dist, dn)
    {
      if kids[k] in dist && dist[kids[k]] + 1 == dist[dn] {
        assert kids[k] in Nearer(c, dist, dn);
        forall x | x in Nearer(c, dist, dn) ensures kids[k] <= x {
          assert x in ToSet(kids);
          var j :| 0 <= j < |kids| && kids[j] == x;
          if j < k {} else if k < j { SortedSeqIncreases(Kids(c, dn), k, j); }
        }
        return Some(kids[k]);
      }
    }
    assert forall x :: x in Nearer(c, dist, dn) ==> x in kids;
    r := None;
  }

  lemma FirstHopPred(c: Closure, dist: map<Dn, nat>, dn: Dn)
    requires dn in dist && dist[dn] == 1
    ensures PredOf(c, dist, dn) == None
  {
  }

  lemma ChildList(c: Closure, dn: Dn)
    ensures dn in c ==> (if dn in Children(c) then Children(c)[dn] else []) == SortedSeq(Kids(c, dn))
  {
  }

  method BuildPred(c: Closure, dist: map<Dn, nat>, children: map<Dn, seq<Dn>>) returns (pred: map<Dn, Option<Dn>>)
    requires children == Children(c) && dist.Keys <= c.Keys
    ensures pred == Pred(c, dist)
  {
    pred := map[];
    var order := SortedSeq(dist.Keys);
    hide PredOf, Children, SortedSeq;
    for i := 0 to |order|
      invariant forall dn :: dn in pred ==> dn in dist && pred[dn] == PredOf(c, dist, dn)
      invariant forall j :: 0 <= j < i ==> order[j] in pred
    {
      var dn := order[i];
      if dist[dn] == 1 {
        FirstHopPred(c, dist, dn);
        pred := pred[dn := None];
      } else {
        ChildList(c, dn);
        var chosen := FirstNearer(c, dist, dn, if dn in children then children[dn] else []);
        pred := pred[dn := chosen];
      }
    }
    assert forall dn :: dn in dist ==> dn in ToSet(order);
  }

  method Build(c: Closure, seeds: set<Dn>) returns (t: RouteTable)
    ensures t == Table(c, seeds)
  {
    var children := BuildChildren(c);
    var dist := BuildDist(c, seeds);
    var pred := BuildPred(c, dist, children);
    t := RouteTable(dist, pred, children);
  }
}
