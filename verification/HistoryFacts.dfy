/** What the tally of the groups' historical SIDs says. */
module HistoryFacts {
  import opened Wrappers
  import opened Directory
  import opened Principal
  import StableSort
  import TrustedAccount

  /** The first membership of its group. */
  predicate IsFirst(ms: seq<GroupMembership>, i: nat) {
    i < |ms| && forall j :: 0 <= j < i ==> ms[j].groupSid != ms[i].groupSid
  }

  /** Repeating a group does not inflate the counts. */
  lemma RepeatsDoNotCount(ms: seq<GroupMembership>, m: GroupMembership)
    requires exists i :: 0 <= i < |ms| && ms[i].groupSid == m.groupSid
    ensures TallyOf(ms + [m]) == TallyOf(ms)
  {
    assert (ms + [m])[..|ms|] == ms;
  }

  lemma IsFirstPush(ms: seq<GroupMembership>, m: GroupMembership, i: nat)
    ensures IsFirst(ms + [m], i) <==> IsFirst(ms, i) || (i == |ms| && m.groupSid !in GroupSids(ms))
  {
    var all := ms + [m];
    assert forall j :: 0 <= j < |ms| ==> all[j] == ms[j];
  }

  /** Unread values are reported exactly when the first membership of some
      group states more values than could be read, read ones exactly when one
      has any. */
  lemma {:induction false} TallyExact(ms: seq<GroupMembership>)
    ensures TallyOf(ms).unevaluated > 0 <==>
      exists i: nat :: IsFirst(ms, i) && ms[i].historyCount > |ms[i].history|
    ensures TallyOf(ms).evaluated > 0 <==>
      exists i: nat :: IsFirst(ms, i) && ms[i].historyCount > 0 && ms[i].history != []
  {
    if ms != [] {
      var front, m := ms[..|ms| - 1], ms[|ms| - 1];
      assert ms == front + [m];
      TallyExact(front);
      TallyPush(front, m);
      hide TallyOf;
      forall i: nat ensures IsFirst(ms, i) <==> IsFirst(front, i) || (i == |front| && m.groupSid !in GroupSids(front)) {
        IsFirstPush(front, m, i);
      }
      assert forall i :: 0 <= i < |front| ==> front[i] == ms[i];
      assert ms[|front|] == m;
      hide GroupSids;
      TallyStep(front, ms, m);
    }
  }

  lemma TallyPush(ms: seq<GroupMembership>, m: GroupMembership)
    ensures TallyOf(ms + [m]) == if m.groupSid in GroupSids(ms) then TallyOf(ms) else Added(TallyOf(ms), m)
  {
    assert (ms + [m])[..|ms|] == ms;
  }

  lemma TallyStep(front: seq<GroupMembership>, ms: seq<GroupMembership>, m: GroupMembership)
    requires ms == front + [m]
    requires TallyOf(ms) == if m.groupSid in GroupSids(front) then TallyOf(front) else Added(TallyOf(front), m)
    requires forall i: nat :: IsFirst(ms, i) <==> IsFirst(front, i) || (i == |front| && m.groupSid !in GroupSids(front))
    requires TallyOf(front).unevaluated > 0 <==>
      exists i: nat :: IsFirst(front, i) && front[i].historyCount > |front[i].history|
    requires TallyOf(front).evaluated > 0 <==>
      exists i: nat :: IsFirst(front, i) && front[i].historyCount > 0 && front[i].history != []
    ensures TallyOf(ms).unevaluated > 0 <==>
      exists i: nat :: IsFirst(ms, i) && ms[i].historyCount > |ms[i].history|
    ensures TallyOf(ms).evaluated > 0 <==>
      exists i: nat :: IsFirst(ms, i) && ms[i].historyCount > 0 && ms[i].history != []
  {
    hide TallyOf, GroupSids;
    forall i: nat | IsFirst(front, i) ensures front[i] == ms[i] && IsFirst(ms, i) {
    }
    if m.groupSid !in GroupSids(front) {
      assert IsFirst(ms, |front|);
    }
    hide IsFirst;
  }

  // ---------- Order ----------

  function Plus(t: Tally, u: Tally): Tally {
    Tally(t.groups + u.groups, t.evaluated + u.evaluated, t.unevaluated + u.unevaluated)
  }

  const NOTHING := Tally(0, 0, 0)

  /** What one membership adds. */
  function Part(m: GroupMembership): Tally {
    Added(NOTHING, m)
  }

  lemma AddedIsPlus(t: Tally, m: GroupMembership)
    ensures Added(t, m) == Plus(t, Part(m))
  {
  }

  ghost function SumOver(s: set<Sid>, f: Sid -> Tally): Tally
    decreases s
  {
    if s == {} then NOTHING
    else
      var x :| x in s;
      Plus(f(x), SumOver(s - {x}, f))
  }

  lemma {:induction false} SumWithout(s: set<Sid>, f: Sid -> Tally, x: Sid)
    requires x in s
    ensures SumOver(s, f) == Plus(f(x), SumOver(s - {x}, f))
    decreases s
  {
    var y :| y in s && SumOver(s, f) == Plus(f(y), SumOver(s - {y}, f));
    hide SumOver;
    if y != x {
      SumWithout(s - {y}, f, x);
      SumWithout(s - {x}, f, y);
      var rest := SumOver(s - {x} - {y}, f);
      assert s - {y} - {x} == s - {x} - {y};
      assert SumOver(s - {y}, f) == Plus(f(x), rest);
      assert SumOver(s - {x}, f) == Plus(f(y), rest);
      assert Plus(f(y), Plus(f(x), rest)) == Plus(f(x), Plus(f(y), rest));
    }
  }

  /** `f` gives for each group what every membership of it adds. */
  ghost predicate Assigns(ms: seq<GroupMembership>, f: Sid -> Tally) {
    forall m :: m in ms ==> f(m.groupSid) == Part(m)
  }

  lemma {:induction false} TallyIsSum(ms: seq<GroupMembership>, f: Sid -> Tally)
    requires Assigns(ms, f)
    ensures TallyOf(ms) == SumOver(GroupSids(ms), f)
  {
    if ms == [] {
      assert GroupSids(ms) == {};
    } else {
      var front, m := ms[..|ms| - 1], ms[|ms| - 1];
      assert ms == front + [m];
      TallyIsSum(front, f);
      TallyPush(front, m);
      GroupSidsPush(front, m);
      AddedIsPlus(TallyOf(front), m);
      hide TallyOf, GroupSids, SumOver, Part, Added;
      var s := GroupSids(front);
      if m.groupSid in s {
        assert s + {m.groupSid} == s;
      } else {
        SumWithout(s + {m.groupSid}, f, m.groupSid);
        assert s + {m.groupSid} - {m.groupSid} == s;
      }
    }
  }

  /** The memberships of one group state the same. */
  predicate Agree(ms: seq<GroupMembership>) {
    forall x, y :: x in ms && y in ms && x.groupSid == y.groupSid ==> Part(x) == Part(y)
  }

  ghost function PartOf(ms: seq<GroupMembership>, s: Sid): Tally {
    if m :| m in ms && m.groupSid == s then Part(m) else NOTHING
  }

  lemma AgreeAssigns(ms: seq<GroupMembership>)
    requires Agree(ms)
    ensures Assigns(ms, s => PartOf(ms, s))
  {
    hide Part;
  }

  lemma SameGroups(a: seq<GroupMembership>, b: seq<GroupMembership>)
    requires multiset(a) == multiset(b)
    ensures GroupSids(a) == GroupSids(b)
    ensures forall m :: m in a <==> m in b
  {
    assert forall m :: m in a <==> m in multiset(a);
    assert forall m :: m in b <==> m in multiset(b);
    forall s ensures s in GroupSids(a) <==> s in GroupSids(b) {
      SidIn(a, s);
      SidIn(b, s);
    }
  }

  lemma SidIn(ms: seq<GroupMembership>, s: Sid)
    ensures s in GroupSids(ms) <==> exists m :: m in ms && m.groupSid == s
  {
    if m :| m in ms && m.groupSid == s {
      var i :| 0 <= i < |ms| && ms[i] == m;
    }
  }

  /** The memberships of the other groups, in order. */
  function Without(ms: seq<GroupMembership>, s: Sid): seq<GroupMembership> {
    if ms == [] then []
    else Without(ms[..|ms| - 1], s) + if ms[|ms| - 1].groupSid == s then [] else [ms[|ms| - 1]]
  }

  lemma WithoutPush(ms: seq<GroupMembership>, m: GroupMembership, s: Sid)
    ensures Without(ms + [m], s) == Without(ms, s) + if m.groupSid == s then [] else [m]
  {
    assert (ms + [m])[..|ms|] == ms;
  }

  lemma {:induction false} WithoutAppend(a: seq<GroupMembership>, b: seq<GroupMembership>, s: Sid)
    ensures Without(a + b, s) == Without(a, s) + Without(b, s)
  {
    if b == [] {
      assert a + b == a;
    } else {
      var front, m := b[..|b| - 1], b[|b| - 1];
      assert b == front + [m] && a + b == a + front + [m];
      WithoutAppend(a, front, s);
      WithoutPush(front, m, s);
      WithoutPush(a + front, m, s);
      hide *;
    }
  }

  lemma {:induction false} WithoutSids(ms: seq<GroupMembership>, s: Sid)
    ensures GroupSids(Without(ms, s)) == GroupSids(ms) - {s}
  {
    if ms == [] {
    } else {
      var front, m := ms[..|ms| - 1], ms[|ms| - 1];
      assert ms == front + [m];
      WithoutSids(front, s);
      WithoutPush(front, m, s);
      GroupSidsPush(front, m);
      GroupSidsPush(Without(front, s), m);
      hide *;
      assert Without(front, s) + [] == Without(front, s);
    }
  }

  /** The first membership of a group decides what the group adds. */
  lemma {:induction false} TallyFirst(m: GroupMembership, rest: seq<GroupMembership>)
    ensures TallyOf([m] + rest) == Plus(Part(m), TallyOf(Without(rest, m.groupSid)))
  {
    if rest == [] {
      assert [m] + rest == [] + [m];
      TallyPush([], m);
      AddedIsPlus(NOTHING, m);
    } else {
      var front, x := rest[..|rest| - 1], rest[|rest| - 1];
      assert rest == front + [x] && [m] + rest == [m] + front + [x];
      TallyFirst(m, front);
      TallyPush([m] + front, x);
      WithoutPush(front, x, m.groupSid);
      TallyPush(Without(front, m.groupSid), x);
      WithoutSids(front, m.groupSid);
      FirstSids(m, front);
      hide *;
      TallyFirstStep(m, front, x);
    }
  }

  lemma FirstSids(m: GroupMembership, front: seq<GroupMembership>)
    ensures GroupSids([m] + front) == {m.groupSid} + GroupSids(front)
  {
    var all := [m] + front;
    assert all[0] == m && forall i :: 0 <= i < |front| ==> all[i + 1] == front[i];
    forall s ensures s in GroupSids(all) <==> s == m.groupSid || s in GroupSids(front) {
      SidIn(all, s);
      SidIn(front, s);
    }
  }

  lemma TallyFirstStep(m: GroupMembership, front: seq<GroupMembership>, x: GroupMembership)
    requires TallyOf([m] + front) == Plus(Part(m), TallyOf(Without(front, m.groupSid)))
    requires TallyOf([m] + front + [x])
          == if x.groupSid in GroupSids([m] + front) then TallyOf([m] + front) else Added(TallyOf([m] + front), x)
    requires Without(front + [x], m.groupSid) == Without(front, m.groupSid) + if x.groupSid == m.groupSid then [] else [x]
    requires TallyOf(Without(front, m.groupSid) + [x])
          == if x.groupSid in GroupSids(Without(front, m.groupSid)) then TallyOf(Without(front, m.groupSid))
             else Added(TallyOf(Without(front, m.groupSid)), x)
    requires GroupSids(Without(front, m.groupSid)) == GroupSids(front) - {m.groupSid}
    requires GroupSids([m] + front) == {m.groupSid} + GroupSids(front)
    ensures TallyOf([m] + front + [x]) == Plus(Part(m), TallyOf(Without(front + [x], m.groupSid)))
  {
    var others := Without(front, m.groupSid);
    AddedIsPlus(TallyOf([m] + front), x);
    AddedIsPlus(TallyOf(others), x);
    hide TallyOf, GroupSids, Without, Part, Added;
    assert others + [] == others;
  }

  /** Every order of the memberships gives the same tally. */
  ghost predicate TallyForgetsOrder(a: seq<GroupMembership>) {
    forall b :: multiset(a) == multiset(b) ==> TallyOf(a) == TallyOf(b)
  }

  lemma AgreeingForgets(a: seq<GroupMembership>, b: seq<GroupMembership>)
    requires Agree(a) && multiset(a) == multiset(b)
    ensures TallyOf(a) == TallyOf(b)
  {
    var f := s => PartOf(a, s);
    AgreeAssigns(a);
    SameGroups(a, b);
    hide Agree, PartOf, TallyOf, GroupSids;
    TallyIsSum(a, f);
    TallyIsSum(b, f);
  }

  lemma MovedTally(pre: seq<GroupMembership>, m: GroupMembership, post: seq<GroupMembership>)
    ensures TallyOf([m] + (pre + post)) == Plus(Part(m), TallyOf(Without(pre + [m] + post, m.groupSid)))
  {
    var s := m.groupSid;
    hide *;
    TallyFirst(m, pre + post);
    WithoutPush(pre, m, s);
    WithoutAppend(pre + [m], post, s);
    WithoutAppend(pre, post, s);
    assert Without(pre, s) + [] == Without(pre, s);
  }

  lemma FrontTally(a: seq<GroupMembership>, i: nat)
    requires i < |a|
    ensures TallyOf(StableSort.ToFront(a, i)) == Plus(Part(a[i]), TallyOf(Without(a, a[i].groupSid)))
  {
    hide *;
    StableSort.ToFrontIs(a, i);
    MovedTally(a[..i], a[i], a[i + 1..]);
  }

  /** The tally does not depend on the order of the memberships if and only if
      the memberships of each group state the same. */
  lemma TallyForgetsOrderExactly(a: seq<GroupMembership>)
    ensures TallyForgetsOrder(a) <==> Agree(a)
  {
    if Agree(a) {
      forall b | multiset(a) == multiset(b) ensures TallyOf(a) == TallyOf(b) {
        AgreeingForgets(a, b);
      }
    }
    if TallyForgetsOrder(a) {
      hide TallyOf, Without, Part, StableSort.ToFront;
      forall x, y | x in a && y in a && x.groupSid == y.groupSid ensures Part(x) == Part(y) {
        var i :| 0 <= i < |a| && a[i] == x;
        var j :| 0 <= j < |a| && a[j] == y;
        StableSort.ToFrontPermutes(a, i);
        StableSort.ToFrontPermutes(a, j);
        FrontTally(a, i);
        FrontTally(a, j);
      }
    }
  }

  /** One group, listed once without a count and once with five unread values:
      the values show only when the second one comes first. */
  lemma LaterUnreadValuesAreNotShown(a: GroupMembership, b: GroupMembership)
    requires a.groupSid == b.groupSid && a.historyCount == 0 && b.historyCount == 5 && b.history == []
    ensures TallyOf([a, b]).unevaluated == 0 && TallyOf([b, a]).unevaluated == 5
  {
    PairTally(a, b);
    PairTally(b, a);
    hide TallyOf;
  }

  lemma PairTally(a: GroupMembership, b: GroupMembership)
    requires a.groupSid == b.groupSid
    ensures TallyOf([a, b]) == Part(a)
  {
    TallyPush([], a);
    TallyPush([a], b);
    assert [] + [a] == [a] && [a] + [b] == [a, b];
    assert [a][0] == a && b.groupSid in GroupSids([a]);
    assert TallyOf([]) == NOTHING;
    hide TallyOf;
  }

  /** A group that crosses a trust without a known chain states no history, so
      values it may have show in no diagnostic. */
  lemma WithoutPathShowsNoHistory(servers: TrustedAccount.Servers, account: Sid, g: Sid, ms: seq<GroupMembership>)
    ensures var m := TrustedAccount.WithoutPath(servers, account, g);
      m.historyCount == 0 && m.history == [] && TallyOf(ms + [m]) == TallyOf(ms)
  {
    TallyPush(ms, TrustedAccount.WithoutPath(servers, account, g));
    hide TallyOf;
  }
}
