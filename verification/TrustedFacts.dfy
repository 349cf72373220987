/** Crossing a trust: which SIDs remain, which are reported, which go without a
    word, and that paths stay real. */
module TrustedFacts {
  import opened Wrappers
  import opened Text
  import opened Directory
  import opened Trusts
  import opened Trusted

  // ---------- Step 1 ----------

  lemma {:induction false} KeptExact(ms: seq<GroupMembership>, crossing: set<string>, m: GroupMembership)
    ensures multiset(Kept(ms, crossing))[m] == if Upper(m.groupSid) in crossing then multiset(ms)[m] else 0
  {
    hide Upper;
    if ms != [] {
      var n := |ms| - 1;
      KeptExact(ms[..n], crossing, m);
      assert ms == ms[..n] + [ms[n]];
    }
  }

  lemma KeptLast(front: seq<GroupMembership>, m: GroupMembership, crossing: set<string>)
    ensures Kept(front + [m], crossing)
         == Kept(front, crossing) + (if Upper(m.groupSid) in crossing then [m] else [])
  {
    hide Upper;
    assert (front + [m])[..|front|] == front;
  }

  /** The kept memberships keep their order. */
  lemma {:induction false} KeptKeepsOrder(a: seq<GroupMembership>, b: seq<GroupMembership>, crossing: set<string>)
    ensures Kept(a + b, crossing) == Kept(a, crossing) + Kept(b, crossing)
  {
    hide Upper;
    if b == [] {
      assert a + b == a;
    } else {
      var front, m := b[..|b| - 1], b[|b| - 1];
      hide *;
      assert a + b == (a + front) + [m] && b == front + [m];
      KeptKeepsOrder(a, front, crossing);
      KeptLast(front, m, crossing);
      KeptLast(a + front, m, crossing);
    }
  }

  lemma {:induction false} KeptKeys(ms: seq<GroupMembership>, crossing: set<string>)
    ensures KeySet(SidsOf(Kept(ms, crossing))) == KeySet(SidsOf(ms)) * crossing
  {
    hide Upper;
    if ms != [] {
      var n := |ms| - 1;
      var before := Kept(ms[..n], crossing);
      KeptKeys(ms[..n], crossing);
      KeySetSnoc(ms[..n], ms[n]);
      KeySetSnoc(before, ms[n]);
      assert ms == ms[..n] + [ms[n]];
      assert Kept(ms, crossing) == if Upper(ms[n].groupSid) in crossing then before + [ms[n]] else before;
      hide *;
    }
  }

  lemma {:induction false} WithoutChainKeys(sids: seq<Sid>, keys: set<string>)
    ensures KeySet(WithoutChain(sids, keys)) == KeySet(sids) - keys
  {
    hide Upper;
    if sids != [] {
      var n := |sids| - 1;
      var before := WithoutChain(sids[..n], keys);
      WithoutChainKeys(sids[..n], keys);
      assert sids == sids[..n] + [sids[n]];
      KeySetAppend(sids[..n], [sids[n]]);
      KeySetAppend(before, [sids[n]]);
      KeySetOne(sids[n]);
      assert WithoutChain(sids, keys) == if Upper(sids[n]) in keys then before else before + [sids[n]];
      hide *;
    }
  }

  lemma KeySetOne(s: Sid)
    ensures KeySet([s]) == {Upper(s)}
  {
    hide Upper;
    assert [s][0] == s;
  }

  lemma KeySetAppend(a: seq<Sid>, b: seq<Sid>)
    ensures KeySet(a + b) == KeySet(a) + KeySet(b)
  {
    hide Upper;
    var s := a + b;
    assert forall i :: 0 <= i < |a| ==> s[i] == a[i];
    assert forall i :: 0 <= i < |b| ==> s[|a| + i] == b[i];
  }

  /** The kept memberships and the SIDs without a known chain together are the
      set the domain controller hands to other domains; no SID is in both. */
  lemma SelectionIsTheGlobalSet(ms: seq<GroupMembership>, global: seq<Sid>)
    ensures var s := SelectionOf(ms, global);
      && KeySet(SidsOf(s.kept)) + KeySet(s.withoutChain) == KeySet(global)
      && KeySet(SidsOf(s.kept)) !! KeySet(s.withoutChain)
  {
    var s := SelectionOf(ms, global);
    KeptKeys(ms, KeySet(global));
    WithoutChainKeys(global, KeySet(SidsOf(s.kept)));
    hide KeySet, SidsOf, Kept, WithoutChain, HomeOnly;
  }

  function ShownSids(shown: seq<Shown>): seq<Sid> {
    seq(|shown|, i requires 0 <= i < |shown| => shown[i].sid)
  }

  /** Every group is kept or named as applying at home only, each once. */
  lemma {:induction false} HomeOnlyExact(ms: seq<GroupMembership>, crossing: set<string>)
    ensures KeySet(ShownSids(HomeOnly(ms, crossing))) == KeySet(SidsOf(ms)) - crossing
    ensures forall i, j :: 0 <= i < j < |HomeOnly(ms, crossing)| ==>
      Upper(HomeOnly(ms, crossing)[i].sid) != Upper(HomeOnly(ms, crossing)[j].sid)
  {
    hide Upper;
    if ms != [] {
      var n := |ms| - 1;
      var before := HomeOnly(ms[..n], crossing);
      HomeOnlyExact(ms[..n], crossing);
      KeySetSnoc(ms[..n], ms[n]);
      assert ms == ms[..n] + [ms[n]];
      var s := Shown(ms[n].groupSid, ms[n].groupName, OfGroup);
      assert HomeOnly(ms, crossing)
          == if Upper(s.sid) in crossing + KeySet(SidsOf(ms[..n])) then before else before + [s];
      assert ShownSids(before + [s]) == ShownSids(before) + [s.sid];
      KeySetAppend(ShownSids(before), [s.sid]);
      KeySetOne(s.sid);
      forall i | 0 <= i < |before| ensures Upper(before[i].sid) in KeySet(ShownSids(before)) {
        assert ShownSids(before)[i] == before[i].sid;
      }
      hide *;
    }
  }

  // ---------- Step 2 ----------

  /** All SIDs of the histories of `ms`. */
  function Histories(ms: seq<GroupMembership>): multiset<Sid> {
    if ms == [] then multiset{}
    else Histories(ms[..|ms| - 1]) + multiset(ms[|ms| - 1].history)
  }

  /** Every SID a token carries. */
  function AllSids(t: Token): multiset<Sid> {
    multiset(t.history) + multiset(SidsOf(t.groups)) + Histories(t.groups)
  }

  /** The histories of the groups that are dropped go with them. */
  function HistoriesOfDropped(r: Rule, ms: seq<GroupMembership>): multiset<Sid> {
    if ms == [] then multiset{}
    else
      var m := ms[|ms| - 1];
      HistoriesOfDropped(r, ms[..|ms| - 1]) + if Passes(r, m.groupSid) then multiset{} else multiset(m.history)
  }

  lemma ShownAppend(a: seq<Shown>, b: seq<Shown>)
    ensures multiset(ShownSids(a + b)) == multiset(ShownSids(a)) + multiset(ShownSids(b))
  {
    assert ShownSids(a + b) == ShownSids(a) + ShownSids(b);
  }

  lemma {:induction false} PassingExact(r: Rule, sids: seq<Sid>, name: Option<Name>, origin: Origin)
    ensures forall s :: s in Passing(r, sids) ==> Passes(r, s)
    ensures forall d :: d in Dropped(r, sids, name, origin) ==> !Passes(r, d.sid) && d.origin == origin
  {
    hide Passes;
    if sids != [] {
      PassingExact(r, sids[..|sids| - 1], name, origin);
    }
  }

  lemma Snoc(a: seq<Sid>, s: Sid)
    ensures multiset(a + [s]) == multiset(a) + multiset{s}
  {
  }

  lemma PassingLast(r: Rule, front: seq<Sid>, s: Sid, name: Option<Name>, origin: Origin)
    ensures Passing(r, front + [s]) == Passing(r, front) + (if Passes(r, s) then [s] else [])
    ensures Dropped(r, front + [s], name, origin)
         == Dropped(r, front, name, origin) + (if Passes(r, s) then [] else [Shown(s, name, origin)])
  {
    hide Passes;
    assert (front + [s])[..|front|] == front;
  }

  /** One more SID goes to one of the two sides. */
  lemma OneSide(front: seq<Sid>, kept: seq<Sid>, drop: seq<Shown>, d: Shown, passes: bool)
    requires multiset(front) == multiset(kept) + multiset(ShownSids(drop))
    ensures multiset(front + [d.sid])
         == multiset(kept + (if passes then [d.sid] else []))
            + multiset(ShownSids(drop + (if passes then [] else [d])))
  {
    hide *;
    Snoc(front, d.sid);
    if passes {
      Snoc(kept, d.sid);
      assert drop + [] == drop;
    } else {
      ShownSnoc(drop, d);
      assert kept + [] == kept;
    }
  }

  lemma {:induction false} PassingConserves(r: Rule, sids: seq<Sid>, name: Option<Name>, origin: Origin)
    ensures multiset(sids) == multiset(Passing(r, sids)) + multiset(ShownSids(Dropped(r, sids, name, origin)))
  {
    if sids != [] {
      hide *;
      var front, s := sids[..|sids| - 1], sids[|sids| - 1];
      assert sids == front + [s];
      PassingConserves(r, front, name, origin);
      PassingLast(r, front, s, name, origin);
      OneSide(front, Passing(r, front), Dropped(r, front, name, origin), Shown(s, name, origin), Passes(r, s));
    }
  }

  lemma ShownSnoc(a: seq<Shown>, d: Shown)
    ensures multiset(ShownSids(a + [d])) == multiset(ShownSids(a)) + multiset{d.sid}
  {
    assert ShownSids(a + [d]) == ShownSids(a) + [d.sid];
  }

  lemma SidsAppend(a: seq<GroupMembership>, m: GroupMembership)
    ensures SidsOf(a + [m]) == SidsOf(a) + [m.groupSid]
  {
  }

  lemma {:induction false} GroupsExact(r: Rule, ms: seq<GroupMembership>)
    ensures forall m :: m in PassingGroups(r, ms) ==> Passes(r, m.groupSid) && m in ms
    ensures forall d :: d in DroppedGroups(r, ms) ==> !Passes(r, d.sid) && d.origin == OfGroup
  {
    hide Passes;
    if ms != [] {
      GroupsExact(r, ms[..|ms| - 1]);
    }
  }

  lemma HistoriesAppend(a: seq<GroupMembership>, m: GroupMembership)
    ensures Histories(a + [m]) == Histories(a) + multiset(m.history)
  {
    assert (a + [m])[..|a|] == a;
  }

  lemma GroupsLast(r: Rule, front: seq<GroupMembership>, m: GroupMembership)
    ensures var passes := Passes(r, m.groupSid);
      && PassingGroups(r, front + [m]) == PassingGroups(r, front) + (if passes then [m] else [])
      && DroppedGroups(r, front + [m])
         == DroppedGroups(r, front) + (if passes then [] else [Shown(m.groupSid, m.groupName, OfGroup)])
      && HistoriesOfDropped(r, front + [m])
         == HistoriesOfDropped(r, front) + (if passes then multiset{} else multiset(m.history))
  {
    hide Passes;
    assert (front + [m])[..|front|] == front;
  }

  lemma SidsMaybe(kept: seq<GroupMembership>, m: GroupMembership, passes: bool)
    ensures SidsOf(kept + (if passes then [m] else [])) == SidsOf(kept) + (if passes then [m.groupSid] else [])
    ensures Histories(kept + (if passes then [m] else []))
         == Histories(kept) + (if passes then multiset(m.history) else multiset{})
  {
    hide *;
    if passes {
      SidsAppend(kept, m);
      HistoriesAppend(kept, m);
    } else {
      assert kept + [] == kept;
      assert SidsOf(kept) + [] == SidsOf(kept);
    }
  }

  lemma NoGroups(r: Rule)
    ensures PassingGroups(r, []) == FilterHistories(r, []) == [] && DroppedGroups(r, []) == DroppedHistories(r, []) == []
    ensures Histories([]) == HistoriesOfDropped(r, []) == multiset{}
    ensures SidsOf([]) == ShownSids([]) == []
  {
  }

  lemma {:induction false} GroupSidsConserve(r: Rule, ms: seq<GroupMembership>)
    ensures multiset(SidsOf(ms))
         == multiset(SidsOf(PassingGroups(r, ms))) + multiset(ShownSids(DroppedGroups(r, ms)))
  {
    hide *;
    NoGroups(r);
    if ms != [] {
      var front, m := ms[..|ms| - 1], ms[|ms| - 1];
      assert ms == front + [m];
      var kept, drop, passes := PassingGroups(r, front), DroppedGroups(r, front), Passes(r, m.groupSid);
      GroupSidsConserve(r, front);
      GroupsLast(r, front, m);
      SidsMaybe(kept, m, passes);
      SidsAppend(front, m);
      OneSide(SidsOf(front), SidsOf(kept), drop, Shown(m.groupSid, m.groupName, OfGroup), passes);
    }
  }

  lemma {:induction false} DroppedGoWithHistories(r: Rule, ms: seq<GroupMembership>)
    ensures Histories(ms) == Histories(PassingGroups(r, ms)) + HistoriesOfDropped(r, ms)
  {
    hide *;
    NoGroups(r);
    if ms != [] {
      var front, m := ms[..|ms| - 1], ms[|ms| - 1];
      assert ms == front + [m];
      DroppedGoWithHistories(r, front);
      GroupsLast(r, front, m);
      SidsMaybe(PassingGroups(r, front), m, Passes(r, m.groupSid));
      HistoriesAppend(front, m);
    }
  }

  lemma {:induction false} HistoriesExact(r: Rule, ms: seq<GroupMembership>)
    ensures SidsOf(FilterHistories(r, ms)) == SidsOf(ms)
    ensures forall m :: m in FilterHistories(r, ms) ==> forall s :: s in m.history ==> Passes(r, s)
    ensures forall d :: d in DroppedHistories(r, ms) ==> !Passes(r, d.sid) && d.origin.OfHistory?
  {
    if ms != [] {
      var n := |ms| - 1;
      var m := ms[n];
      var kept, drop := FilterHistories(r, ms[..n]), DroppedHistories(r, ms[..n]);
      var last := FilterHistory(r, m);
      HistoriesExact(r, ms[..n]);
      PassingExact(r, m.history, m.groupName, OfHistory(m.groupSid));
      assert last.history == Passing(r, m.history) && last.groupSid == m.groupSid;
      FilterHistoriesLast(r, ms);
      SidsAppend(kept, last);
      SidsAppend(ms[..n], m);
      assert DroppedHistories(r, ms) == drop + Dropped(r, m.history, m.groupName, OfHistory(m.groupSid));
      hide *;
      assert ms == ms[..n] + [m];
    }
  }

  lemma FilterHistoriesLast(r: Rule, ms: seq<GroupMembership>)
    requires ms != []
    ensures FilterHistories(r, ms) == FilterHistories(r, ms[..|ms| - 1]) + [FilterHistory(r, ms[|ms| - 1])]
  {
    hide FilterHistory;
  }

  lemma DroppedHistoriesLast(r: Rule, front: seq<GroupMembership>, m: GroupMembership)
    ensures DroppedHistories(r, front + [m])
         == DroppedHistories(r, front) + Dropped(r, m.history, m.groupName, OfHistory(m.groupSid))
    ensures FilterHistories(r, front + [m]) == FilterHistories(r, front) + [FilterHistory(r, m)]
    ensures FilterHistory(r, m).history == Passing(r, m.history)
  {
    hide Dropped, Passing;
    assert (front + [m])[..|front|] == front;
    FilterHistoriesLast(r, front + [m]);
  }

  lemma {:induction false} HistoriesConserve(r: Rule, ms: seq<GroupMembership>)
    ensures Histories(ms) == Histories(FilterHistories(r, ms)) + multiset(ShownSids(DroppedHistories(r, ms)))
  {
    hide *;
    NoGroups(r);
    if ms != [] {
      var front, m := ms[..|ms| - 1], ms[|ms| - 1];
      assert ms == front + [m];
      HistoriesConserve(r, front);
      PassingConserves(r, m.history, m.groupName, OfHistory(m.groupSid));
      DroppedHistoriesLast(r, front, m);
      ShownAppend(DroppedHistories(r, front), Dropped(r, m.history, m.groupName, OfHistory(m.groupSid)));
      HistoriesAppend(front, m);
      HistoriesAppend(FilterHistories(r, front), FilterHistory(r, m));
    }
  }

  /** The SIDs before are those that remain, those reported, each once, and the
      histories of the dropped groups, which nothing reports. */
  lemma FilterConserves(r: Rule, t: Token)
    ensures AllSids(t)
         == AllSids(FilterToken(r, t)) + multiset(ShownSids(Report(r, t))) + HistoriesOfDropped(r, t.groups)
  {
    var pass := PassingGroups(r, t.groups);
    PassingConserves(r, t.history, None, OfAccountHistory);
    GroupSidsConserve(r, t.groups);
    DroppedGoWithHistories(r, t.groups);
    HistoriesConserve(r, pass);
    HistoriesExact(r, pass);
    ShownAppend(Dropped(r, t.history, None, OfAccountHistory), DroppedGroups(r, t.groups));
    ShownAppend(Dropped(r, t.history, None, OfAccountHistory) + DroppedGroups(r, t.groups), DroppedHistories(r, pass));
    hide Passing, PassingGroups, Dropped, DroppedGroups, DroppedHistories, Histories, HistoriesOfDropped,
      FilterHistories, SidsOf, ShownSids;
  }

  // ---------- What nothing reports ----------

  /** The group is dropped and has historical SIDs. */
  predicate TakesHistory(r: Rule, m: GroupMembership) {
    !Passes(r, m.groupSid) && m.history != []
  }

  /** The SIDs that go without a report are those of the histories of dropped
      groups. */
  lemma {:induction false} LostExactly(r: Rule, ms: seq<GroupMembership>, s: Sid)
    ensures s in HistoriesOfDropped(r, ms) <==> exists m :: m in ms && !Passes(r, m.groupSid) && s in m.history
  {
    hide Passes;
    if ms != [] {
      var front, m := ms[..|ms| - 1], ms[|ms| - 1];
      assert ms == front + [m];
      LostExactly(r, front, s);
      GroupsLast(r, front, m);
    }
  }

  lemma NothingLostExactly(r: Rule, ms: seq<GroupMembership>)
    ensures HistoriesOfDropped(r, ms) == multiset{} <==> forall m :: m in ms ==> !TakesHistory(r, m)
  {
    forall s ensures s in HistoriesOfDropped(r, ms) <==> exists m :: m in ms && !Passes(r, m.groupSid) && s in m.history {
      LostExactly(r, ms, s);
    }
    hide HistoriesOfDropped, Passes;
    if forall m :: m in ms ==> !TakesHistory(r, m) {
      assert forall s :: s !in HistoriesOfDropped(r, ms);
    }
    if m :| m in ms && TakesHistory(r, m) {
      assert m.history[0] in HistoriesOfDropped(r, ms);
    }
  }

  lemma NothingAdded(a: multiset<Sid>, b: multiset<Sid>)
    ensures a + b == a <==> b == multiset{}
  {
    if a + b == a {
      forall s ensures b[s] == 0 {
        assert (a + b)[s] == a[s];
      }
    }
  }

  /** Every SID remains or is reported, if and only if no dropped group has
      historical SIDs. */
  lemma FilterIsSilentUnless(r: Rule, t: Token)
    ensures AllSids(t) == AllSids(FilterToken(r, t)) + multiset(ShownSids(Report(r, t)))
      <==> forall m :: m in t.groups ==> !TakesHistory(r, m)
  {
    FilterConserves(r, t);
    NothingLostExactly(r, t.groups);
    NothingAdded(AllSids(FilterToken(r, t)) + multiset(ShownSids(Report(r, t))), HistoriesOfDropped(r, t.groups));
    hide AllSids, FilterToken, Report, ShownSids, HistoriesOfDropped, TakesHistory;
  }

  /** A historical SID of a dropped group goes even when the trust lets that SID
      itself through. */
  lemma PassingSidIsLost(r: Rule, m: GroupMembership, h: Sid)
    requires !Passes(r, m.groupSid) && Passes(r, h) && m.history == [h]
    ensures var t := Token([], 0, [m]);
      && h in AllSids(t) && FilterToken(r, t).groups == [] && h !in AllSids(FilterToken(r, t))
      && forall d :: d in Report(r, t) ==> d.sid != h
  {
    var t := Token([], 0, [m]);
    FilterIsExact(r, t);
    GroupsLast(r, [], m);
    NoGroups(r);
    HistoriesAppend([], m);
    assert [] + [m] == [m];
    hide Passes;
  }

  /** Exactly the SIDs the rule lets through remain; exactly others are
      reported. */
  lemma FilterIsExact(r: Rule, t: Token)
    ensures var f := FilterToken(r, t);
      && (forall s :: s in f.history ==> Passes(r, s))
      && (forall m :: m in f.groups ==> Passes(r, m.groupSid) && forall s :: s in m.history ==> Passes(r, s))
    ensures forall d :: d in Report(r, t) ==> !Passes(r, d.sid)
  {
    var pass := PassingGroups(r, t.groups);
    var f := FilterToken(r, t);
    PassingExact(r, t.history, None, OfAccountHistory);
    GroupsExact(r, t.groups);
    HistoriesExact(r, pass);
    assert f.groups == FilterHistories(r, pass);
    hide Passing, PassingGroups, Dropped, DroppedGroups, DroppedHistories, Histories, HistoriesOfDropped, Passes, FilterHistories;
    forall m | m in f.groups ensures Passes(r, m.groupSid) {
      var i :| 0 <= i < |f.groups| && f.groups[i] == m;
      assert SidsOf(f.groups)[i] == SidsOf(pass)[i];
      assert pass[i] in pass;
    }
  }

  /** Filtering works piece by piece: what remains keeps its order. */
  lemma {:induction false} PassingKeepsOrder(r: Rule, a: seq<Sid>, b: seq<Sid>)
    ensures Passing(r, a + b) == Passing(r, a) + Passing(r, b)
  {
    hide Passes;
    if b == [] {
      assert a + b == a;
    } else {
      var front, s := b[..|b| - 1], b[|b| - 1];
      hide *;
      assert a + b == (a + front) + [s] && b == front + [s];
      PassingKeepsOrder(r, a, front);
      PassingLast(r, front, s, None, OfGroup);
      PassingLast(r, a + front, s, None, OfGroup);
    }
  }

  lemma {:induction false} GroupsKeepOrder(r: Rule, a: seq<GroupMembership>, b: seq<GroupMembership>)
    ensures PassingGroups(r, a + b) == PassingGroups(r, a) + PassingGroups(r, b)
    ensures DroppedGroups(r, a + b) == DroppedGroups(r, a) + DroppedGroups(r, b)
  {
    hide Passes;
    if b == [] {
      assert a + b == a;
    } else {
      var front, m := b[..|b| - 1], b[|b| - 1];
      hide *;
      assert a + b == (a + front) + [m] && b == front + [m];
      GroupsKeepOrder(r, a, front);
      GroupsLast(r, front, m);
      GroupsLast(r, a + front, m);
    }
  }

  lemma {:induction false} AllPass(r: Rule, sids: seq<Sid>)
    requires forall s :: s in sids ==> Passes(r, s)
    ensures Passing(r, sids) == sids
    ensures forall name, origin :: Dropped(r, sids, name, origin) == []
  {
    hide Passes;
    if sids != [] {
      AllPass(r, sids[..|sids| - 1]);
    }
  }

  lemma {:induction false} AllGroupsPass(r: Rule, ms: seq<GroupMembership>)
    requires forall m :: m in ms ==> Passes(r, m.groupSid) && forall s :: s in m.history ==> Passes(r, s)
    ensures PassingGroups(r, ms) == ms && DroppedGroups(r, ms) == [] && DroppedHistories(r, ms) == []
  {
    if ms != [] {
      hide *;
      var front, m := ms[..|ms| - 1], ms[|ms| - 1];
      assert ms == front + [m];
      AllGroupsPass(r, front);
      AllPass(r, m.history);
      GroupsLast(r, front, m);
      DroppedHistoriesLast(r, front, m);
      assert Dropped(r, m.history, m.groupName, OfHistory(m.groupSid)) == [];
    }
  }

  lemma HistoriesUnchanged(r: Rule, ms: seq<GroupMembership>)
    requires forall m :: m in ms ==> forall s :: s in m.history ==> Passes(r, s)
    ensures FilterHistories(r, ms) == ms
  {
    hide Passes, Passing;
    forall i | 0 <= i < |ms| ensures FilterHistory(r, ms[i]) == ms[i] {
      AllPass(r, ms[i].history);
    }
  }

  /** A second filtering changes and reports nothing. */
  lemma FilterIsIdempotent(r: Rule, t: Token)
    ensures FilterToken(r, FilterToken(r, t)) == FilterToken(r, t)
    ensures Report(r, FilterToken(r, t)) == []
  {
    var f := FilterToken(r, t);
    FilterIsExact(r, t);
    AllPass(r, f.history);
    AllGroupsPass(r, f.groups);
    HistoriesUnchanged(r, f.groups);
    assert Passing(r, f.history) == f.history && PassingGroups(r, f.groups) == f.groups;
    assert Dropped(r, f.history, None, OfAccountHistory) == [];
    hide Passing, PassingGroups, Dropped, DroppedGroups, DroppedHistories, FilterHistories, Passes;
  }

  /** The number of values nobody could read stays the same exactly when the
      stated number covers the values taken out; else it becomes what is left
      of zero. */
  lemma UnreadValuesKept(r: Rule, m: GroupMembership)
    ensures var f := FilterHistory(r, m);
      && (f.historyCount - |f.history| == m.historyCount - |m.history|
          <==> |m.history| - |f.history| <= m.historyCount)
      && (m.historyCount >= |m.history| ==>
            f.historyCount >= |f.history| && f.historyCount - |f.history| == m.historyCount - |m.history|)
  {
    hide Passing;
  }

  lemma UnreadAccountValuesKept(r: Rule, t: Token)
    ensures var f := FilterToken(r, t);
      f.historyCount - |f.history| == t.historyCount - |t.history|
      <==> |t.history| - |f.history| <= t.historyCount
  {
    hide Passing, FilterHistories, PassingGroups;
  }

  /** A quarantine that is not a forest trust lets only the SIDs of the
      trusted domain through. */
  lemma QuarantineIsTheDomain(domain: string, attributes: nat, forest: Option<TrustedForest>, sid: Sid)
    requires !ForestTransitive(attributes)
    ensures Passes(RuleOf(domain, attributes, forest), sid) <==> OfDomain(sid, domain)
  {
  }

  // ---------- Step 3 ----------

  /** `member(a, b)`: `a` is a member of `b` in one of the directories. */
  type Direct = (Sid, Sid) -> bool

  predicate IsPath(member: Direct, nodes: seq<Sid>) {
    forall i :: 0 <= i < |nodes| - 1 ==> member(nodes[i], nodes[i + 1])
  }

  predicate RealPath(member: Direct, p: MembershipPath, from: Sid, to: Sid) {
    && p.nodes != [] && p.nodes[0] == from && p.nodes[|p.nodes| - 1] == to
    && IsPath(member, p.nodes)
  }

  /** A membership whose path, when complete, is real. */
  predicate Honest(member: Direct, m: GroupMembership, from: Sid) {
    m.path.Some? && m.path.value.complete ==> RealPath(member, m.path.value, from, m.groupSid)
  }

  /** Two paths one behind the other. */
  lemma JoinedPath(member: Direct, a: seq<Sid>, b: seq<Sid>)
    requires a != [] && b != [] && IsPath(member, a) && IsPath(member, b)
    ensures IsPath(member, a + b) <==> member(a[|a| - 1], b[0])
  {
    var n := a + b;
    if member(a[|a| - 1], b[0]) {
      forall i | 0 <= i < |n| - 1 ensures member(n[i], n[i + 1]) {
        if i >= |a| {
          assert n[i] == b[i - |a|] && n[i + 1] == b[i - |a| + 1];
        }
      }
    }
    assert n[|a| - 1] == a[|a| - 1] && n[|a|] == b[0];
  }

  lemma PathTail(member: Direct, p: seq<Sid>)
    requires |p| > 1 && IsPath(member, p)
    ensures IsPath(member, Tail(p)) && member(p[0], p[1])
  {
    var t := Tail(p);
    forall i | 0 <= i < |t| - 1 ensures member(t[i], t[i + 1]) {
      assert t[i] == p[i + 1] && t[i + 1] == p[i + 2];
    }
  }

  /** The nodes and names of a splice: the home path, then the resource path. */
  predicate Aligned(home: MembershipPath, resource: MembershipPath, p: MembershipPath) {
    && |p.nodes| == |home.nodes| + |resource.nodes| - 1 && |p.names| == |p.nodes|
    && home.nodes <= p.nodes
    && (|home.nodes| > 0 ==> resource.nodes == p.nodes[|home.nodes| - 1..])
    && (forall i :: 0 <= i < |home.nodes| && i < |home.names| ==> p.names[i] == home.names[i])
    && (forall i :: 0 < i < |resource.nodes| && i < |resource.names| ==>
          |home.nodes| - 1 + i >= 0 && p.names[|home.nodes| - 1 + i] == resource.names[i])
  }

  lemma SpliceNodes(home: MembershipPath, resource: MembershipPath)
    requires home.nodes != [] && resource.nodes != [] && home.nodes[|home.nodes| - 1] == resource.nodes[0]
    ensures var p := Splice(home, resource);
      && |p.nodes| == |home.nodes| + |resource.nodes| - 1
      && home.nodes <= p.nodes && resource.nodes == p.nodes[|home.nodes| - 1..]
  {
    hide Resized;
  }

  lemma SpliceNames(home: MembershipPath, resource: MembershipPath)
    requires home.nodes != [] && resource.nodes != []
    ensures var p := Splice(home, resource);
      && |p.names| == |home.nodes| + |resource.nodes| - 1
      && (forall i :: 0 <= i < |home.nodes| && i < |home.names| ==> p.names[i] == home.names[i])
      && (forall i :: 0 < i < |resource.nodes| && i < |resource.names| ==>
            p.names[|home.nodes| - 1 + i] == resource.names[i])
  {
  }

  /** Continuing a real home path to `via` by a real resource path from `via`
      gives a real path, with a name for every node that had one. */
  lemma SpliceIsReal(member: Direct, home: MembershipPath, resource: MembershipPath, from: Sid, via: Sid, to: Sid)
    requires RealPath(member, home, from, via) && RealPath(member, resource, via, to)
    ensures var p := Splice(home, resource);
      && RealPath(member, p, from, to) && Aligned(home, resource, p)
      && (p.complete <==> home.complete && resource.complete)
  {
    hide Splice, Resized, IsPath, Tail;
    SpliceNodes(home, resource);
    SpliceNames(home, resource);
    SplicedPath(member, home, resource);
    SpliceComplete(home, resource);
  }

  lemma SpliceComplete(home: MembershipPath, resource: MembershipPath)
    ensures Splice(home, resource).complete <==> home.complete && resource.complete
  {
    hide Resized, Tail;
  }

  lemma SplicedPath(member: Direct, home: MembershipPath, resource: MembershipPath)
    requires home.nodes != [] && resource.nodes != [] && home.nodes[|home.nodes| - 1] == resource.nodes[0]
    requires IsPath(member, home.nodes) && IsPath(member, resource.nodes)
    ensures IsPath(member, Splice(home, resource).nodes)
  {
    assert Splice(home, resource).nodes == home.nodes + Tail(resource.nodes);
    hide Splice, Resized, IsPath;
    if |resource.nodes| > 1 {
      PathTail(member, resource.nodes);
      JoinedPath(member, home.nodes, Tail(resource.nodes));
    } else {
      assert home.nodes + Tail(resource.nodes) == home.nodes;
    }
  }

  /** The splice drops the first node of the resource path, so two real paths
      give a real one exactly when the home path's last node is a member of
      the resource path's second node: starting where the home path ends is
      what guarantees it. */
  lemma SpliceNeedsTheSameNode(member: Direct, home: MembershipPath, resource: MembershipPath)
    requires IsPath(member, home.nodes) && IsPath(member, resource.nodes)
    requires home.nodes != [] && |resource.nodes| > 1
    ensures IsPath(member, Splice(home, resource).nodes)
      <==> member(home.nodes[|home.nodes| - 1], resource.nodes[1])
  {
    PathTail(member, resource.nodes);
    JoinedPath(member, home.nodes, Tail(resource.nodes));
    hide Resized, IsPath;
  }

  /** The chained membership is the account's, and its complete path is real. */
  lemma ChainThroughIsHonest(
    member: Direct, account: Sid, home: Option<GroupMembership>, resource: GroupMembership)
    requires home.Some? ==> Honest(member, home.value, account)
    requires Honest(member, resource, if home.Some? then home.value.groupSid else account)
    ensures var m := ChainThrough(account, home, resource);
      Honest(member, m, account) && m.memberSid == account && m.groupSid == resource.groupSid
  {
    hide IsPath, Resized;
    if home.Some? && home.value.path.Some? && resource.path.Some? {
      var h, r := home.value.path.value, resource.path.value;
      if h.complete && r.complete {
        SpliceIsReal(member, h, r, account, home.value.groupSid, resource.groupSid);
      }
    }
  }
}
