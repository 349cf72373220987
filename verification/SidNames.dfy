/** The streaming cache of display names for SIDs. Name lookups on the
    analysing machine and on the target server are functions; everything holds
    for every pair of them. */
module SidNames {
  import opened Wrappers
  import opened SortedSets
  import opened Text
  import opened Directory

  const MAX_DISPLAY := 512
  const MAX_HOST := 255
  const U64_MAX := 0xFFFF_FFFF_FFFF_FFFF

  // ---------- Lookups ----------

  datatype Account = Account(name: string, domain: string)

  /** What the analysing machine and a named server answer for a SID. */
  datatype Lookups = Lookups(here: Sid -> Option<Account>, remote: (string, Sid) -> Option<Account>)

  /** A name fit to be shown: not blank, bounded, without control characters. */
  predicate Plausible(name: string) {
    && Trim(name) != ""
    && |name| <= MAX_DISPLAY
    && forall i :: 0 <= i < |name| ==> !IsControl(name[i])
  }

  function Display(a: Account): string {
    if a.domain == "" then a.name else a.domain + "\\" + a.name
  }

  /** The analysing machine is asked first, the target server after a miss. */
  function Found(l: Lookups, server: Option<string>, sid: Sid): Option<Account> {
    if l.here(sid).Some? then l.here(sid)
    else if server.Some? then l.remote(server.value, sid)
    else None
  }

  function NameOf(l: Lookups, server: Option<string>, sid: Sid): Option<string> {
    var a := Found(l, server, sid);
    if a.Some? && Plausible(Display(a.value)) then Some(Display(a.value)) else None
  }

  // ---------- Validation of the inputs ----------

  predicate HostChar(c: char) {
    'a' <= c <= 'z' || 'A' <= c <= 'Z' || '0' <= c <= '9' || c == '.' || c == '-' || c == '_'
  }

  function ValidServer(input: string): Option<string> {
    var t := Trim(input);
    if t != "" && |t| <= MAX_HOST && forall i :: 0 <= i < |t| ==> HostChar(t[i]) then Some(t) else None
  }

  predicate ValidSid(input: string) {
    var t := Trim(input);
    var parts := Split(t, '-');
    && StartsWith(t, "S-1-")
    && |parts| >= 4
    && forall i :: 1 <= i < |parts| ==> ParseUint(parts[i], U64_MAX).Some?
  }

  predicate Seedable(sid: string, display: string) {
    ValidSid(sid) && Plausible(display)
  }

  // ---------- The cache as a value ----------

  /** `asked` lists the SIDs that were looked up, in the order of the lookups. */
  datatype Cache = Cache(names: map<Sid, string>, tried: set<Sid>, asked: seq<Sid>)

  predicate Distinct(s: seq<Sid>) {
    forall i, j :: 0 <= i < j < |s| ==> s[i] != s[j]
  }

  /** Every name is for a tried SID; no SID was looked up twice. */
  predicate ValidCache(c: Cache) {
    c.names.Keys <= c.tried && Distinct(c.asked) && ToSet(c.asked) <= c.tried
  }

  /** The names the lookups yield for `sids`. */
  function Learned(l: Lookups, server: Option<string>, sids: set<Sid>): map<Sid, string> {
    map s | s in sids && NameOf(l, server, s).Some? :: NameOf(l, server, s).value
  }

  /** First occurrences of the SIDs outside `tried`. */
  function Fresh(sids: seq<Sid>, tried: set<Sid>): seq<Sid> {
    if sids == [] then []
    else (if sids[0] in tried then [] else [sids[0]]) + Fresh(sids[1..], tried + {sids[0]})
  }

  /** A batch of SIDs as one step: what it adds does not depend on order or
      repetition inside the batch. */
  function Resolved(l: Lookups, server: Option<string>, c: Cache, sids: seq<Sid>): Cache {
    Cache(
      c.names + Learned(l, server, ToSet(sids) - c.tried),
      c.tried + ToSet(sids),
      c.asked + Fresh(sids, c.tried))
  }

  function Seeded(c: Cache, sid: Sid, display: string): Cache {
    if !Seedable(sid, display) then c
    else Cache(if sid in c.names then c.names else c.names[sid := display], c.tried + {sid}, c.asked)
  }

  // ---------- Memberships as the first source of names ----------

  predicate Named(m: GroupMembership) {
    m.groupName.Some? && Plausible(m.groupName.value.text)
  }

  /** The names the memberships carry; of two for one SID the later one. */
  function PreNamed(ms: seq<GroupMembership>): map<Sid, string> {
    if ms == [] then map[]
    else
      var m := ms[|ms| - 1];
      var before := PreNamed(ms[..|ms| - 1]);
      if Named(m) then before[m.groupSid := m.groupName.value.text] else before
  }

  /** The SIDs of the memberships without a usable name. */
  function Pending(ms: seq<GroupMembership>): seq<Sid> {
    if ms == [] then []
    else
      var m := ms[|ms| - 1];
      Pending(ms[..|ms| - 1]) + if Named(m) then [] else [m.groupSid]
  }

  function Start(l: Lookups, server: Option<string>, ms: seq<GroupMembership>): Cache {
    var names := PreNamed(ms);
    Resolved(l, server, Cache(names, names.Keys, []), Pending(ms))
  }

  function ServerOf(target: Option<string>): Option<string> {
    if target.Some? then ValidServer(target.value) else None
  }

  // ---------- The resolver ----------

  class SidNameResolver {
    const lookups: Lookups
    const server: Option<string>
    var names: map<Sid, string>
    var tried: set<Sid>
    ghost var asked: seq<Sid>

    ghost function Value(): Cache
      reads this
    {
      Cache(names, tried, asked)
    }

    ghost predicate Valid()
      reads this
    {
      ValidCache(Value())
    }

    constructor NewForTarget(l: Lookups, ms: seq<GroupMembership>, target: Option<string>)
      ensures Valid() && lookups == l && server == ServerOf(target)
      ensures Value() == Start(l, ServerOf(target), ms)
    {
      var known: map<Sid, string>, seen: set<Sid>, pending: seq<Sid> := map[], {}, [];
      for i := 0 to |ms|
        invariant known == PreNamed(ms[..i]) && seen == known.Keys && pending == Pending(ms[..i])
      {
        assert ms[..i + 1][..i] == ms[..i];
        if Named(ms[i]) {
          known := known[ms[i].groupSid := ms[i].groupName.value.text];
          seen := seen + {ms[i].groupSid};
        } else {
          pending := pending + [ms[i].groupSid];
        }
      }
      assert ms[..|ms|] == ms;
      lookups := l;
      server := ServerOf(target);
      names := known;
      tried := seen;
      asked := [];
      new;
      Resolve(pending);
    }

    /** A known name; an existing entry wins. */
    method Seed(sid: Sid, display: string)
      requires Valid()
      modifies this
      ensures Valid()
      ensures Value() == Seeded(old(Value()), sid, display)
    {
      if !ValidSid(sid) || !Plausible(display) {
        return;
      }
      tried := tried + {sid};
      if sid !in names {
        names := names[sid := display];
      }
    }

    /** Looks up every SID not yet tried. */
    method Resolve(sids: seq<Sid>)
      requires Valid()
      modifies this
      ensures Valid()
      ensures Value() == Resolved(lookups, server, old(Value()), sids)
    {
      ghost var start := Value();
      ResolvedNone(lookups, server, start);
      hide Fresh, Learned, Resolved, Plausible, Display;
      assert sids[..|sids|] == sids;
      for i := 0 to |sids|
        invariant Valid()
        invariant Value() == Resolved(lookups, server, start, sids[..i])
      {
        var sid := sids[i];
        ghost var was := Value();
        assert sids[..i + 1] == sids[..i] + [sid];
        ResolvedSplit(lookups, server, start, sids[..i], [sid]);
        ResolvedOne(lookups, server, was, sid);
        assert Resolved(lookups, server, was, [sid]) == Resolved(lookups, server, start, sids[..i + 1]);
        assert was.asked == asked && was.names == names && was.tried == tried;
        ResolvedIsValid(lookups, server, was, [sid]);
        if sid !in tried {
          tried := tried + {sid};
          asked := asked + [sid];
          var found := lookups.here(sid);
          if found.None? && server.Some? {
            found := lookups.remote(server.value, sid);
          }
          if found.Some? {
            var display := Display(found.value);
            if Plausible(display) {
              names := names[sid := display];
            }
          }
        }
      }
    }
  }

  /** All names in one go. */
  method BuildSidNameMap(l: Lookups, ms: seq<GroupMembership>, extra: seq<Sid>) returns (names: map<Sid, string>)
    ensures names == Batch(l, ms, extra)
  {
    var r := new SidNameResolver.NewForTarget(l, ms, None);
    r.Resolve(extra);
    names := r.names;
  }

  function Batch(l: Lookups, ms: seq<GroupMembership>, extra: seq<Sid>): map<Sid, string> {
    Resolved(l, None, Start(l, None, ms), extra).names
  }

  // ---------- One step ----------

  lemma FreshFirst(s: Sid, rest: seq<Sid>, tried: set<Sid>)
    ensures Fresh([s] + rest, tried) == (if s in tried then [] else [s]) + Fresh(rest, tried + {s})
  {
    assert ([s] + rest)[1..] == rest;
  }

  lemma {:induction false} FreshSplit(a: seq<Sid>, b: seq<Sid>, tried: set<Sid>)
    ensures Fresh(a + b, tried) == Fresh(a, tried) + Fresh(b, tried + ToSet(a))
  {
    if a == [] {
      NoneFresh(tried);
      hide *;
      assert a + b == b && tried + {} == tried && [] + Fresh(b, tried) == Fresh(b, tried);
    } else {
      var s, rest := a[0], a[1..];
      assert a == [s] + rest;
      ToSetFirst(s, rest);
      hide *;
      assert a + b == [s] + (rest + b);
      FreshFirst(s, rest, tried);
      FreshFirst(s, rest + b, tried);
      FreshSplit(rest, b, tried + {s});
      assert tried + {s} + ToSet(rest) == tried + ToSet(a);
    }
  }

  lemma NoneFresh(tried: set<Sid>)
    ensures Fresh([], tried) == [] && ToSet<Sid>([]) == {}
  {
  }

  lemma ToSetFirst(s: Sid, rest: seq<Sid>)
    ensures ToSet([s] + rest) == {s} + ToSet(rest)
  {
  }

  lemma LearnedSplit(l: Lookups, server: Option<string>, a: set<Sid>, b: set<Sid>)
    ensures Learned(l, server, a) + Learned(l, server, b) == Learned(l, server, a + b)
  {
    hide NameOf;
  }

  /** Two batches do what their concatenation does, lookup by lookup. */
  lemma ResolvedSplit(l: Lookups, server: Option<string>, c: Cache, a: seq<Sid>, b: seq<Sid>)
    ensures Resolved(l, server, Resolved(l, server, c, a), b) == Resolved(l, server, c, a + b)
  {
    FreshSplit(a, b, c.tried);
    var sa, sb := ToSet(a), ToSet(b);
    LearnedSplit(l, server, sa - c.tried, sb - (c.tried + sa));
    assert ToSet(a + b) == sa + sb;
    hide NameOf, Fresh, Learned, ToSet;
    assert (sa - c.tried) + (sb - (c.tried + sa)) == (sa + sb) - c.tried;
    assert c.tried + sa + sb == c.tried + (sa + sb);
    MapAssociative(c.names, Learned(l, server, sa - c.tried), Learned(l, server, sb - (c.tried + sa)));
  }

  lemma MapAssociative(a: map<Sid, string>, b: map<Sid, string>, c: map<Sid, string>)
    ensures a + b + c == a + (b + c)
  {
  }

  lemma ResolvedNone(l: Lookups, server: Option<string>, c: Cache)
    ensures Resolved(l, server, c, []) == c
  {
    hide NameOf;
    assert ToSet<Sid>([]) == {};
  }

  lemma ResolvedOne(l: Lookups, server: Option<string>, c: Cache, sid: Sid)
    requires ValidCache(c)
    ensures var r := Resolved(l, server, c, [sid]);
      && r.tried == c.tried + {sid}
      && r.asked == (if sid in c.tried then c.asked else c.asked + [sid])
      && r.names == (if sid in c.tried || NameOf(l, server, sid).None? then c.names
                     else c.names[sid := NameOf(l, server, sid).value])
  {
    assert Fresh([sid], c.tried) == if sid in c.tried then [] else [sid] by {
      assert [sid][1..] == [];
    }
    hide NameOf, Fresh;
    assert ToSet([sid]) == {sid};
  }

  lemma {:induction false} FreshSet(sids: seq<Sid>, tried: set<Sid>)
    ensures ToSet(Fresh(sids, tried)) == ToSet(sids) - tried
  {
    if sids == [] {
    } else {
      var s, rest := sids[0], Fresh(sids[1..], tried + {sids[0]});
      FreshSet(sids[1..], tried + {s});
      assert Fresh(sids, tried) == (if s in tried then [] else [s]) + rest;
      assert sids == [s] + sids[1..];
      hide Fresh;
      assert ToSet(sids) == {s} + ToSet(sids[1..]);
      if s in tried {
        assert [] + rest == rest;
      } else {
        assert ToSet([s] + rest) == {s} + ToSet(rest);
      }
    }
  }

  lemma {:induction false} FreshIsDistinct(sids: seq<Sid>, tried: set<Sid>)
    ensures Distinct(Fresh(sids, tried))
    ensures ToSet(Fresh(sids, tried)) == ToSet(sids) - tried
  {
    FreshSet(sids, tried);
    if sids != [] {
      var rest := Fresh(sids[1..], tried + {sids[0]});
      FreshIsDistinct(sids[1..], tried + {sids[0]});
      assert forall i :: 0 <= i < |rest| ==> rest[i] in ToSet(rest);
    }
  }

  lemma ResolvedIsValid(l: Lookups, server: Option<string>, c: Cache, sids: seq<Sid>)
    requires ValidCache(c)
    ensures ValidCache(Resolved(l, server, c, sids))
  {
    var added := Fresh(sids, c.tried);
    FreshIsDistinct(sids, c.tried);
    hide Fresh, NameOf;
    assert ToSet(c.asked + added) == ToSet(c.asked) + ToSet(added);
    forall i, j | 0 <= i < j < |c.asked + added| ensures (c.asked + added)[i] != (c.asked + added)[j] {
      if i < |c.asked| <= j {
        assert c.asked[i] in ToSet(c.asked);
        assert added[j - |c.asked|] in ToSet(added);
      }
    }
  }

  // ---------- Whole runs ----------

  datatype Event = Trustees(sids: seq<Sid>) | Known(sid: Sid, display: string)

  function Apply(l: Lookups, server: Option<string>, c: Cache, e: Event): Cache {
    match e
    case Trustees(sids) => Resolved(l, server, c, sids)
    case Known(sid, display) => Seeded(c, sid, display)
  }

  function Run(l: Lookups, server: Option<string>, c: Cache, events: seq<Event>): Cache
    decreases |events|
  {
    if events == [] then c else Run(l, server, Apply(l, server, c, events[0]), events[1..])
  }

  /** Over any run: each SID is looked up at most once, never after it was
      tried, names are only given to tried SIDs, and no name changes or
      disappears. */
  lemma {:induction false} RunKeepsNames(l: Lookups, server: Option<string>, c: Cache, events: seq<Event>)
    requires ValidCache(c)
    ensures var r := Run(l, server, c, events);
      && ValidCache(r)
      && c.tried <= r.tried
      && (forall s :: s in c.names ==> s in r.names && r.names[s] == c.names[s])
      && c.asked <= r.asked
      && (forall s :: s in r.asked[|c.asked|..] ==> s !in c.tried)
    decreases |events|
  {
    if events != [] {
      var c1 := Apply(l, server, c, events[0]);
      ApplyKeepsNames(l, server, c, events[0]);
      RunKeepsNames(l, server, c1, events[1..]);
      var r := Run(l, server, c, events);
      hide *;
      forall s | s in r.asked[|c.asked|..] ensures s !in c.tried {
        var i :| |c.asked| <= i < |r.asked| && r.asked[i] == s;
        if i < |c1.asked| {
          assert c1.asked[i] == s;
          assert s in c1.asked[|c.asked|..];
        } else {
          assert s in r.asked[|c1.asked|..];
        }
      }
    }
  }

  lemma ApplyKeepsNames(l: Lookups, server: Option<string>, c: Cache, e: Event)
    requires ValidCache(c)
    ensures var r := Apply(l, server, c, e);
      && ValidCache(r)
      && c.tried <= r.tried
      && (forall s :: s in c.names ==> s in r.names && r.names[s] == c.names[s])
      && c.asked <= r.asked
      && (forall s :: s in r.asked[|c.asked|..] ==> s !in c.tried)
  {
    hide NameOf, Seedable, Fresh;
    if e.Trustees? {
      ResolvedIsValid(l, server, c, e.sids);
      FreshIsDistinct(e.sids, c.tried);
      var added := Fresh(e.sids, c.tried);
      assert (c.asked + added)[|c.asked|..] == added;
      forall s | s in added ensures s !in c.tried {
        assert s in ToSet(added);
      }
    }
  }

  /** A name the memberships or a seed gave is never replaced by a lookup. */
  lemma SeedSurvives(l: Lookups, server: Option<string>, c: Cache, sid: Sid, display: string, events: seq<Event>)
    requires ValidCache(c) && Seedable(sid, display) && sid !in c.names
    ensures sid in Run(l, server, Seeded(c, sid, display), events).names
    ensures Run(l, server, Seeded(c, sid, display), events).names[sid] == display
    ensures sid !in Run(l, server, Seeded(c, sid, display), events).asked || sid in c.asked
  {
    ApplyKeepsNames(l, server, c, Known(sid, display));
    var d := Seeded(c, sid, display);
    assert d.asked == c.asked && sid in d.tried && sid in d.names && d.names[sid] == display;
    RunKeepsNames(l, server, d, events);
    hide Run, Seeded;
    var r := Run(l, server, d, events).asked;
    assert r == c.asked + r[|c.asked|..];
  }

  /** Whether a name is seeded before or after its SID is looked up matters
      exactly when the lookup yields a different name. */
  lemma SeedOrder(l: Lookups, server: Option<string>, c: Cache, sid: Sid, display: string)
    requires ValidCache(c) && Seedable(sid, display) && sid !in c.tried
    ensures Resolved(l, server, Seeded(c, sid, display), [sid]).names
            == Seeded(Resolved(l, server, c, [sid]), sid, display).names
      <==> (NameOf(l, server, sid).Some? ==> NameOf(l, server, sid).value == display)
  {
    ResolvedOne(l, server, c, sid);
    ApplyKeepsNames(l, server, c, Known(sid, display));
    ResolvedOne(l, server, Seeded(c, sid, display), sid);
    hide NameOf, Seedable, Resolved;
    var before := Resolved(l, server, Seeded(c, sid, display), [sid]).names;
    var after := Seeded(Resolved(l, server, c, [sid]), sid, display).names;
    assert before == c.names[sid := display];
    assert sid in after;
    assert after == c.names[sid := after[sid]];
    assert before[sid] == display;
  }

  // ---------- Streaming and batch ----------

  function Calls(batches: seq<seq<Sid>>): seq<Event> {
    seq(|batches|, i requires 0 <= i < |batches| => Trustees(batches[i]))
  }

  function Flat(batches: seq<seq<Sid>>): seq<Sid> {
    if batches == [] then [] else batches[0] + Flat(batches[1..])
  }

  lemma {:induction false} RunIsOneCall(l: Lookups, server: Option<string>, c: Cache, batches: seq<seq<Sid>>)
    ensures Run(l, server, c, Calls(batches)) == Resolved(l, server, c, Flat(batches))
    decreases |batches|
  {
    hide NameOf;
    if batches == [] {
      assert Calls(batches) == [];
      ResolvedNone(l, server, c);
    } else {
      var c1 := Resolved(l, server, c, batches[0]);
      RunIsOneCall(l, server, c1, batches[1..]);
      assert Calls(batches)[1..] == Calls(batches[1..]);
      ResolvedSplit(l, server, c, batches[0], Flat(batches[1..]));
    }
  }

  /** Any split, order and repetition of the trustees gives the map of one
      batch: only the set of SIDs decides. */
  lemma StreamingIsBatch(l: Lookups, ms: seq<GroupMembership>, batches: seq<seq<Sid>>, extra: seq<Sid>)
    requires ToSet(Flat(batches)) == ToSet(extra)
    ensures Run(l, None, Start(l, None, ms), Calls(batches)).names == Batch(l, ms, extra)
  {
    RunIsOneCall(l, None, Start(l, None, ms), batches);
  }

  // ---------- What the map says ----------

  lemma {:induction false} PendingExact(ms: seq<GroupMembership>, s: Sid)
    ensures s in Pending(ms) <==> exists i :: 0 <= i < |ms| && ms[i].groupSid == s && !Named(ms[i])
  {
    hide Named;
    if ms != [] {
      PendingExact(ms[..|ms| - 1], s);
    }
  }

  /** `i` is the last membership of `s` with a usable name. */
  predicate LastNamed(ms: seq<GroupMembership>, s: Sid, i: nat) {
    && i < |ms| && ms[i].groupSid == s && Named(ms[i])
    && forall j :: i < j < |ms| && ms[j].groupSid == s ==> !Named(ms[j])
  }

  /** A name comes from the last membership that carries one for the SID. */
  lemma {:induction false} PreNamedExact(ms: seq<GroupMembership>, s: Sid)
    ensures s in PreNamed(ms) <==> exists i: nat :: LastNamed(ms, s, i)
    ensures forall i: nat :: LastNamed(ms, s, i) ==> s in PreNamed(ms) && PreNamed(ms)[s] == ms[i].groupName.value.text
  {
    hide Plausible;
    if ms != [] {
      var n := |ms| - 1;
      var front := ms[..n];
      PreNamedExact(front, s);
      if ms[n].groupSid == s && Named(ms[n]) {
        assert LastNamed(ms, s, n);
      } else {
        forall i: nat ensures LastNamed(front, s, i) <==> LastNamed(ms, s, i) {
          LastNamedFront(ms, s, i);
        }
      }
    }
  }

  lemma LastNamedFront(ms: seq<GroupMembership>, s: Sid, i: nat)
    requires ms != [] && !(ms[|ms| - 1].groupSid == s && Named(ms[|ms| - 1]))
    ensures LastNamed(ms[..|ms| - 1], s, i) <==> LastNamed(ms, s, i)
  {
    hide Named;
    var n := |ms| - 1;
    assert forall j :: 0 <= j < n ==> ms[..n][j] == ms[j];
  }

  /** The batch map holds, for every SID of the memberships and of `extra`,
      the last plausible name a membership carries, else what the lookup
      yields, and nothing else. */
  lemma BatchExact(l: Lookups, ms: seq<GroupMembership>, extra: seq<Sid>, s: Sid)
    ensures s in Batch(l, ms, extra) <==>
      s in PreNamed(ms) || ((s in extra || s in Pending(ms)) && NameOf(l, None, s).Some?)
    ensures s in PreNamed(ms) ==> Batch(l, ms, extra)[s] == PreNamed(ms)[s]
    ensures s in Batch(l, ms, extra) && s !in PreNamed(ms) ==> Some(Batch(l, ms, extra)[s]) == NameOf(l, None, s)
  {
    hide NameOf, PreNamed, Pending, Fresh;
  }
}
