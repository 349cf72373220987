/** From the attribute ranges a server sends to the token: when every list is
    completed from true range labels, the memberships are all there. */
module RangedToken {
  import opened Wrappers
  import opened SortedSets
  import opened Directory
  import opened Assembly
  import opened AssemblyConservation
  import opened TokenExactness
  import RangeRetrieval

  const MEMBER_OF := "memberOf"

  /** An entry as the server first sent it, and how it answers for more. */
  datatype Served = Served(attrs: seq<RangeRetrieval.Attribute>, server: RangeRetrieval.Server)

  predicate IsRead(s: Served) {
    RangeRetrieval.Complete(s.attrs, MEMBER_OF, s.server).0.Ok?
  }

  /** The values the entry holds after completion. */
  function Values(s: Served): seq<string> {
    RangeRetrieval.Lookup(RangeRetrieval.Complete(s.attrs, MEMBER_OF, s.server).1, MEMBER_OF)
  }

  /** The server sends the values its labels name; without a range, all. */
  ghost predicate LabelsAreTrue(s: Served, all: seq<string>) {
    var ranged := RangeRetrieval.RangedKey(s.attrs, MEMBER_OF);
    if ranged.None? then RangeRetrieval.Lookup(s.attrs, MEMBER_OF) == all
    else
      && RangeRetrieval.Truthful(
           all, RangeRetrieval.Chunk(ranged.value.range, RangeRetrieval.Lookup(s.attrs, ranged.value.key)))
      && forall round, next :: RangeRetrieval.Request(s.server, MEMBER_OF, round, next).Ok? ==>
           RangeRetrieval.Truthful(all, RangeRetrieval.Request(s.server, MEMBER_OF, round, next).value)
  }

  /** What is read is everything. */
  lemma ReadIsComplete(s: Served, all: seq<string>)
    requires IsRead(s) && LabelsAreTrue(s, all)
    ensures Values(s) == all
  {
    RangeRetrieval.SuccessIffTiled(s.attrs, MEMBER_OF, s.server);
    if RangeRetrieval.RangedKey(s.attrs, MEMBER_OF).Some? {
      ReadIsTrue(s);
      RangeRetrieval.NeverShortened(s.attrs, MEMBER_OF, s.server, all);
    }
  }

  lemma ReadIsTrue(s: Served)
    requires IsRead(s) && RangeRetrieval.RangedKey(s.attrs, MEMBER_OF).Some?
    ensures RangeRetrieval.Complete(s.attrs, MEMBER_OF, s.server).0 == Ok(true)
  {
    RangeRetrieval.SuccessIffTiled(s.attrs, MEMBER_OF, s.server);
    TrueOrFalse(RangeRetrieval.Complete(s.attrs, MEMBER_OF, s.server).0);
    hide RangeRetrieval.Complete, RangeRetrieval.RangedKey;
  }

  lemma TrueOrFalse(r: Result<bool, RangeRetrieval.RangeError>)
    requires r.Ok?
    ensures r == Ok(true) || r == Ok(false)
  {
    if r.value {
      assert r == Ok(true);
    } else {
      assert r == Ok(false);
    }
  }

  /** `fold` gives the rank of a distinguished name's lower-cased form. */
  function Folded(fold: string -> Dn, values: seq<string>): seq<Dn> {
    seq(|values|, i requires 0 <= i < |values| => fold(values[i]))
  }

  /** The entry's memberships are those read from the server. */
  ghost predicate ReadFrom(e: RawEntry, s: Served, fold: string -> Dn) {
    IsRead(s) && e.memberOf == Folded(fold, Values(s))
  }

  /** Everything the answers say besides memberships is true. */
  ghost predicate TruthfulRest(inp: Input, d: Truth) {
    && (forall i :: 0 <= i < |Entries(inp)| ==> Entries(inp)[i].dn in d && ReportsRest(Entries(inp)[i], d[Entries(inp)[i].dn]))
    && (forall dn :: dn in d && d[dn].sid == inp.sid ==> dn == inp.principal.dn)
    && (inp.principal.dn in d ==> d[inp.principal.dn].sid == inp.sid)
    && (inp.primary.Some? ==>
          && PrimaryEntry(inp).Some?
          && PrimaryEntry(inp).value.dn in d
          && d[PrimaryEntry(inp).value.dn].security
          && d[PrimaryEntry(inp).value.dn].sid == inp.primary.value.sid)
  }

  ghost predicate ReportsRest(e: RawEntry, g: TrueGroup) {
    && (e.sid.Some? ==> e.sid.value == g.sid)
    && (GroupIsSecurity(e).Some? ==> GroupIsSecurity(e).value == g.security)
    && ToSet(e.history) <= g.history
  }

  /** Every membership list was completed from true labels; `all` are the
      values each object really has. */
  ghost predicate ServedTruly(
    inp: Input, d: Truth, fold: string -> Dn, all: Dn -> seq<string>, principal: Served, entries: seq<Served>)
  {
    && |entries| == |Entries(inp)|
    && ReadFrom(inp.principal, principal, fold) && LabelsAreTrue(principal, all(inp.principal.dn))
    && (forall i :: 0 <= i < |entries| ==>
          ReadFrom(Entries(inp)[i], entries[i], fold) && LabelsAreTrue(entries[i], all(Entries(inp)[i].dn)))
    && (forall dn :: dn in d ==> d[dn].memberOf == ToSet(Folded(fold, all(dn))))
  }

  lemma EntryIsTrue(e: RawEntry, s: Served, fold: string -> Dn, all: seq<string>, g: TrueGroup)
    requires ReadFrom(e, s, fold) && LabelsAreTrue(s, all)
    requires ReportsRest(e, g) && g.memberOf == ToSet(Folded(fold, all))
    ensures Reports(e, g)
  {
    ReadIsComplete(s, all);
    hide IsRead, Values, LabelsAreTrue, Folded, GroupIsSecurity;
  }

  /** Memberships read through true ranges are true and complete. */
  lemma ServedIsTruthful(
    inp: Input, d: Truth, fold: string -> Dn, all: Dn -> seq<string>, principal: Served, entries: seq<Served>)
    requires TruthfulRest(inp, d) && ServedTruly(inp, d, fold, all, principal, entries)
    ensures Truthful(inp, d)
  {
    hide ReadFrom, LabelsAreTrue, Reports, ReportsRest, Folded;
    forall i | 0 <= i < |Entries(inp)| ensures Reports(Entries(inp)[i], d[Entries(inp)[i].dn]) {
      var e := Entries(inp)[i];
      EntryIsTrue(e, entries[i], fold, all(e.dn), d[e.dn]);
    }
    PrincipalIsTrue(inp, fold, all(inp.principal.dn), principal);
  }

  lemma PrincipalIsTrue(inp: Input, fold: string -> Dn, all: seq<string>, principal: Served)
    requires ReadFrom(inp.principal, principal, fold) && LabelsAreTrue(principal, all)
    ensures ToSet(inp.principal.memberOf) == ToSet(Folded(fold, all))
  {
    ReadIsComplete(principal, all);
    hide IsRead, Values, LabelsAreTrue, Folded;
  }

  /** From the ranges to the token: when every list was completed and the labels
      were true, and neither a group outside the resolved set nor one without
      SID is reported, every group that belongs into the token is in it. */
  lemma TokenFromRangesIsComplete(
    inp: Input, d: Truth, fold: string -> Dn, all: Dn -> seq<string>, principal: Served, entries: seq<Served>, sid: Sid)
    requires TruthfulRest(inp, d) && ServedTruly(inp, d, fold, all, principal, entries)
    requires forall g :: g in Assemble(inp).gaps ==> g.UnknownType?
    requires InTrueToken(inp, d, sid)
    ensures sid == inp.sid || HasMembership(inp, sid)
  {
    hide *;
    ServedIsTruthful(inp, d, fold, all, principal, entries);
    TokenIsComplete(inp, d, sid);
  }
}
