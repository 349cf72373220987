/** The Selective Authentication check: a three-valued access decision for a
    token of which only a part is known. */
module SelectiveAuth {
  import opened Wrappers
  import opened Bytes
  import opened Text
  import opened SecurityDescriptor

  datatype UnknownReason = DescriptorUnreadable(error: DaclError) | UncertainSids(sids: seq<string>)

  datatype Answer = Allowed(via: Option<string>) | Denied | Unknown(reason: UnknownReason)

  // ---------- The decision ----------

  /** The entry takes part in the check. */
  predicate Applies(a: Ace) {
    !a.inheritOnly && a.covers
  }

  /** The first entry in stored order that decides for the token. */
  function FirstDecision(aces: seq<Ace>, token: string -> bool): Option<Ace> {
    if aces == [] then None
    else if Applies(aces[0]) && token(aces[0].sid) then Some(aces[0])
    else FirstDecision(aces[1..], token)
  }

  /** SIDs that are certainly not in the token used by the check. */
  predicate CertainlyAbsent(sid: string) {
    || StartsWith(sid, "S-1-5-32-")
    || sid in {"S-1-5-2", "S-1-5-18", "S-1-5-19", "S-1-5-20", "S-1-5-9", "S-1-5-10", "S-1-3-0", "S-1-3-1", "S-1-5-7"}
  }

  /** SIDs whose presence in the token cannot be known. */
  predicate IsUncertain(sid: string, certain: set<string>, uncertain: set<string>) {
    && sid !in certain
    && (sid in uncertain || (!StartsWith(sid, "S-1-5-21-") && !CertainlyAbsent(sid)))
  }

  function Outcome(decision: Option<Ace>): Answer {
    if decision.Some? && decision.value.allow then Allowed(Some(decision.value.sid)) else Denied
  }

  function Decide(aces: seq<Ace>, certain: set<string>, uncertain: set<string>, withUncertain: bool): Answer {
    Outcome(FirstDecision(aces, sid => sid in certain || (withUncertain && IsUncertain(sid, certain, uncertain))))
  }

  function UncertainNamed(aces: seq<Ace>, certain: set<string>, uncertain: set<string>): seq<string> {
    if aces == [] then []
    else
      (if Applies(aces[0]) && IsUncertain(aces[0].sid, certain, uncertain) then [aces[0].sid] else []) +
      UncertainNamed(aces[1..], certain, uncertain)
  }

  /** Compares the two extreme tokens: none and all of the uncertain SIDs. */
  function Check(aces: seq<Ace>, certain: set<string>, uncertain: set<string>): Answer {
    var without := Decide(aces, certain, uncertain, false);
    var with := Decide(aces, certain, uncertain, true);
    if without.Allowed? == with.Allowed? then without
    else Unknown(UncertainSids(UncertainNamed(aces, certain, uncertain)))
  }

  function AllowedToAuthenticate(sd: seq<Byte>, certain: set<string>, uncertain: set<string>): Answer {
    match ParseDacl(sd)
    case Ok(Some(aces)) => Check(aces, certain, uncertain)
    case Ok(None) => Allowed(None)
    case Err(e) => Unknown(DescriptorUnreadable(e))
  }

  // ---------- All possible tokens ----------

  /** A token the account may really have: every certain SID, and beyond them
      only SIDs whose presence is not known. */
  ghost predicate Possible(token: string -> bool, certain: set<string>, uncertain: set<string>) {
    && (forall s :: s in certain ==> token(s))
    && (forall s :: token(s) ==> s in certain || IsUncertain(s, certain, uncertain))
  }

  /** What Windows answers for a token. */
  ghost predicate Grants(aces: seq<Ace>, token: string -> bool) {
    Outcome(FirstDecision(aces, token)).Allowed?
  }

  /** The entries that take part and stand before the first one for a certain SID. */
  function Leading(aces: seq<Ace>, certain: set<string>): seq<Ace> {
    if aces == [] then []
    else if !Applies(aces[0]) then Leading(aces[1..], certain)
    else if aces[0].sid in certain then []
    else [aces[0]] + Leading(aces[1..], certain)
  }

  /** The first leading entry for `sid`, if any, gives the answer `allow`. */
  predicate FirstAgrees(leading: seq<Ace>, sid: string, allow: bool) {
    leading == [] || (if leading[0].sid == sid then leading[0].allow == allow else FirstAgrees(leading[1..], sid, allow))
  }

  /** Every uncertain SID among the leading entries meets the answer first. */
  ghost predicate LeadingAgree(aces: seq<Ace>, certain: set<string>, uncertain: set<string>, allow: bool) {
    forall sid :: IsUncertain(sid, certain, uncertain) ==> FirstAgrees(Leading(aces, certain), sid, allow)
  }

  lemma {:induction false} DecisionWithin(aces: seq<Ace>, small: string -> bool, large: string -> bool)
    requires forall s :: small(s) ==> large(s)
    ensures FirstDecision(aces, small).Some? ==> FirstDecision(aces, large).Some?
  {
    if aces != [] {
      DecisionWithin(aces[1..], small, large);
    }
  }

  /** Two tokens that treat all SIDs of the list alike decide alike. */
  lemma {:induction false} SameDecision(aces: seq<Ace>, t: string -> bool, u: string -> bool)
    requires forall a :: a in aces ==> t(a.sid) == u(a.sid)
    ensures FirstDecision(aces, t) == FirstDecision(aces, u)
  {
    if aces != [] {
      SameDecision(aces[1..], t, u);
    }
  }

  /** The token with the certain SIDs and one more. */
  function WithOne(certain: set<string>, sid: string): string -> bool {
    s => s in certain || s == sid
  }

  function WithNone(certain: set<string>): string -> bool {
    s => s in certain
  }

  /** The answer for a possible token is that of the certain SIDs alone, or
      that of some uncertain SID of the token added to them. */
  lemma {:induction false} DecisionByOne(aces: seq<Ace>, certain: set<string>, token: string -> bool) returns (sid: string)
    requires forall s :: s in certain ==> token(s)
    ensures Grants(aces, token) == Grants(aces, WithNone(certain)) || (token(sid) && sid !in certain && Grants(aces, token) == Grants(aces, WithOne(certain, sid)))
  {
    sid := "";
    if aces != [] {
      var a := aces[0];
      if Applies(a) && token(a.sid) {
        sid := a.sid;
      } else {
        sid := DecisionByOne(aces[1..], certain, token);
        assert Grants(aces, token) == Grants(aces[1..], token);
        assert Grants(aces, WithNone(certain)) == Grants(aces[1..], WithNone(certain));
        if Applies(a) && a.sid == sid {
          assert !token(sid);
        } else {
          assert Grants(aces, WithOne(certain, sid)) == Grants(aces[1..], WithOne(certain, sid));
        }
      }
    }
  }

  /** Adding one uncertain SID changes nothing exactly when its first leading
      entry, if there is one, agrees. */
  lemma {:induction false} OneAgrees(aces: seq<Ace>, certain: set<string>, sid: string, allow: bool)
    requires sid !in certain && Grants(aces, WithNone(certain)) == allow
    ensures Grants(aces, WithOne(certain, sid)) == allow <==> FirstAgrees(Leading(aces, certain), sid, allow)
  {
    if aces != [] {
      var a := aces[0];
      if Applies(a) && a.sid in certain {
        assert Leading(aces, certain) == [];
      } else {
        OneAgrees(aces[1..], certain, sid, allow);
        if Applies(a) {
          var rest := Leading(aces[1..], certain);
          assert Leading(aces, certain)[1..] == rest;
        }
      }
    }
  }

  lemma WithOneIsPossible(certain: set<string>, uncertain: set<string>, sid: string)
    requires IsUncertain(sid, certain, uncertain)
    ensures Possible(WithOne(certain, sid), certain, uncertain)
  {
  }

  lemma ExtremesArePossible(certain: set<string>, uncertain: set<string>)
    ensures Possible(sid => sid in certain || (false && IsUncertain(sid, certain, uncertain)), certain, uncertain)
    ensures Possible(sid => sid in certain || (true && IsUncertain(sid, certain, uncertain)), certain, uncertain)
  {
  }

  lemma DecideWithout(aces: seq<Ace>, certain: set<string>, uncertain: set<string>)
    ensures Decide(aces, certain, uncertain, false) == Outcome(FirstDecision(aces, WithNone(certain)))
  {
    SameDecision(aces, sid => sid in certain || (false && IsUncertain(sid, certain, uncertain)), WithNone(certain));
  }

  /** What the first entry that takes part for a certain SID says; without one
      the check refuses. */
  function CertainAnswer(aces: seq<Ace>, certain: set<string>): bool {
    if aces == [] then false
    else if Applies(aces[0]) && aces[0].sid in certain then aces[0].allow
    else CertainAnswer(aces[1..], certain)
  }

  lemma {:induction false} CertainAnswerIs(aces: seq<Ace>, certain: set<string>)
    ensures Grants(aces, WithNone(certain)) == CertainAnswer(aces, certain)
  {
    if aces != [] {
      CertainAnswerIs(aces[1..], certain);
    }
  }

  lemma DecidedIsCertain(aces: seq<Ace>, certain: set<string>, uncertain: set<string>)
    ensures !Check(aces, certain, uncertain).Unknown? ==> Check(aces, certain, uncertain).Allowed? == CertainAnswer(aces, certain)
  {
    DecideWithout(aces, certain, uncertain);
    CertainAnswerIs(aces, certain);
    hide Decide, FirstDecision, CertainAnswer, IsUncertain;
  }

  /** Every possible token gets the answer. */
  ghost predicate AllGet(aces: seq<Ace>, certain: set<string>, uncertain: set<string>, allow: bool) {
    forall token :: Possible(token, certain, uncertain) ==> Grants(aces, token) == allow
  }

  /** All possible tokens get one answer exactly when the uncertain SIDs'
      leading entries agree with it. */
  lemma AllGetExactly(aces: seq<Ace>, certain: set<string>, uncertain: set<string>, allow: bool)
    requires allow == CertainAnswer(aces, certain)
    ensures AllGet(aces, certain, uncertain, allow) <==> LeadingAgree(aces, certain, uncertain, allow)
  {
    CertainAnswerIs(aces, certain);
    hide Grants, FirstAgrees, Leading, CertainAnswer, IsUncertain;
    if LeadingAgree(aces, certain, uncertain, allow) {
      forall token | Possible(token, certain, uncertain) ensures Grants(aces, token) == allow {
        var sid := DecisionByOne(aces, certain, token);
        if token(sid) && sid !in certain {
          OneAgrees(aces, certain, sid, allow);
        }
      }
    }
    if AllGet(aces, certain, uncertain, allow) {
      forall sid | IsUncertain(sid, certain, uncertain) ensures FirstAgrees(Leading(aces, certain), sid, allow) {
        WithOneIsPossible(certain, uncertain, sid);
        UncertainIsNotCertain(sid, certain, uncertain);
        OneAgrees(aces, certain, sid, allow);
      }
    }
  }

  lemma UncertainIsNotCertain(sid: string, certain: set<string>, uncertain: set<string>)
    requires IsUncertain(sid, certain, uncertain)
    ensures sid !in certain
  {
  }

  /** When all possible tokens get one answer the check decides. */
  lemma AllGetIsDecided(aces: seq<Ace>, certain: set<string>, uncertain: set<string>, allow: bool)
    requires AllGet(aces, certain, uncertain, allow)
    ensures !Check(aces, certain, uncertain).Unknown?
  {
    if Check(aces, certain, uncertain).Unknown? {
      UnknownIsHonest(aces, certain, uncertain);
    }
  }

  /** The check gives one answer that holds for every token the account may
      have, if and only if each uncertain SID's first entry ahead of the first
      entry for a certain SID says what that entry says. */
  lemma DecidedAnswerIsSound(aces: seq<Ace>, certain: set<string>, uncertain: set<string>)
    ensures var answer := Check(aces, certain, uncertain);
            (!answer.Unknown? && AllGet(aces, certain, uncertain, answer.Allowed?))
            <==> LeadingAgree(aces, certain, uncertain, CertainAnswer(aces, certain))
  {
    DecidedIsCertain(aces, certain, uncertain);
    AllGetExactly(aces, certain, uncertain, CertainAnswer(aces, certain));
    hide Check, LeadingAgree, CertainAnswer, AllGet;
    if LeadingAgree(aces, certain, uncertain, CertainAnswer(aces, certain)) {
      AllGetIsDecided(aces, certain, uncertain, CertainAnswer(aces, certain));
    }
  }

  /** All leading entries for uncertain SIDs have one polarity. */
  predicate OnePolarity(leading: seq<Ace>, certain: set<string>, uncertain: set<string>) {
    forall i, j :: 0 <= i < |leading| && 0 <= j < |leading|
                   && IsUncertain(leading[i].sid, certain, uncertain) && IsUncertain(leading[j].sid, certain, uncertain)
                   ==> leading[i].allow == leading[j].allow
  }

  lemma LeadingStep(aces: seq<Ace>, certain: set<string>)
    requires aces != [] && !(Applies(aces[0]) && aces[0].sid in certain)
    ensures Leading(aces, certain) == (if Applies(aces[0]) then [aces[0]] else []) + Leading(aces[1..], certain)
  {
    hide Applies;
  }

  lemma GrantsStep(aces: seq<Ace>, token: string -> bool)
    requires aces != []
    ensures Grants(aces, token) == if Applies(aces[0]) && token(aces[0].sid) then aces[0].allow else Grants(aces[1..], token)
  {
    hide Applies;
  }

  lemma TailOnePolarity(a: Ace, rest: seq<Ace>, certain: set<string>, uncertain: set<string>)
    requires OnePolarity([a] + rest, certain, uncertain)
    ensures OnePolarity(rest, certain, uncertain)
  {
    hide IsUncertain;
    var all := [a] + rest;
    assert forall k :: 0 <= k < |rest| ==> rest[k] == all[k + 1];
  }

  /** The decision with all uncertain SIDs is that of the first leading entry
      for one of them. */
  lemma {:induction false} FirstLeadingDecides(aces: seq<Ace>, certain: set<string>, uncertain: set<string>, token: string -> bool, i: nat)
    requires forall s :: token(s) <==> s in certain || IsUncertain(s, certain, uncertain)
    requires i < |Leading(aces, certain)| && IsUncertain(Leading(aces, certain)[i].sid, certain, uncertain)
    requires OnePolarity(Leading(aces, certain), certain, uncertain)
    ensures Grants(aces, token) == Leading(aces, certain)[i].allow
  {
    var a := aces[0];
    var rest := Leading(aces[1..], certain);
    assert !(Applies(a) && a.sid in certain);
    LeadingStep(aces, certain);
    GrantsStep(aces, token);
    hide Leading, Grants, IsUncertain, Applies;
    if Applies(a) {
      assert Leading(aces, certain) == [a] + rest;
      if !token(a.sid) {
        TailOnePolarity(a, rest, certain, uncertain);
        FirstLeadingDecides(aces[1..], certain, uncertain, token, i - 1);
      } else {
        assert Leading(aces, certain)[0] == a;
      }
    } else {
      assert Leading(aces, certain) == rest;
      FirstLeadingDecides(aces[1..], certain, uncertain, token, i);
    }
  }

  lemma {:induction false} AgreeFromAll(leading: seq<Ace>, sid: string, allow: bool)
    requires forall i :: 0 <= i < |leading| && leading[i].sid == sid ==> leading[i].allow == allow
    ensures FirstAgrees(leading, sid, allow)
  {
    if leading != [] {
      AgreeFromAll(leading[1..], sid, allow);
    }
  }

  /** When the leading entries for uncertain SIDs all have one polarity, a
      decided answer is the answer for every possible token. */
  lemma OnePolarityIsExact(aces: seq<Ace>, certain: set<string>, uncertain: set<string>)
    requires OnePolarity(Leading(aces, certain), certain, uncertain)
    requires !Check(aces, certain, uncertain).Unknown?
    ensures forall token :: Possible(token, certain, uncertain) ==>
              Grants(aces, token) == Check(aces, certain, uncertain).Allowed?
  {
    var allow := Check(aces, certain, uncertain).Allowed?;
    var leading := Leading(aces, certain);
    forall sid | IsUncertain(sid, certain, uncertain) ensures FirstAgrees(leading, sid, allow) {
      forall i | 0 <= i < |leading| && leading[i].sid == sid ensures leading[i].allow == allow {
        FirstLeadingDecides(aces, certain, uncertain, s => s in certain || (true && IsUncertain(s, certain, uncertain)), i);
      }
      AgreeFromAll(leading, sid, allow);
    }
    DecidedIsCertain(aces, certain, uncertain);
    AllGetExactly(aces, certain, uncertain, allow);
  }

  /** Unknown from a readable descriptor means that two possible tokens get
      different answers. */
  lemma UnknownIsHonest(aces: seq<Ace>, certain: set<string>, uncertain: set<string>)
    requires Check(aces, certain, uncertain).Unknown?
    ensures exists t, u :: Possible(t, certain, uncertain) && Possible(u, certain, uncertain) && Grants(aces, t) != Grants(aces, u)
  {
    ExtremesArePossible(certain, uncertain);
    var t := sid => sid in certain || (false && IsUncertain(sid, certain, uncertain));
    var u := sid => sid in certain || (true && IsUncertain(sid, certain, uncertain));
    assert Grants(aces, t) != Grants(aces, u);
  }

  /** With mixed polarities the two extreme tokens can agree while a token in
      between is refused: an allow entry for INTERACTIVE, a deny entry for
      BATCH, then an allow entry for the account. */
  lemma MixedPolarityCounterexample()
    ensures var aces := [Ace(true, "S-1-5-4", true, false), Ace(false, "S-1-5-3", true, false), Ace(true, "S-1-5-21-1", true, false)];
            var certain := {"S-1-5-21-1"};
            && Check(aces, certain, {}).Allowed?
            && Possible(WithOne(certain, "S-1-5-3"), certain, {})
            && !Grants(aces, WithOne(certain, "S-1-5-3"))
  {
    var aces := [Ace(true, "S-1-5-4", true, false), Ace(false, "S-1-5-3", true, false), Ace(true, "S-1-5-21-1", true, false)];
    var certain := {"S-1-5-21-1"};
    NotDomainSid("S-1-5-4", '4');
    NotDomainSid("S-1-5-3", '3');
    assert IsUncertain("S-1-5-4", certain, {}) && IsUncertain("S-1-5-3", certain, {});
    assert "S-1-5-3" != "S-1-5-4" && "S-1-5-4" !in certain && "S-1-5-3" !in certain;
    assert aces[1..][1..] == [aces[2]] && aces[1..] == [aces[1], aces[2]];
  }

  lemma NotDomainSid(sid: string, last: char)
    requires |sid| == 7 && sid[6] == last && last in {'3', '4'}
    ensures !StartsWith(sid, "S-1-5-21-") && !CertainlyAbsent(sid)
  {
    assert "S-1-5-2"[6] == '2' && "S-1-5-9"[6] == '9' && "S-1-5-7"[6] == '7' && "S-1-3-0"[6] == '0' && "S-1-3-1"[6] == '1';
    assert |"S-1-5-18"| == 8 && |"S-1-5-19"| == 8 && |"S-1-5-20"| == 8 && |"S-1-5-10"| == 8;
  }

  /** An answer via an entry names a certain SID whose entry really decides:
      it takes part, allows, and no earlier entry that takes part is for a
      certain SID. */
  lemma {:induction false} ViaDecides(aces: seq<Ace>, certain: set<string>)
    requires FirstDecision(aces, WithNone(certain)).Some?
    ensures var a := FirstDecision(aces, WithNone(certain)).value;
            exists i :: 0 <= i < |aces| && aces[i] == a && Applies(a) && a.sid in certain
                        && forall j :: 0 <= j < i ==> !(Applies(aces[j]) && aces[j].sid in certain)
  {
    if !(Applies(aces[0]) && aces[0].sid in certain) {
      ViaDecides(aces[1..], certain);
      var a := FirstDecision(aces, WithNone(certain)).value;
      var i :| 0 <= i < |aces[1..]| && aces[1..][i] == a
               && forall j :: 0 <= j < i ==> !(Applies(aces[1..][j]) && aces[1..][j].sid in certain);
      forall j | 0 <= j < i + 1 ensures !(Applies(aces[j]) && aces[j].sid in certain) {
        if j > 0 {
          assert aces[j] == aces[1..][j - 1];
        }
      }
      assert aces[i + 1] == a;
    }
  }

  // ---------- The whole check ----------

  /** The answer drawn from a list: it is given to every possible token if and
      only if the leading entries agree with the first one for a certain SID;
      decided, it is that entry's; unknown, two possible tokens disagree. */
  ghost predicate Warranted(aces: seq<Ace>, certain: set<string>, uncertain: set<string>, answer: Answer) {
    && ((!answer.Unknown? && AllGet(aces, certain, uncertain, answer.Allowed?))
        <==> LeadingAgree(aces, certain, uncertain, CertainAnswer(aces, certain)))
    && (!answer.Unknown? ==> answer.Allowed? == CertainAnswer(aces, certain))
    && (answer.Unknown? ==> exists t, u :: Possible(t, certain, uncertain) && Possible(u, certain, uncertain)
                                           && Grants(aces, t) != Grants(aces, u))
  }

  lemma CheckIsWarranted(aces: seq<Ace>, certain: set<string>, uncertain: set<string>)
    ensures Warranted(aces, certain, uncertain, Check(aces, certain, uncertain))
  {
    hide Check, LeadingAgree, CertainAnswer, AllGet, Possible, Grants;
    DecidedAnswerIsSound(aces, certain, uncertain);
    DecidedIsCertain(aces, certain, uncertain);
    if Check(aces, certain, uncertain).Unknown? {
      UnknownIsHonest(aces, certain, uncertain);
    }
  }

  /** Whatever the descriptor's bytes: an unreadable descriptor is never an
      answer, one without a list allows, and the answer from a list is
      warranted by it. */
  lemma AnswerFromBytes(sd: seq<Byte>, certain: set<string>, uncertain: set<string>)
    ensures var answer, parsed := AllowedToAuthenticate(sd, certain, uncertain), ParseDacl(sd);
            && (parsed.Err? ==> answer == Unknown(DescriptorUnreadable(parsed.error)))
            && (parsed == Ok(None) ==> answer == Allowed(None))
            && (parsed.Ok? && parsed.value.Some? ==> Warranted(parsed.value.value, certain, uncertain, answer))
  {
    var parsed := ParseDacl(sd);
    hide ParseDacl, Check, Warranted;
    if parsed.Ok? && parsed.value.Some? {
      CheckIsWarranted(parsed.value.value, certain, uncertain);
    }
  }
}
