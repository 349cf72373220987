/** What the classification of a SID proves about the directory. */
module TrustFacts {
  import opened Wrappers
  import opened Text
  import opened Directory
  import opened Trusts
  import ForestTrustInfo

  // ---------- Domain SIDs ----------

  /** The parts of a string one character longer at the front. */
  function Grow(c: char, sep: char, parts: seq<string>): seq<string>
    requires |parts| > 0
  {
    if c == sep then [""] + parts else [[c] + parts[0]] + parts[1..]
  }

  lemma SplitCons(s: string, sep: char)
    requires s != ""
    ensures Split(s, sep) == Grow(s[0], sep, Split(s[1..], sep))
  {
  }

  lemma GrowAppend(c: char, sep: char, a: seq<string>, b: seq<string>)
    requires |a| > 0
    ensures Grow(c, sep, a + b) == Grow(c, sep, a) + b
  {
    assert (a + b)[1..] == a[1..] + b;
  }

  lemma {:induction false} SplitAppend(a: string, sep: char, b: string)
    ensures Split(a + [sep] + b, sep) == Split(a, sep) + Split(b, sep)
  {
    var s := a + [sep] + b;
    SplitCons(s, sep);
    if a == "" {
      assert s[1..] == b;
    } else {
      SplitAppend(a[1..], sep, b);
      SplitCons(a, sep);
      hide Split, Grow;
      assert s[1..] == a[1..] + [sep] + b && s[0] == a[0];
      GrowAppend(a[0], sep, Split(a[1..], sep), Split(b, sep));
    }
  }

  lemma {:induction false} PartsHaveNoSep(s: string, sep: char)
    ensures forall i :: 0 <= i < |Split(s, sep)| ==> sep !in Split(s, sep)[i]
  {
    if s != "" {
      PartsHaveNoSep(s[1..], sep);
    }
  }

  /** The domain of an account SID is the domain SID it extends by a RID, and
      only such SIDs have one. */
  lemma AccountDomainExact(sid: Sid, d: string)
    ensures AccountDomainOf(sid) == Some(d)
      <==> IsDomainSid(d) && exists rid :: sid == d + "-" + rid && ParseUint(rid, U32_MAX).Some?
  {
    if AccountDomainOf(sid) == Some(d) {
      DomainIsPrefix(sid, d);
    }
    if IsDomainSid(d) {
      forall rid | sid == d + "-" + rid && ParseUint(rid, U32_MAX).Some? ensures AccountDomainOf(sid) == Some(d) {
        DomainOfAccount(d, rid);
      }
    }
  }

  lemma DomainIsPrefix(sid: Sid, d: string)
    requires AccountDomainOf(sid) == Some(d)
    ensures IsDomainSid(d) && exists rid :: sid == d + "-" + rid && ParseUint(rid, U32_MAX).Some?
  {
    var parts := Split(sid, '-');
    PartsHaveNoSep(sid, '-');
    JoinSplit(sid, '-');
    SplitJoin(parts[..7], '-');
    assert parts == parts[..7] + [parts[7]];
    JoinAppend(parts[..7], parts[7], '-');
    assert parts[4..][3] == parts[7];
    hide Split, Join, ParseUint;
    assert sid == d + "-" + parts[7];
    assert parts[..7][4..] == parts[4..][..3];
  }

  lemma DomainOfAccount(d: string, rid: string)
    requires IsDomainSid(d) && ParseUint(rid, U32_MAX).Some?
    ensures AccountDomainOf(d + "-" + rid) == Some(d)
  {
    var parts := Split(d, '-');
    NumeralHasNoSep(rid);
    SplitAppend(d, '-', rid);
    SplitPart(rid, '-');
    JoinSplit(d, '-');
    hide Split, Join, ParseUint;
    assert Split(d + "-" + rid, '-') == parts + [rid];
    assert (parts + [rid])[..7] == parts;
    assert (parts + [rid])[4..] == parts[4..] + [rid];
  }

  lemma NumeralHasNoSep(s: string)
    requires ParseUint(s, U32_MAX).Some?
    ensures '-' !in s
  {
    var digits := if s[0] == '+' then s[1..] else s;
    DigitsHaveNoHyphen(digits);
    assert s == digits || s == ['+'] + digits;
  }

  // ---------- First matches ----------

  lemma {:induction false} FirstDirectExact(ts: seq<HeldTrust>, domain: string, view: TrustView)
    ensures FirstDirect(ts, domain, view).Some? <==> exists i :: 0 <= i < |ts| && IsDirect(ts[i], domain)
    ensures FirstDirect(ts, domain, view).Some? ==>
      exists i :: && 0 <= i < |ts| && IsDirect(ts[i], domain)
                  && FirstDirect(ts, domain, view).value == DirectAnswer(ts[i], domain, view)
                  && forall j :: 0 <= j < i ==> !IsDirect(ts[j], domain)
  {
    hide IsDirect, DirectAnswer;
    if ts != [] && !IsDirect(ts[0], domain) {
      FirstDirectExact(ts[1..], domain, view);
      if FirstDirect(ts, domain, view).Some? {
        var i :| && 0 <= i < |ts[1..]| && IsDirect(ts[1..][i], domain)
                 && FirstDirect(ts[1..], domain, view).value == DirectAnswer(ts[1..][i], domain, view)
                 && forall j :: 0 <= j < i ==> !IsDirect(ts[1..][j], domain);
        assert IsDirect(ts[i + 1], domain);
        forall j | 0 <= j < i + 1 ensures !IsDirect(ts[j], domain) {
          assert j > 0 ==> ts[j] == ts[1..][j - 1];
        }
      }
    }
  }

  lemma {:induction false} FindDomainExact(ds: seq<ForestDomain>, domain: string)
    ensures FindDomain(ds, domain).Some? <==> exists j :: 0 <= j < |ds| && NamesDomain(ds[j], domain)
    ensures FindDomain(ds, domain).Some? ==>
      FindDomain(ds, domain).value in ds && NamesDomain(FindDomain(ds, domain).value, domain)
  {
    hide NamesDomain;
    if ds != [] && !NamesDomain(ds[0], domain) {
      FindDomainExact(ds[1..], domain);
      assert ds == [ds[0]] + ds[1..];
    }
  }

  lemma {:induction false} FirstListedExact(ts: seq<HeldTrust>, domain: string)
    ensures FirstListed(ts, domain).Some? <==> exists i :: 0 <= i < |ts| && Lists(ts[i], domain)
    ensures FirstListed(ts, domain).Some? ==>
      exists i, d :: && 0 <= i < |ts| && ForestTransitive(ts[i].trust.attributes)
                     && d in ts[i].trust.forestDomains && NamesDomain(d, domain)
                     && FirstListed(ts, domain).value == ListedAnswer(ts[i].trust, d, domain)
  {
    hide NamesDomain, ListedAnswer, ForestTransitive;
    if ts != [] {
      var t := ts[0].trust;
      FindDomainExact(t.forestDomains, domain);
      FirstListedExact(ts[1..], domain);
      assert ts == [ts[0]] + ts[1..];
      if FirstListed(ts, domain).Some? && !Lists(ts[0], domain) {
        var i, d :| && 0 <= i < |ts[1..]| && ForestTransitive(ts[1..][i].trust.attributes)
                    && d in ts[1..][i].trust.forestDomains && NamesDomain(d, domain)
                    && FirstListed(ts[1..], domain).value == ListedAnswer(ts[1..][i].trust, d, domain);
        assert ts[i + 1] == ts[1..][i];
      }
    }
  }

  lemma {:induction false} UnknownForestsExact(ts: seq<HeldTrust>)
    ensures UnknownForests(ts) == [] <==> forall i :: 0 <= i < |ts| ==> !ForestUnknown(ts[i])
  {
    hide ForestUnknown;
    if ts != [] {
      UnknownForestsExact(ts[1..]);
    }
  }

  // ---------- Verdicts ----------

  /** "Another domain" is said exactly when no trust object is the domain's,
      no forest trust lists it, every forest trust's information is known,
      and no trust outside the view could cover it. */
  lemma OtherDomainExact(domain: string, ts: seq<HeldTrust>, view: TrustView)
    ensures AgainstTrusts(domain, ts, view) == OtherDomain(domain) <==>
      && (forall i :: 0 <= i < |ts| ==> !IsDirect(ts[i], domain) && !Lists(ts[i], domain) && !ForestUnknown(ts[i]))
      && (view.Forest? || view.isForestRoot == Some(true))
    ensures AgainstTrusts(domain, ts, view).OtherDomain? ==> AgainstTrusts(domain, ts, view) == OtherDomain(domain)
  {
    FirstDirectExact(ts, domain, view);
    FirstListedExact(ts, domain);
    UnknownForestsExact(ts);
    hide IsDirect, Lists, ForestUnknown, FirstDirect, FirstListed, UnknownForests, ForestOf, SidEnabled;
  }

  lemma {:induction false} EnabledSidsExact(ds: seq<ForestDomain>, s: Sid)
    ensures s in EnabledSids(ds) <==> exists d :: d in ds && SidEnabled(d) && d.sid == s
  {
    hide SidEnabled;
    if ds != [] {
      EnabledSidsExact(ds[1..], s);
      assert ds == [ds[0]] + ds[1..];
    }
  }

  /** The trust a verdict rests on: the domain's own trust object, or a forest
      trust that lists the domain with an enabled SID. */
  predicate Backs(h: HeldTrust, domain: string, partner: Partner) {
    || (IsDirect(h, domain) && partner == TrustPartner(h.trust.partner))
    || (&& ForestTransitive(h.trust.attributes)
        && exists d :: && d in h.trust.forestDomains && NamesDomain(d, domain) && SidEnabled(d)
                       && partner == ForestMember(d.dnsName))
  }

  /** A trusted-domain verdict rests on a trust of the directory: its
      attributes and forest are that trust's, and a domain reached through a
      forest trust is an enabled domain of that forest, so SID filtering lets
      the account's own domain through. */
  lemma TrustedDomainIsBacked(domain: string, ts: seq<HeldTrust>, view: TrustView)
    requires AgainstTrusts(domain, ts, view).TrustedDomain?
    ensures var r := AgainstTrusts(domain, ts, view);
      && r.domainSid == domain
      && (exists i :: && 0 <= i < |ts| && Backs(ts[i], domain, r.partner)
                      && r.attributes == ts[i].trust.attributes && r.forest == ForestOf(ts[i].trust)
                      && (view.Forest? ==> ForestTransitive(ts[i].trust.attributes)))
      && (r.partner.ForestMember? ==> r.forest.Some? && ForestContains(r.forest.value, domain))
  {
    FirstDirectExact(ts, domain, view);
    FirstListedExact(ts, domain);
    var r := AgainstTrusts(domain, ts, view);
    hide IsDirect, NamesDomain, ForestUnknown, FirstDirect, FirstListed, UnknownForests, EnabledSids, SidEnabled,
      ForestTransitive, ForestContains, EqIgnoreCase;
    if FirstDirect(ts, domain, view).Some? {
      var i :| 0 <= i < |ts| && IsDirect(ts[i], domain) && r == DirectAnswer(ts[i], domain, view);
      assert Backs(ts[i], domain, r.partner);
    } else {
      var i, d :| && 0 <= i < |ts| && ForestTransitive(ts[i].trust.attributes)
                  && d in ts[i].trust.forestDomains && NamesDomain(d, domain) && r == ListedAnswer(ts[i].trust, d, domain);
      assert Backs(ts[i], domain, r.partner);
      EnabledContained(ts[i].trust, d, domain);
    }
  }

  /** The two verdicts that name a trust without relying on it. A trust held by
      another domain of the forest is not taken for the resource's; a disabled
      SID is never trusted. */
  lemma UnusableTrusts(domain: string, ts: seq<HeldTrust>, view: TrustView)
    ensures var r := AgainstTrusts(domain, ts, view);
      && (r.TrustedByForestDomain? ==>
            && view.Forest?
            && exists i :: && 0 <= i < |ts| && IsDirect(ts[i], domain) && !ForestTransitive(ts[i].trust.attributes)
                           && r == TrustedByForestDomain(ts[i].trust.partner, domain, ts[i].holder))
      && (r.ForestDomainSidDisabled? ==>
            && (forall i :: 0 <= i < |ts| ==> !IsDirect(ts[i], domain))
            && exists i, d :: && 0 <= i < |ts| && ForestTransitive(ts[i].trust.attributes)
                              && d in ts[i].trust.forestDomains && NamesDomain(d, domain) && !SidEnabled(d)
                              && r == ForestDomainSidDisabled(d.dnsName, domain, ts[i].trust.partner, d.flags))
  {
    FirstDirectExact(ts, domain, view);
    FirstListedExact(ts, domain);
    hide IsDirect, NamesDomain, FirstDirect, FirstListed, UnknownForests, SidEnabled, ForestTransitive, ForestOf, Lists;
  }

  lemma EnabledContained(t: DomainTrust, d: ForestDomain, domain: string)
    requires ForestTransitive(t.attributes) && d in t.forestDomains && NamesDomain(d, domain) && SidEnabled(d)
    ensures ForestContains(ForestOf(t).value, domain)
  {
    EnabledSidsExact(t.forestDomains, d.sid);
    hide SidEnabled, EnabledSids, Upper;
    var sids := ForestOf(t).value.domainSids;
    var k :| 0 <= k < |sids| && sids[k] == d.sid;
    assert EqIgnoreCase(sids[k], domain);
  }

  // ---------- From the directory's bytes ----------

  lemma {:induction false} HeldTrustsExact(entries: seq<HeldEntry>, h: HeldTrust)
    ensures h in HeldTrusts(entries) <==>
      exists e :: e in entries && ParseTrust(e.entry) == Some(h.trust) && e.holder == h.holder
  {
    hide ParseTrust;
    if entries != [] {
      HeldTrustsExact(entries[1..], h);
      assert entries == [entries[0]] + entries[1..];
      var t := ParseTrust(entries[0].entry);
      if t == Some(h.trust) && entries[0].holder == h.holder {
        assert h == HeldTrust(t.value, entries[0].holder);
      }
    }
  }

  /** A forest trust whose value is missing or malformed is never an empty
      forest: no account of another domain is then called a stranger. */
  lemma OtherDomainFromBytes(domain: string, entries: seq<HeldEntry>, view: TrustView, e: HeldEntry)
    requires AgainstTrusts(domain, HeldTrusts(entries), view).OtherDomain?
    requires e in entries && ParseTrust(e.entry).Some? && ForestTransitive(AttributesOf(e.entry))
    ensures e.entry.forestInfo.Some? && ForestTrustInfo.Parse(e.entry.forestInfo.value).Ok?
    ensures forall d :: d in ForestTrustInfo.Parse(e.entry.forestInfo.value).value ==> !NamesDomain(d, domain)
  {
    var ts := HeldTrusts(entries);
    var h := HeldTrust(ParseTrust(e.entry).value, e.holder);
    OtherDomainExact(domain, ts, view);
    HeldTrustsExact(entries, h);
    hide AgainstTrusts, HeldTrusts, NamesDomain, ForestTransitive, AttributesOf, Trim, ForestTrustInfo.Parse, IsDirect;
    var i :| 0 <= i < |ts| && ts[i] == h;
    assert !ForestUnknown(h) && !Lists(h, domain);
  }

  // ---------- The whole classification ----------

  /** The evidence that proves an account gone. */
  predicate Gone(c: Context, domain: string) {
    if c.globalCatalog then c.forestSids.Ok? && Covered(c.forestSids.value, domain)
    else && c.baseNamesDomain && c.baseIsRoot
         && c.domainSid.Ok? && c.domainSid.value.Some?
         && IsDomainSid(c.domainSid.value.value) && EqIgnoreCase(c.domainSid.value.value, domain)
  }

  lemma AgainstTrustsIsNoBase(domain: string, ts: seq<HeldTrust>, view: TrustView)
    ensures !AgainstTrusts(domain, ts, view).ConfiguredDomainWholeBase?
  {
    FirstDirectExact(ts, domain, view);
    FirstListedExact(ts, domain);
    hide IsDirect, Lists, FirstDirect, FirstListed, UnknownForests, ForestOf, SidEnabled, NamesDomain, ForestTransitive;
  }

  /** The SID's domain is called the fully covered one exactly on that
      evidence: a SID of domain shape, and either a domain of the forest on a
      forest-wide bind or the configured domain with the base at its root. */
  lemma WholeBaseExact(c: Context, sid: Sid)
    ensures ClassifySid(c, sid).ConfiguredDomainWholeBase? <==>
      AccountDomainOf(sid).Some? && Gone(c, AccountDomainOf(sid).value)
  {
    hide AgainstTrusts, AccountDomainOf, HeldTrusts, IsDomainSid, EqIgnoreCase, ViewOf, Covered;
    if AccountDomainOf(sid).Some? && c.trusts.Ok? {
      var ts := HeldTrusts(c.trusts.value);
      AgainstTrustsIsNoBase(AccountDomainOf(sid).value, ts, Forest);
      AgainstTrustsIsNoBase(AccountDomainOf(sid).value, ts, ViewOf(c, ts));
    }
  }

  /** "Another domain" needs a complete reading of the trusts by a bind that
      sees every trust that could apply. */
  lemma OtherDomainNeedsEvidence(c: Context, sid: Sid)
    requires ClassifySid(c, sid).OtherDomain?
    ensures AccountDomainOf(sid).Some? && c.trusts.Ok?
    ensures var domain := AccountDomainOf(sid).value;
      var ts := HeldTrusts(c.trusts.value);
      && (forall i :: 0 <= i < |ts| ==> !IsDirect(ts[i], domain) && !Lists(ts[i], domain) && !ForestUnknown(ts[i]))
      && (c.globalCatalog || c.rootIsForestRoot == Some(true)
          || forall i :: 0 <= i < |ts| ==> !WithinForest(ts[i].trust.attributes))
      && !Gone(c, domain)
  {
    WholeBaseExact(c, sid);
    var domain := AccountDomainOf(sid).value;
    hide AgainstTrusts, AccountDomainOf, HeldTrusts, IsDomainSid, EqIgnoreCase, Covered, IsDirect, Lists, ForestUnknown, WithinForest;
    var ts := HeldTrusts(c.trusts.value);
    OtherDomainExact(domain, ts, ViewOf(c, ts));
  }
}
