/** Conversion of SIDs between the text form `S-R-I-S1-...-Sn` and the binary
    form of section 2.4.2 of MS-DTYP, and the filter escape of section 3 of
    RFC 4515. */
module SidUtil {
  import opened Wrappers
  import opened Bytes
  import opened Text

  datatype SidError = InvalidFormat | InvalidRevision | InvalidAuthority | InvalidSubAuthority | TooShort | Incomplete

  const U8_MAX: nat := 0xFF
  const U32_MAX: nat := 0xFFFF_FFFF
  const U64_MAX: nat := 0xFFFF_FFFF_FFFF_FFFF
  const AUTHORITY_LIMIT: nat := 0x1_0000_0000_0000

  // ---------- Text to bytes ----------

  /** The low 48 bits of `a`, six bytes big-endian. */
  function Put48(a: nat): (b: seq<Byte>)
    ensures |b| == 6
  {
    var a1 := a / 0x100;
    var a2 := a1 / 0x100;
    var a3 := a2 / 0x100;
    var a4 := a3 / 0x100;
    var a5 := a4 / 0x100;
    [a5 % 0x100, a4 % 0x100, a3 % 0x100, a2 % 0x100, a1 % 0x100, a % 0x100]
  }

  /** Shifting right by 8, 16, ... bits is dividing by 256 again and again. */
  lemma Shifts(a: nat)
    ensures [a / 0x100_0000_0000 % 0x100, a / 0x1_0000_0000 % 0x100, a / 0x100_0000 % 0x100,
             a / 0x1_0000 % 0x100, a / 0x100 % 0x100, a % 0x100] == Put48(a)
  {
    assert a / 0x1_0000 == a / 0x100 / 0x100;
    assert a / 0x100_0000 == a / 0x1_0000 / 0x100;
    assert a / 0x1_0000_0000 == a / 0x100_0000 / 0x100;
    assert a / 0x100_0000_0000 == a / 0x1_0000_0000 / 0x100;
  }

  function ParseSubs(parts: seq<string>): Option<seq<nat>> {
    if parts == [] then Some([])
    else
      var sa :- ParseUint(parts[0], U32_MAX);
      var rest :- ParseSubs(parts[1..]);
      Some([sa] + rest)
  }

  ghost predicate AreSubs(subs: seq<nat>) {
    forall i :: 0 <= i < |subs| ==> subs[i] <= U32_MAX
  }

  lemma {:induction false} ParsedSubs(parts: seq<string>)
    ensures ParseSubs(parts).Some? ==> AreSubs(ParseSubs(parts).value) && |ParseSubs(parts).value| == |parts|
    ensures ParseSubs(parts).Some? ==> forall i :: 0 <= i < |parts| ==> ParseUint(parts[i], U32_MAX) == Some(ParseSubs(parts).value[i])
  {
    if parts != [] {
      ParsedSubs(parts[1..]);
    }
  }

  function PutSubs(subs: seq<nat>): (b: seq<Byte>)
    requires forall i :: 0 <= i < |subs| ==> subs[i] <= U32_MAX
    ensures |b| == 4 * |subs|
  {
    if subs == [] then [] else PutSubs(subs[..|subs| - 1]) + Put32(subs[|subs| - 1])
  }

  /** The binary form of the three parts of a SID. */
  function PutSid(revision: nat, authority: nat, subs: seq<nat>): (b: seq<Byte>)
    requires revision <= U8_MAX && forall i :: 0 <= i < |subs| ==> subs[i] <= U32_MAX
    ensures |b| == 8 + 4 * |subs|
  {
    [revision, |subs| % 0x100] + Put48(authority) + PutSubs(subs)
  }

  datatype SidParts = SidParts(revision: nat, authority: nat, subs: seq<nat>)

  function ParseSid(sid: string): (r: Result<SidParts, SidError>)
    ensures r.Ok? ==> r.value.revision <= U8_MAX && r.value.authority <= U64_MAX
    ensures r.Ok? ==> forall i :: 0 <= i < |r.value.subs| ==> r.value.subs[i] <= U32_MAX
  {
    var parts := Split(Trim(sid), '-');
    if |parts| < 3 || parts[0] != "S" then Err(InvalidFormat)
    else if ParseUint(parts[1], U8_MAX).None? then Err(InvalidRevision)
    else if ParseUint(parts[2], U64_MAX).None? then Err(InvalidAuthority)
    else if ParseSubs(parts[3..]).None? then Err(InvalidSubAuthority)
    else
      ParsedSubs(parts[3..]);
      Ok(SidParts(ParseUint(parts[1], U8_MAX).value, ParseUint(parts[2], U64_MAX).value, ParseSubs(parts[3..]).value))
  }

  function SidToBytes(sid: string): Result<seq<Byte>, SidError> {
    var p :- ParseSid(sid);
    Ok(PutSid(p.revision, p.authority, p.subs))
  }

  method AppendSubs(header: seq<Byte>, subs: seq<nat>) returns (bytes: seq<Byte>)
    requires forall i :: 0 <= i < |subs| ==> subs[i] <= U32_MAX
    ensures bytes == header + PutSubs(subs)
  {
    bytes := header;
    for i := 0 to |subs|
      invariant bytes == header + PutSubs(subs[..i])
    {
      assert subs[..i + 1][..i] == subs[..i];
      bytes := bytes + Put32(subs[i]);
    }
    assert subs[..|subs|] == subs;
  }

  method SidStrToBytes(sid: string) returns (r: Result<seq<Byte>, SidError>)
    ensures r == SidToBytes(sid)
  {
    var parsed := ParseSid(sid);
    if parsed.Err? {
      return Err(parsed.error);
    }
    var a, subs := parsed.value.authority, parsed.value.subs;
    var bytes: seq<Byte> := [parsed.value.revision, |subs| % 0x100];
    Shifts(a);
    bytes := bytes + [a / 0x100_0000_0000 % 0x100, a / 0x1_0000_0000 % 0x100, a / 0x100_0000 % 0x100,
                      a / 0x1_0000 % 0x100, a / 0x100 % 0x100, a % 0x100];
    bytes := AppendSubs(bytes, subs);
    r := Ok(bytes);
  }

  // ---------- Bytes to text ----------

  /** Big-endian value of a byte string. */
  function BigEndian(b: seq<Byte>): nat {
    if b == [] then 0 else 0x100 * BigEndian(b[..|b| - 1]) + b[|b| - 1] as int
  }

  /** The first `n` sub-authorities, each after a hyphen. */
  function SubsText(b: seq<Byte>, n: nat): string
    requires 8 + 4 * n <= |b|
  {
    if n == 0 then "" else SubsText(b, n - 1) + "-" + Decimal(U32(b, 8 + 4 * (n - 1)))
  }

  function SidOfBytes(b: seq<Byte>): Result<string, SidError> {
    if |b| < 8 then Err(TooShort)
    else if |b| < 8 + 4 * b[1] as int then Err(Incomplete)
    else Ok("S-" + Decimal(b[0]) + "-" + Decimal(BigEndian(b[2..8])) + SubsText(b, b[1]))
  }

  method BytesToSidStr(b: seq<Byte>) returns (r: Result<string, SidError>)
    ensures r == SidOfBytes(b)
  {
    if |b| < 8 {
      return Err(TooShort);
    }
    var count := b[1] as int;
    if |b| < 8 + 4 * count {
      return Err(Incomplete);
    }
    var authority := 0;
    for i := 2 to 8
      invariant authority == BigEndian(b[2..i])
    {
      assert b[2..i + 1][..i - 2] == b[2..i];
      authority := 0x100 * authority + b[i] as int;
    }
    var sid := "S-" + Decimal(b[0]) + "-" + Decimal(authority);
    ghost var head := sid;
    for i := 0 to count
      invariant sid == head + SubsText(b, i)
    {
      sid := sid + "-";
      sid := sid + Decimal(U32(b, 8 + 4 * i));
    }
    r := Ok(sid);
  }

  // ---------- Round trips ----------

  /** The text form of the three parts of a SID. */
  function SidText(revision: nat, authority: nat, subs: seq<nat>): string {
    Join(SidNumerals(revision, authority, subs), '-')
  }

  function SidNumerals(revision: nat, authority: nat, subs: seq<nat>): seq<string> {
    ["S", Decimal(revision), Decimal(authority)] + Decimals(subs)
  }

  function Decimals(subs: seq<nat>): seq<string> {
    seq(|subs|, i requires 0 <= i < |subs| => Decimal(subs[i]))
  }

  lemma JoinHead(revision: string, authority: string)
    ensures Join(["S", revision, authority], '-') == "S-" + revision + "-" + authority
  {
    assert ["S", revision, authority][1..] == [revision, authority];
    assert [revision, authority][1..] == [authority];
    assert Join([revision, authority], '-') == revision + "-" + authority;
  }

  /** Sub-authorities written one after the other are read back in order. */
  lemma {:induction false} SubAt(subs: seq<nat>, i: nat)
    requires AreSubs(subs) && i < |subs|
    ensures PutSubs(subs)[4 * i..4 * i + 4] == Put32(subs[i])
  {
    if i < |subs| - 1 {
      SubAt(subs[..|subs| - 1], i);
    }
  }

  lemma SubInSid(revision: nat, authority: nat, subs: seq<nat>, i: nat)
    requires revision <= U8_MAX && AreSubs(subs) && i < |subs|
    ensures U32(PutSid(revision, authority, subs), 8 + 4 * i) == subs[i]
  {
    var b := PutSid(revision, authority, subs);
    SubAt(subs, i);
    assert b[8 + 4 * i..8 + 4 * i + 4] == PutSubs(subs)[4 * i..4 * i + 4];
    Get32(subs[i], b, 8 + 4 * i);
  }

  lemma BigEndianPush(b: seq<Byte>, x: Byte)
    ensures BigEndian(b + [x]) == 0x100 * BigEndian(b) + x as int
  {
    assert (b + [x])[..|b|] == b;
  }

  lemma BigEndianOfSix(b: seq<Byte>)
    requires |b| == 6
    ensures BigEndian(b) == 0x100 * (0x100 * (0x100 * (0x100 * (0x100 * (b[0] as int) + b[1] as int) + b[2] as int) + b[3] as int) + b[4] as int) + b[5] as int
  {
    assert b == [] + [b[0]] + [b[1]] + [b[2]] + [b[3]] + [b[4]] + [b[5]];
    BigEndianPush([], b[0]);
    BigEndianPush([] + [b[0]], b[1]);
    BigEndianPush([] + [b[0]] + [b[1]], b[2]);
    BigEndianPush([] + [b[0]] + [b[1]] + [b[2]], b[3]);
    BigEndianPush([] + [b[0]] + [b[1]] + [b[2]] + [b[3]], b[4]);
    BigEndianPush([] + [b[0]] + [b[1]] + [b[2]] + [b[3]] + [b[4]], b[5]);
  }

  lemma DivMod(a: nat)
    ensures a == 0x100 * (a / 0x100) + a % 0x100
  {
  }

  lemma RemainderIs(a: nat, q: nat, r: nat)
    requires a == AUTHORITY_LIMIT * q + r && r < AUTHORITY_LIMIT
    ensures a % AUTHORITY_LIMIT == r
  {
  }

  lemma BigEndianOfPut48(a: nat)
    ensures BigEndian(Put48(a)) == a % AUTHORITY_LIMIT
  {
    BigEndianOfSix(Put48(a));
    var a1 := a / 0x100;
    var a2 := a1 / 0x100;
    var a3 := a2 / 0x100;
    var a4 := a3 / 0x100;
    var a5 := a4 / 0x100;
    var b := Put48(a);
    assert b[0] == a5 % 0x100 && b[1] == a4 % 0x100 && b[2] == a3 % 0x100;
    assert b[3] == a2 % 0x100 && b[4] == a1 % 0x100 && b[5] == a % 0x100;
    hide BigEndian, Put48;
    DivMod(a);
    DivMod(a1);
    DivMod(a2);
    DivMod(a3);
    DivMod(a4);
    DivMod(a5);
    RemainderIs(a, a5 / 0x100, BigEndian(b));
  }

  lemma NoDecimals()
    ensures Decimals([]) == []
  {
  }

  lemma DecimalsPush(subs: seq<nat>, n: nat)
    requires 0 < n <= |subs|
    ensures Decimals(subs[..n]) == Decimals(subs[..n - 1]) + [Decimal(subs[n - 1])]
  {
    hide Decimal;
  }

  lemma {:induction false} SubsTextIs(b: seq<Byte>, head: seq<string>, subs: seq<nat>, n: nat)
    requires |head| > 0 && n <= |subs| && 8 + 4 * n <= |b|
    requires forall i :: 0 <= i < n ==> U32(b, 8 + 4 * i) == subs[i]
    ensures Join(head + Decimals(subs[..n]), '-') == Join(head, '-') + SubsText(b, n)
  {
    hide Decimal, Join, Decimals;
    if n == 0 {
      NoDecimals();
      assert subs[..0] == [] && head + [] == head;
    } else {
      var parts, last := head + Decimals(subs[..n - 1]), Decimal(subs[n - 1]);
      SubsTextIs(b, head, subs, n - 1);
      DecimalsPush(subs, n);
      assert SubsText(b, n) == SubsText(b, n - 1) + "-" + last;
      hide *;
      assert head + Decimals(subs[..n]) == parts + [last];
      JoinAppend(parts, last, '-');
    }
  }

  lemma DecodeParts(revision: nat, authority: nat, subs: seq<nat>, a: nat, n: nat)
    requires revision <= U8_MAX && AreSubs(subs)
    requires a == authority % AUTHORITY_LIMIT && n == |subs| % 0x100
    ensures SidOfBytes(PutSid(revision, authority, subs)) == Ok(SidText(revision, a, subs[..n]))
  {
    var b := PutSid(revision, authority, subs);
    var head := ["S", Decimal(revision), Decimal(a)];
    assert b[2..8] == Put48(authority);
    BigEndianOfPut48(authority);
    forall i | 0 <= i < n ensures U32(b, 8 + 4 * i) == subs[i] {
      SubInSid(revision, authority, subs, i);
    }
    SubsTextIs(b, head, subs, n);
    JoinHead(Decimal(revision), Decimal(a));
  }

  /** What decoding an encoded SID gives: the authority modulo 2^48 and as
      many sub-authorities as the count byte can hold. */
  lemma DecodeOfEncode(revision: nat, authority: nat, subs: seq<nat>)
    requires revision <= U8_MAX && AreSubs(subs)
    ensures SidOfBytes(PutSid(revision, authority, subs))
            == Ok(SidText(revision, authority % AUTHORITY_LIMIT, subs[..|subs| % 0x100]))
  {
    DecodeParts(revision, authority, subs, authority % AUTHORITY_LIMIT, |subs| % 0x100);
  }

  // ---------- Parsing a printed SID ----------

  lemma SplitSidText(revision: nat, authority: nat, subs: seq<nat>)
    ensures Split(SidText(revision, authority, subs), '-') == SidNumerals(revision, authority, subs)
  {
    var parts := SidNumerals(revision, authority, subs);
    forall p | p in parts ensures '-' !in p {
      var i :| 0 <= i < |parts| && parts[i] == p;
      if i == 1 {
        DigitsHaveNoHyphen(Decimal(revision));
      } else if i == 2 {
        DigitsHaveNoHyphen(Decimal(authority));
      } else if i > 2 {
        DigitsHaveNoHyphen(Decimal(subs[i - 3]));
      }
    }
    SplitJoin(parts, '-');
  }

  lemma {:induction false} JoinEnds(parts: seq<string>, sep: char)
    requires |parts| > 0 && parts[0] != "" && parts[|parts| - 1] != ""
    ensures var s := Join(parts, sep);
            s != "" && s[0] == parts[0][0] && s[|s| - 1] == parts[|parts| - 1][|parts[|parts| - 1]| - 1]
  {
    if |parts| > 1 {
      LastOfJoin(parts, sep);
    }
  }

  lemma {:induction false} LastOfJoin(parts: seq<string>, sep: char)
    requires |parts| > 0 && parts[|parts| - 1] != ""
    ensures var s := Join(parts, sep);
            s != "" && s[|s| - 1] == parts[|parts| - 1][|parts[|parts| - 1]| - 1]
  {
    if |parts| > 1 {
      LastOfJoin(parts[1..], sep);
    }
  }

  /** A printed SID has no white space at its ends. */
  lemma TrimSidText(revision: nat, authority: nat, subs: seq<nat>)
    ensures Trim(SidText(revision, authority, subs)) == SidText(revision, authority, subs)
  {
    var parts := SidNumerals(revision, authority, subs);
    var last := parts[|parts| - 1];
    assert AllDigits(last) && last != "" && IsDigit(last[|last| - 1]);
    JoinEnds(parts, '-');
  }

  lemma DecimalsFirst(subs: seq<nat>)
    requires subs != []
    ensures Decimals(subs) == [Decimal(subs[0])] + Decimals(subs[1..])
  {
    hide Decimal;
  }

  lemma ParseSubsFirst(part: string, rest: seq<string>)
    requires ParseUint(part, U32_MAX).Some? && ParseSubs(rest).Some?
    ensures ParseSubs([part] + rest) == Some([ParseUint(part, U32_MAX).value] + ParseSubs(rest).value)
  {
    hide ParseUint;
    assert ([part] + rest)[1..] == rest;
  }

  lemma ParseNoSubs()
    ensures ParseSubs([]) == Some([])
  {
  }

  lemma {:induction false} ParseDecimals(subs: seq<nat>)
    requires AreSubs(subs)
    ensures ParseSubs(Decimals(subs)) == Some(subs)
  {
    assert subs != [] ==> subs[0] <= U32_MAX && AreSubs(subs[1..]);
    assert subs == [] ==> Decimals(subs) == [];
    hide *;
    if subs == [] {
      ParseNoSubs();
    } else {
      ParseDecimals(subs[1..]);
      ParseDecimal(subs[0], U32_MAX);
      ParseSubsFirst(Decimal(subs[0]), Decimals(subs[1..]));
      DecimalsFirst(subs);
      assert [subs[0]] + subs[1..] == subs;
    }
  }

  /** Parsing undoes printing. */
  lemma ParseSidText(revision: nat, authority: nat, subs: seq<nat>)
    requires revision <= U8_MAX && authority <= U64_MAX && AreSubs(subs)
    ensures ParseSid(SidText(revision, authority, subs)) == Ok(SidParts(revision, authority, subs))
  {
    SplitSidText(revision, authority, subs);
    TrimSidText(revision, authority, subs);
    ParseDecimal(revision, U8_MAX);
    ParseDecimal(authority, U64_MAX);
    ParseDecimals(subs);
    assert SidNumerals(revision, authority, subs)[3..] == Decimals(subs);
  }

  // ---------- Main results ----------

  /** The sub-authorities of a binary SID. */
  function SubsOf(b: seq<Byte>, n: nat): (subs: seq<nat>)
    requires 8 + 4 * n <= |b|
    ensures |subs| == n && forall i :: 0 <= i < n ==> subs[i] <= U32_MAX && subs[i] == U32(b, 8 + 4 * i)
  {
    seq(n, i requires 0 <= i < n => U32(b, 8 + 4 * i))
  }

  lemma {:induction false} PutSubsOf(b: seq<Byte>, n: nat)
    requires 8 + 4 * n <= |b|
    ensures PutSubs(SubsOf(b, n)) == b[8..8 + 4 * n]
  {
    if n > 0 {
      PutSubsOf(b, n - 1);
      assert SubsOf(b, n)[..n - 1] == SubsOf(b, n - 1);
      PutGet32(b, 8 + 4 * (n - 1));
    }
  }

  lemma PopByte(high: nat, low: Byte)
    ensures (0x100 * high + low as int) / 0x100 == high && (0x100 * high + low as int) % 0x100 == low as int
  {
  }

  lemma Put48OfBigEndian(b: seq<Byte>)
    requires |b| == 6
    ensures Put48(BigEndian(b)) == b && BigEndian(b) < AUTHORITY_LIMIT
  {
    hide BigEndian, Put48;
    BigEndianOfSix(b);
    var h1 := 0x100 * (b[0] as int) + b[1] as int;
    var h2 := 0x100 * h1 + b[2] as int;
    var h3 := 0x100 * h2 + b[3] as int;
    var h4 := 0x100 * h3 + b[4] as int;
    PopByte(b[0], b[1]);
    PopByte(h1, b[2]);
    PopByte(h2, b[3]);
    PopByte(h3, b[4]);
    PopByte(h4, b[5]);
    var v := 0x100 * h4 + b[5] as int;
    assert v == BigEndian(b);
    Put48Bytes(v, b[0], h1, h2, h3, h4);
  }

  lemma Put48Bytes(v: nat, h0: Byte, h1: nat, h2: nat, h3: nat, h4: nat)
    requires v / 0x100 == h4 && h4 / 0x100 == h3 && h3 / 0x100 == h2 && h2 / 0x100 == h1 && h1 / 0x100 == h0 as int
    ensures Put48(v) == [h0 % 0x100, h1 % 0x100, h2 % 0x100, h3 % 0x100, h4 % 0x100, v % 0x100]
  {
  }

  lemma ThreeParts(b: seq<Byte>, middle: seq<Byte>, tail: seq<Byte>)
    requires |b| >= 8 && middle == b[2..8] && tail == b[8..]
    ensures b == [b[0], b[1]] + middle + tail
  {
  }

  lemma PutSidIs(revision: nat, authority: nat, subs: seq<nat>)
    requires revision <= U8_MAX && forall i :: 0 <= i < |subs| ==> subs[i] <= U32_MAX
    ensures PutSid(revision, authority, subs) == [revision, |subs| % 0x100] + Put48(authority) + PutSubs(subs)
  {
    hide Put48, PutSubs;
  }

  lemma ExactPut(b: seq<Byte>, authority: nat, subs: seq<nat>)
    requires |b| >= 8 && |b| == 8 + 4 * b[1] as int
    requires Put48(authority) == b[2..8] && subs == SubsOf(b, b[1])
    ensures b == PutSid(b[0], authority, subs)
  {
    hide Put48, PutSubs, PutSid, U32;
    PutSubsOf(b, b[1]);
    assert b[8..8 + 4 * b[1] as int] == b[8..];
    PutSidIs(b[0], authority, subs);
    ThreeParts(b, Put48(authority), PutSubs(subs));
  }

  /** A binary SID of exact length is the encoding of its parts, and its text
      is the text of its parts. */
  lemma ExactBytes(b: seq<Byte>)
    requires |b| >= 8 && |b| == 8 + 4 * b[1] as int
    ensures var subs := SubsOf(b, b[1]);
            var authority := BigEndian(b[2..8]);
            && authority < AUTHORITY_LIMIT
            && b == PutSid(b[0], authority, subs)
            && SidOfBytes(b) == Ok(SidText(b[0], authority, subs))
  {
    hide Put48, PutSubs, PutSid, SidOfBytes, SidText, BigEndian, SubsOf, U32;
    var subs := SubsOf(b, b[1]);
    var authority := BigEndian(b[2..8]);
    Put48OfBigEndian(b[2..8]);
    ExactPut(b, authority, subs);
    DecodeInRange(b[0], authority, subs);
  }

  /** Every binary SID of exact length survives the way through text. */
  lemma BytesRoundTrip(b: seq<Byte>)
    requires |b| >= 8 && |b| == 8 + 4 * b[1] as int
    ensures SidOfBytes(b).Ok? && SidToBytes(SidOfBytes(b).value) == Ok(b)
  {
    ExactBytes(b);
    ParseSidText(b[0], BigEndian(b[2..8]), SubsOf(b, b[1]));
  }

  /** A text that needs no normalisation and fits the binary form. */
  predicate CanonicalSid(sid: string) {
    var parts := Split(sid, '-');
    && Trim(sid) == sid
    && 3 <= |parts| <= 258
    && (forall i :: 1 <= i < |parts| ==> CanonicalNumeral(parts[i]))
    && Value(parts[2]) < AUTHORITY_LIMIT
  }

  lemma {:induction false} PrintedSubs(parts: seq<string>)
    requires ParseSubs(parts).Some?
    requires forall i :: 0 <= i < |parts| ==> CanonicalNumeral(parts[i])
    ensures Decimals(ParseSubs(parts).value) == parts
  {
    var subs := ParseSubs(parts).value;
    ParsedSubs(parts);
    forall i | 0 <= i < |parts| ensures Decimal(subs[i]) == parts[i] {
      PrintParsed(parts[i], U32_MAX);
    }
  }

  /** The parts of an accepted canonical text. */
  lemma CanonicalParts(sid: string)
    requires ParseSid(sid).Ok? && CanonicalSid(sid)
    ensures var parts, p := Split(sid, '-'), ParseSid(sid).value;
      && 3 <= |parts| <= 258 && parts[0] == "S"
      && ParseUint(parts[1], U8_MAX) == Some(p.revision) && ParseUint(parts[2], U64_MAX) == Some(p.authority)
      && ParseSubs(parts[3..]) == Some(p.subs)
      && (forall i :: 1 <= i < |parts| ==> CanonicalNumeral(parts[i]))
      && Value(parts[2]) < AUTHORITY_LIMIT
  {
    hide Split, Trim, ParseUint, ParseSubs, CanonicalNumeral;
  }

  lemma CanonicalValue(part: string, max: nat)
    requires CanonicalNumeral(part) && ParseUint(part, max).Some?
    ensures Decimal(ParseUint(part, max).value) == part && ParseUint(part, max).value == Value(part)
  {
    PrintParsed(part, max);
    assert IsDigit(part[0]);
    hide Decimal, Value;
  }

  lemma NumeralsOfParsed(sid: string)
    requires ParseSid(sid).Ok? && CanonicalSid(sid)
    ensures var p := ParseSid(sid).value; Split(sid, '-') == SidNumerals(p.revision, p.authority, p.subs)
    ensures ParseSid(sid).value.authority < AUTHORITY_LIMIT && |ParseSid(sid).value.subs| <= 255
  {
    hide Split, ParseSid, ParseUint, ParseSubs, CanonicalNumeral, CanonicalSid, Decimal, Decimals, Value;
    CanonicalParts(sid);
    var parts := Split(sid, '-');
    var subs := parts[3..];
    ParsedSubs(subs);
    CanonicalValue(parts[1], U8_MAX);
    CanonicalValue(parts[2], U64_MAX);
    assert forall i :: 0 <= i < |subs| ==> subs[i] == parts[i + 3];
    PrintedSubs(subs);
    assert parts == [parts[0], parts[1], parts[2]] + subs;
  }

  lemma CanonicalText(revision: nat, authority: nat, subs: seq<nat>)
    requires authority < AUTHORITY_LIMIT && |subs| <= 255
    ensures CanonicalSid(SidText(revision, authority, subs))
  {
    hide Split, Join, Decimal, Trim, CanonicalNumeral, SidText, Value;
    SplitSidText(revision, authority, subs);
    TrimSidText(revision, authority, subs);
    var parts := SidNumerals(revision, authority, subs);
    forall i | 1 <= i < |parts| ensures CanonicalNumeral(parts[i]) {
      if i == 1 {
        DecimalIsCanonical(revision);
      } else if i == 2 {
        DecimalIsCanonical(authority);
      } else {
        DecimalIsCanonical(subs[i - 3]);
      }
    }
    ValueOfDecimal(authority);
  }

  lemma CanonicalIsItsText(sid: string)
    requires ParseSid(sid).Ok? && CanonicalSid(sid)
    ensures var p := ParseSid(sid).value;
            p.authority < AUTHORITY_LIMIT && |p.subs| <= 255 && SidText(p.revision, p.authority, p.subs) == sid
  {
    NumeralsOfParsed(sid);
    JoinSplit(sid, '-');
  }

  lemma DecodeInRange(revision: nat, authority: nat, subs: seq<nat>)
    requires revision <= U8_MAX && AreSubs(subs) && authority < AUTHORITY_LIMIT && |subs| <= 255
    ensures SidOfBytes(PutSid(revision, authority, subs)) == Ok(SidText(revision, authority, subs))
  {
    DecodeParts(revision, authority, subs, authority, |subs|);
    assert subs[..|subs|] == subs;
  }

  lemma CanonicalSurvives(sid: string)
    requires ParseSid(sid).Ok? && CanonicalSid(sid)
    ensures SidOfBytes(SidToBytes(sid).value) == Ok(sid)
  {
    var p := ParseSid(sid).value;
    CanonicalIsItsText(sid);
    DecodeInRange(p.revision, p.authority, p.subs);
  }

  lemma SurvivorIsCanonical(sid: string)
    requires ParseSid(sid).Ok? && SidOfBytes(SidToBytes(sid).value) == Ok(sid)
    ensures CanonicalSid(sid)
  {
    var p := ParseSid(sid).value;
    DecodeOfEncode(p.revision, p.authority, p.subs);
    CanonicalText(p.revision, p.authority % AUTHORITY_LIMIT, p.subs[..|p.subs| % 0x100]);
  }

  /** An accepted text survives the way through bytes exactly when it is
      canonical. A sign, a leading zero, surrounding white space, an authority
      of 2^48 or more or more than 255 sub-authorities are accepted but not
      preserved. */
  lemma TextRoundTrip(sid: string)
    requires SidToBytes(sid).Ok?
    ensures SidOfBytes(SidToBytes(sid).value) == Ok(sid) <==> CanonicalSid(sid)
  {
    if CanonicalSid(sid) {
      CanonicalSurvives(sid);
    }
    if SidOfBytes(SidToBytes(sid).value) == Ok(sid) {
      SurvivorIsCanonical(sid);
    }
  }

  lemma ExampleTrim()
    ensures Trim("S-01-5-18") == "S-01-5-18"
  {
    var s := "S-01-5-18";
    assert TrimStart(s) == s && s[|s| - 1] == '8' && TrimEnd(s) == s;
  }

  lemma ExampleJoin()
    ensures Join(["S", "01", "5", "18"], '-') == "S-01-5-18"
  {
    JoinAppend(["S"], "01", '-');
    JoinAppend(["S", "01"], "5", '-');
    JoinAppend(["S", "01", "5"], "18", '-');
    assert Join(["S"], '-') == "S";
    hide Join;
    assert ["S"] + ["01"] == ["S", "01"] && ["S", "01"] + ["5"] == ["S", "01", "5"];
    assert ["S", "01", "5"] + ["18"] == ["S", "01", "5", "18"];
  }

  lemma ExampleParts()
    ensures Split("S-01-5-18", '-') == ["S", "01", "5", "18"]
  {
    ExampleJoin();
    var parts := ["S", "01", "5", "18"];
    hide Join, Split;
    forall p | p in parts ensures '-' !in p {
    }
    SplitJoin(parts, '-');
  }

  lemma ExampleNumerals()
    ensures ParseUint("01", U8_MAX) == Some(1) && !CanonicalNumeral("01")
    ensures ParseUint("5", U64_MAX) == Some(5) && ParseSubs(["18"]) == Some([18])
  {
    assert "01"[..1] == "0" && "0"[..0] == "" && Value("0") == 0 && Value("01") == 1;
    assert "5"[..0] == "" && Value("5") == 5;
    assert "18"[..1] == "1" && "1"[..0] == "" && Value("1") == 1 && Value("18") == 18;
    assert ParseUint("18", U32_MAX) == Some(18);
    ParseSubsFirst("18", []);
    assert ["18"] + [] == ["18"] && [18 as nat] + [] == [18];
  }

  lemma ExampleParses()
    ensures ParseSid("S-01-5-18").Ok? && !CanonicalSid("S-01-5-18")
  {
    ExampleTrim();
    ExampleParts();
    ExampleNumerals();
    var parts := ["S", "01", "5", "18"];
    assert parts[3..] == ["18"] && parts[1] == "01";
    hide Split, Trim, ParseUint, ParseSubs, CanonicalNumeral;
  }

  /** A text the parser accepts and does not reproduce. */
  lemma LeadingZeroIsLost()
    ensures SidToBytes("S-01-5-18").Ok?
    ensures SidOfBytes(SidToBytes("S-01-5-18").value) != Ok("S-01-5-18")
  {
    hide SidOfBytes, CanonicalSid, ParseSid, PutSid;
    ExampleParses();
    TextRoundTrip("S-01-5-18");
  }

  /** Different binary SIDs of exact length have different texts. */
  lemma SidTextsDiffer(a: seq<Byte>, b: seq<Byte>)
    requires |a| >= 8 && |a| == 8 + 4 * a[1] as int
    requires |b| >= 8 && |b| == 8 + 4 * b[1] as int
    ensures SidOfBytes(a) == SidOfBytes(b) <==> a == b
  {
    BytesRoundTrip(a);
    BytesRoundTrip(b);
  }

  // ---------- Filter escape ----------

  function HexChar(d: nat): char
    requires d < 16
  {
    if d < 10 then (d + '0' as int) as char else (d - 10 + 'a' as int) as char
  }

  function HexValue(c: char): Option<nat> {
    if '0' <= c <= '9' then Some(c as int - '0' as int)
    else if 'a' <= c <= 'f' then Some(c as int - 'a' as int + 10)
    else if 'A' <= c <= 'F' then Some(c as int - 'A' as int + 10)
    else None
  }

  function Escape(bytes: seq<Byte>): (s: string)
    ensures |s| == 3 * |bytes|
  {
    if bytes == [] then ""
    else ['\\', HexChar(bytes[0] / 16), HexChar(bytes[0] % 16)] + Escape(bytes[1..])
  }

  /** The reading of an escaped value by section 3 of RFC 4515. */
  function Unescape(s: string): Option<seq<Byte>> {
    if s == "" then Some([])
    else if |s| < 3 || s[0] != '\\' || HexValue(s[1]).None? || HexValue(s[2]).None? then None
    else
      var rest :- Unescape(s[3..]);
      Some([16 * HexValue(s[1]).value + HexValue(s[2]).value] + rest)
  }

  lemma HexDigit(d: nat)
    requires d < 16
    ensures HexValue(HexChar(d)) == Some(d)
  {
  }

  function EscapeByte(b: Byte): string {
    ['\\', HexChar(b / 16), HexChar(b % 16)]
  }

  lemma EscapeFirst(b: Byte, rest: seq<Byte>)
    ensures Escape([b] + rest) == EscapeByte(b) + Escape(rest)
  {
    hide HexChar;
    assert ([b] + rest)[1..] == rest;
  }

  lemma UnescapeFirst(b: Byte, s: string, rest: seq<Byte>)
    requires Unescape(s) == Some(rest)
    ensures Unescape(EscapeByte(b) + s) == Some([b] + rest)
  {
    HexDigit(b / 16);
    HexDigit(b % 16);
    hide HexChar, HexValue;
    var t := EscapeByte(b) + s;
    assert t[3..] == s;
    assert 16 * (b / 16) + b % 16 == b;
  }

  lemma {:induction false} UnescapeEscape(bytes: seq<Byte>)
    ensures Unescape(Escape(bytes)) == Some(bytes)
  {
    if bytes != [] {
      UnescapeEscape(bytes[1..]);
      EscapeFirst(bytes[0], bytes[1..]);
      UnescapeFirst(bytes[0], Escape(bytes[1..]), bytes[1..]);
      hide *;
      assert [bytes[0]] + bytes[1..] == bytes;
    }
  }

  function SidStrToLdapFilter(sid: string): Result<string, SidError> {
    var bytes :- SidToBytes(sid);
    Ok(Escape(bytes))
  }

  /** The filter of a binary SID's text matches exactly those bytes. */
  lemma FilterMatchesBytes(b: seq<Byte>)
    requires |b| >= 8 && |b| == 8 + 4 * b[1] as int
    ensures SidOfBytes(b).Ok?
    ensures var filter := SidStrToLdapFilter(SidOfBytes(b).value);
            filter.Ok? && |filter.value| == 3 * |b| && Unescape(filter.value) == Some(b)
  {
    BytesRoundTrip(b);
    UnescapeEscape(b);
  }
}
