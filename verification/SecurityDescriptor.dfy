/** The access control list of a self-relative security descriptor (sections
    2.4.4 to 2.4.6 of MS-DTYP), as far as the check for "Allowed to
    authenticate" reads it. */
module SecurityDescriptor {
  import opened Wrappers
  import opened Bytes
  import SidUtil

  datatype DaclError =
    | TooShort
    | NotSelfRelative
    | HeaderTruncated
    | DaclPastDescriptor
    | AceTruncated
    | AceSize
    | SidTruncated
    | SidTooLong
    | SidPastAce
    | UnsupportedType

  /** One access control entry: allow or deny, the SID it names, whether it
      covers the right, and whether it only serves inheritance. */
  datatype Ace = Ace(allow: bool, sid: string, covers: bool, inheritOnly: bool)

  /** The same entry with its SID still in binary form. */
  datatype RawAce = RawAce(allow: bool, sid: seq<Byte>, covers: bool, inheritOnly: bool)

  /** The control access right 68b1d179-0d15-4d4f-ab71-46152e79a7bc. */
  const ALLOWED_TO_AUTHENTICATE: seq<Byte> :=
    [0x79, 0xd1, 0xb1, 0x68, 0x15, 0x0d, 0x4f, 0x4d, 0xab, 0x71, 0x46, 0x15, 0x2e, 0x79, 0xa7, 0xbc]

  predicate IsPlain(kind: Byte) {
    kind == 0x00 || kind == 0x01
  }

  predicate IsObject(kind: Byte) {
    kind == 0x05 || kind == 0x06
  }

  /** Audit, alarm and label entries never grant or deny access. */
  predicate IsIgnored(kind: Byte) {
    kind == 0x02 || kind == 0x03 || kind == 0x07 || kind == 0x11
  }

  predicate InheritOnly(flags: Byte) {
    Bit(flags, 0x08)
  }

  /** The mask holds all extended rights or GENERIC_ALL. */
  predicate CoversAll(mask: nat) {
    Bit(mask, 0x100) || Bit(mask, 0x1000_0000)
  }

  predicate SelfRelative(control: nat) {
    Bit(control, 0x8000)
  }

  predicate DaclPresent(control: nat) {
    Bit(control, 0x4)
  }

  predicate HasObjectType(flags: nat) {
    Bit(flags, 1)
  }

  predicate HasInheritedType(flags: nat) {
    Bit(flags, 2)
  }

  // ---------- Specification ----------

  /** The SID at `at`, which must end by `end`. */
  function SidAt(b: seq<Byte>, at: nat, end: nat): (r: Result<seq<Byte>, DaclError>)
    requires end <= |b|
    ensures r.Ok? ==> |r.value| >= 8 && r.value[1] <= 15 && |r.value| == 8 + 4 * r.value[1] as int
  {
    if at + 1 >= |b| then Err(SidTruncated)
    else
      var count := b[at + 1] as int;
      if count > 15 then Err(SidTooLong)
      else if at + 8 + 4 * count > end then Err(SidPastAce)
      else Ok(b[at..at + 8 + 4 * count])
  }

  function PlainAt(sd: seq<Byte>, at: nat, end: nat, kind: Byte, flags: Byte): Result<RawAce, DaclError>
    requires at + 8 <= end <= |sd|
  {
    var sid :- SidAt(sd, at + 8, end);
    Ok(RawAce(kind == 0x00, sid, CoversAll(U32(sd, at + 4)), InheritOnly(flags)))
  }

  function ObjectAt(sd: seq<Byte>, at: nat, end: nat, kind: Byte, flags: Byte): Result<RawAce, DaclError>
    requires at + 8 <= end <= |sd|
  {
    if at + 12 > |sd| then Err(AceTruncated)
    else
      var objectFlags := U32(sd, at + 8);
      var p := at + 12;
      if HasObjectType(objectFlags) && p + 16 > |sd| then Err(AceTruncated)
      else
        var foreign := HasObjectType(objectFlags) && sd[p..p + 16] != ALLOWED_TO_AUTHENTICATE;
        var afterType := p + if HasObjectType(objectFlags) then 16 else 0;
        var sidAt := afterType + if HasInheritedType(objectFlags) then 16 else 0;
        var sid :- SidAt(sd, sidAt, end);
        Ok(RawAce(kind == 0x05, sid, CoversAll(U32(sd, at + 4)) && !foreign, InheritOnly(flags)))
  }

  datatype Step = Step(ace: Option<RawAce>, end: nat)

  /** The entry at `at`; `None` for one that does not concern access. */
  function AceAt(sd: seq<Byte>, at: nat, aclEnd: nat): (r: Result<Step, DaclError>)
    requires aclEnd <= |sd|
    ensures r.Ok? ==> at + 8 <= r.value.end <= aclEnd
    ensures r.Ok? && r.value.ace.Some? ==>
              |r.value.ace.value.sid| >= 8 && |r.value.ace.value.sid| == 8 + 4 * r.value.ace.value.sid[1] as int
  {
    if at + 4 > |sd| then Err(AceTruncated)
    else
      var kind, flags, end := sd[at], sd[at + 1], at + U16(sd, at + 2);
      if end < at + 8 || end > aclEnd then Err(AceSize)
      else if IsPlain(kind) then
        var ace :- PlainAt(sd, at, end, kind, flags);
        Ok(Step(Some(ace), end))
      else if IsObject(kind) then
        var ace :- ObjectAt(sd, at, end, kind, flags);
        Ok(Step(Some(ace), end))
      else if IsIgnored(kind) then Ok(Step(None, end))
      else Err(UnsupportedType)
  }

  datatype Steps = Steps(aces: seq<RawAce>, end: nat)

  function AcesAt(sd: seq<Byte>, at: nat, aclEnd: nat, count: nat): (r: Result<Steps, DaclError>)
    requires at <= aclEnd <= |sd|
    ensures r.Ok? ==> r.value.end <= aclEnd
  {
    if count == 0 then Ok(Steps([], at))
    else
      var earlier :- AcesAt(sd, at, aclEnd, count - 1);
      var last :- AceAt(sd, earlier.end, aclEnd);
      Ok(Steps(earlier.aces + if last.ace.Some? then [last.ace.value] else [], last.end))
  }

  function TextOf(a: RawAce): Ace {
    var text := SidUtil.SidOfBytes(a.sid);
    Ace(a.allow, if text.Ok? then text.value else "", a.covers, a.inheritOnly)
  }

  function Texts(aces: seq<RawAce>): seq<Ace> {
    seq(|aces|, i requires 0 <= i < |aces| => TextOf(aces[i]))
  }

  /** The entries of the list, in stored order; `None` when there is no list. */
  function ParseDacl(sd: seq<Byte>): Result<Option<seq<Ace>>, DaclError> {
    if |sd| < 20 then Err(TooShort)
    else if !SelfRelative(U16(sd, 2)) then Err(NotSelfRelative)
    else
      var at := U32(sd, 16);
      if !DaclPresent(U16(sd, 2)) || at == 0 then Ok(None)
      else if at + 6 > |sd| then Err(HeaderTruncated)
      else
        var size, count := U16(sd, at + 2), U16(sd, at + 4);
        if size < 8 || at + size > |sd| then Err(DaclPastDescriptor)
        else
          var steps :- AcesAt(sd, at + 8, at + size, count);
          Ok(Some(Texts(steps.aces)))
  }

  // ---------- The parser ----------

  lemma {:induction false} FailureStays(sd: seq<Byte>, at: nat, aclEnd: nat, i: nat, count: nat)
    requires at <= aclEnd <= |sd| && i <= count && AcesAt(sd, at, aclEnd, i).Err?
    ensures AcesAt(sd, at, aclEnd, count) == AcesAt(sd, at, aclEnd, i)
  {
    if i < count {
      FailureStays(sd, at, aclEnd, i, count - 1);
    }
  }

  method ReadObjectAce(sd: seq<Byte>, at: nat, end: nat, kind: Byte, flags: Byte) returns (r: Result<RawAce, DaclError>)
    requires at + 8 <= end <= |sd|
    ensures r == ObjectAt(sd, at, end, kind, flags)
  {
    var mask := U32(sd, at + 4);
    if at + 12 > |sd| {
      return Err(AceTruncated);
    }
    var objectFlags := U32(sd, at + 8);
    var p := at + 12;
    var objectType: Option<seq<Byte>> := None;
    if HasObjectType(objectFlags) {
      if p + 16 > |sd| {
        return Err(AceTruncated);
      }
      objectType := Some(sd[p..p + 16]);
      p := p + 16;
    }
    if HasInheritedType(objectFlags) {
      p := p + 16;
    }
    var sid :- SidAt(sd, p, end);
    r := Ok(RawAce(kind == 0x05, sid,
                   CoversAll(mask) && (objectType.None? || objectType.value == ALLOWED_TO_AUTHENTICATE),
                   InheritOnly(flags)));
  }

  method ReadAce(sd: seq<Byte>, at: nat, aclEnd: nat) returns (r: Result<Step, DaclError>)
    requires aclEnd <= |sd|
    ensures r == AceAt(sd, at, aclEnd)
  {
    if at + 4 > |sd| {
      return Err(AceTruncated);
    }
    var kind, flags, size := sd[at], sd[at + 1], U16(sd, at + 2);
    var end := at + size;
    if size < 8 || end > aclEnd {
      return Err(AceSize);
    }
    if kind == 0x00 || kind == 0x01 {
      var mask := U32(sd, at + 4);
      var sid :- SidAt(sd, at + 8, end);
      return Ok(Step(Some(RawAce(kind == 0x00, sid, CoversAll(mask), InheritOnly(flags))), end));
    }
    if kind == 0x05 || kind == 0x06 {
      var ace :- ReadObjectAce(sd, at, end, kind, flags);
      return Ok(Step(Some(ace), end));
    }
    if IsIgnored(kind) {
      return Ok(Step(None, end));
    }
    r := Err(UnsupportedType);
  }

  /** One more entry of the list. */
  lemma NextAce(sd: seq<Byte>, start: nat, aclEnd: nat, i: nat, aces: seq<RawAce>, at: nat)
    requires start <= aclEnd <= |sd| && AcesAt(sd, start, aclEnd, i) == Ok(Steps(aces, at))
    ensures match AceAt(sd, at, aclEnd)
            case Err(e) => AcesAt(sd, start, aclEnd, i + 1) == Err(e)
            case Ok(Step(None, end)) => AcesAt(sd, start, aclEnd, i + 1) == Ok(Steps(aces, end))
            case Ok(Step(Some(a), end)) => AcesAt(sd, start, aclEnd, i + 1) == Ok(Steps(aces + [a], end))
  {
    assert aces + [] == aces;
  }

  method ReadAces(sd: seq<Byte>, start: nat, aclEnd: nat, count: nat) returns (r: Result<seq<Ace>, DaclError>)
    requires start <= aclEnd <= |sd|
    ensures match AcesAt(sd, start, aclEnd, count)
            case Err(e) => r == Err(e)
            case Ok(steps) => r == Ok(Texts(steps.aces))
  {
    hide AceAt;
    var aces := [];
    ghost var raw := [];
    var at := start;
    for i := 0 to count
      invariant AcesAt(sd, start, aclEnd, i) == Ok(Steps(raw, at))
      invariant aces == Texts(raw)
    {
      NextAce(sd, start, aclEnd, i, raw, at);
      var step := ReadAce(sd, at, aclEnd);
      if step.Err? {
        FailureStays(sd, start, aclEnd, i + 1, count);
        return Err(step.error);
      }
      if step.value.ace.Some? {
        var a := step.value.ace.value;
        var text := SidUtil.BytesToSidStr(a.sid);
        aces := aces + [Ace(a.allow, text.value, a.covers, a.inheritOnly)];
        raw := raw + [a];
      }
      at := step.value.end;
    }
    r := Ok(aces);
  }

  method ReadDacl(sd: seq<Byte>) returns (r: Result<Option<seq<Ace>>, DaclError>)
    ensures r == ParseDacl(sd)
  {
    if |sd| < 20 {
      return Err(TooShort);
    }
    var control := U16(sd, 2);
    if !SelfRelative(control) {
      return Err(NotSelfRelative);
    }
    var daclAt := U32(sd, 16);
    if !DaclPresent(control) || daclAt == 0 {
      return Ok(None);
    }
    if daclAt + 6 > |sd| {
      return Err(HeaderTruncated);
    }
    var aclSize := U16(sd, daclAt + 2);
    var aceCount := U16(sd, daclAt + 4);
    var aclEnd := daclAt + aclSize;
    if aclSize < 8 || aclEnd > |sd| {
      return Err(DaclPastDescriptor);
    }
    var aces :- ReadAces(sd, daclAt + 8, aclEnd, aceCount);
    r := Ok(Some(aces));
  }
}
