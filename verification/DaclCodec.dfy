/** The entries the DACL parser accepts are exactly the encoded ones, in stored
    order and inside the list; the answer depends on nothing behind the list,
    and cutting the list is always an error. */
module DaclCodec {
  import opened Wrappers
  import opened Bytes
  import opened SecurityDescriptor

  /** An entry as the directory stores it. `tail` is whatever stands behind the
      SID inside the entry. */
  datatype AceSpec =
    | Plain(allow: bool, flags: Byte, mask: nat, sid: seq<Byte>, tail: seq<Byte>)
    | Object(allow: bool, flags: Byte, mask: nat, objectFlags: nat, types: seq<Byte>, sid: seq<Byte>, tail: seq<Byte>)
    | Ignored(kind: Byte, flags: Byte, body: seq<Byte>)

  predicate ValidSid(b: seq<Byte>) {
    |b| >= 8 && b[1] <= 15 && |b| == 8 + 4 * b[1] as int
  }

  /** The object type and the inherited object type take 16 bytes each when present. */
  function TypesLength(objectFlags: nat): nat {
    (if HasObjectType(objectFlags) then 16 else 0) + (if HasInheritedType(objectFlags) then 16 else 0)
  }

  predicate Valid(a: AceSpec) {
    match a
    case Plain(_, _, mask, sid, tail) =>
      mask < 0x1_0000_0000 && ValidSid(sid) && 8 + |sid| + |tail| < 0x1_0000
    case Object(_, _, mask, objectFlags, types, sid, tail) =>
      && mask < 0x1_0000_0000 && objectFlags < 0x1_0000_0000 && ValidSid(sid)
      && |types| == TypesLength(objectFlags)
      && 12 + |types| + |sid| + |tail| < 0x1_0000
    case Ignored(kind, _, body) => IsIgnored(kind) && 4 <= |body| && 4 + |body| < 0x1_0000
  }

  function Kind(a: AceSpec): Byte {
    match a
    case Plain(allow, _, _, _, _) => if allow then 0x00 else 0x01
    case Object(allow, _, _, _, _, _, _) => if allow then 0x05 else 0x06
    case Ignored(kind, _, _) => kind
  }

  function Body(a: AceSpec): (b: seq<Byte>)
    requires Valid(a)
    ensures 4 <= |b| && 4 + |b| < 0x1_0000
  {
    match a
    case Plain(_, _, mask, sid, tail) => Put32(mask) + (sid + tail)
    case Object(_, _, mask, objectFlags, types, sid, tail) => Put32(mask) + (Put32(objectFlags) + (types + (sid + tail)))
    case Ignored(_, _, body) => body
  }

  function Put(a: AceSpec): (b: seq<Byte>)
    requires Valid(a)
    ensures |b| == 4 + |Body(a)|
  {
    [Kind(a), a.flags] + Put16(4 + |Body(a)|) + Body(a)
  }

  /** The entry covers the right unless it is limited to another object type. */
  function Meaning(a: AceSpec): Option<RawAce>
    requires Valid(a)
  {
    match a
    case Plain(allow, flags, mask, sid, _) => Some(RawAce(allow, sid, CoversAll(mask), InheritOnly(flags)))
    case Object(allow, flags, mask, objectFlags, types, sid, _) =>
      var foreign := HasObjectType(objectFlags) && types[..16] != ALLOWED_TO_AUTHENTICATE;
      Some(RawAce(allow, sid, CoversAll(mask) && !foreign, InheritOnly(flags)))
    case Ignored(_, _, _) => None
  }

  predicate ValidList(specs: seq<AceSpec>) {
    forall i :: 0 <= i < |specs| ==> Valid(specs[i])
  }

  function PutAll(specs: seq<AceSpec>): seq<Byte>
    requires ValidList(specs)
  {
    if specs == [] then [] else PutAll(specs[..|specs| - 1]) + Put(specs[|specs| - 1])
  }

  /** The entries that concern access, in stored order. */
  function Meanings(specs: seq<AceSpec>): seq<RawAce>
    requires ValidList(specs)
  {
    if specs == [] then []
    else
      Meanings(specs[..|specs| - 1]) +
      if Meaning(specs[|specs| - 1]).Some? then [Meaning(specs[|specs| - 1]).value] else []
  }

  // ---------- One entry ----------

  lemma SidForward(sd: seq<Byte>, at: nat, end: nat, sid: seq<Byte>)
    requires ValidSid(sid) && At(sd, at, sid) && at + |sid| <= end <= |sd|
    ensures SidAt(sd, at, end) == Ok(sid)
  {
    AtSlice(sd, at, sid);
    assert sd[at..at + |sid|][1] == sd[at + 1];
  }

  /** The parser reads the entry at `at` as `ace` and stops at `end`. */
  ghost predicate Yields(sd: seq<Byte>, at: nat, aclEnd: nat, ace: Option<RawAce>, end: nat) {
    aclEnd <= |sd| && var r := AceAt(sd, at, aclEnd);
    r.Ok? && r.value.ace == ace && r.value.end == end
  }

  lemma HeadIff(sd: seq<Byte>, at: nat, kind: Byte, flags: Byte, size: nat)
    requires size < 0x1_0000
    ensures At(sd, at, [kind, flags] + Put16(size)) <==>
              at + 4 <= |sd| && sd[at] == kind && sd[at + 1] == flags && U16(sd, at + 2) == size
  {
    AtSplit(sd, at, [kind, flags], Put16(size));
    AtSlice(sd, at, [kind, flags]);
    U16Iff(sd, at + 2, size);
  }

  lemma PutIff(sd: seq<Byte>, at: nat, a: AceSpec)
    requires Valid(a)
    ensures At(sd, at, Put(a)) <==>
              && at + 4 <= |sd| && sd[at] == Kind(a) && sd[at + 1] == a.flags && U16(sd, at + 2) == |Put(a)|
              && At(sd, at + 4, Body(a))
  {
    hide At, Body;
    var size := 4 + |Body(a)|;
    AtSplit(sd, at, [Kind(a), a.flags] + Put16(size), Body(a));
    HeadIff(sd, at, Kind(a), a.flags, size);
  }

  lemma PlainIff(sd: seq<Byte>, at: nat, mask: nat, sid: seq<Byte>, tail: seq<Byte>)
    requires mask < 0x1_0000_0000
    ensures At(sd, at, Put32(mask) + (sid + tail)) <==>
              at + 4 <= |sd| && U32(sd, at) == mask && At(sd, at + 4, sid) && At(sd, at + 4 + |sid|, tail)
  {
    hide *;
    AtSplit(sd, at, Put32(mask), sid + tail);
    AtSplit(sd, at + 4, sid, tail);
    U32Iff(sd, at, mask);
  }

  lemma ObjectIff(sd: seq<Byte>, at: nat, mask: nat, objectFlags: nat, types: seq<Byte>, sid: seq<Byte>, tail: seq<Byte>)
    requires mask < 0x1_0000_0000 && objectFlags < 0x1_0000_0000
    ensures At(sd, at, Put32(mask) + (Put32(objectFlags) + (types + (sid + tail)))) <==>
              && at + 8 <= |sd| && U32(sd, at) == mask && U32(sd, at + 4) == objectFlags
              && At(sd, at + 8, types) && At(sd, at + 8 + |types|, sid) && At(sd, at + 8 + |types| + |sid|, tail)
  {
    AtSplit(sd, at, Put32(mask), Put32(objectFlags) + (types + (sid + tail)));
    AtSplit(sd, at + 4, Put32(objectFlags), types + (sid + tail));
    AtSplit(sd, at + 8, types, sid + tail);
    AtSplit(sd, at + 8 + |types|, sid, tail);
    U32Iff(sd, at, mask);
    U32Iff(sd, at + 4, objectFlags);
  }

  lemma PlainForward(sd: seq<Byte>, at: nat, aclEnd: nat, a: AceSpec)
    requires Valid(a) && a.Plain? && At(sd, at, Put(a)) && at + |Put(a)| <= aclEnd <= |sd|
    ensures Yields(sd, at, aclEnd, Meaning(a), at + |Put(a)|)
  {
    hide At;
    PutIff(sd, at, a);
    PlainIff(sd, at + 4, a.mask, a.sid, a.tail);
    SidForward(sd, at + 8, at + |Put(a)|, a.sid);
  }

  lemma ObjectReads(sd: seq<Byte>, at: nat, end: nat, a: AceSpec)
    requires Valid(a) && a.Object? && end == at + |Put(a)| <= |sd|
    requires U32(sd, at + 4) == a.mask && U32(sd, at + 8) == a.objectFlags
    requires At(sd, at + 12, a.types) && At(sd, at + 12 + |a.types|, a.sid)
    ensures ObjectAt(sd, at, end, Kind(a), a.flags) == Ok(Meaning(a).value)
  {
    hide At;
    AtSlice(sd, at + 12, a.types);
    if HasObjectType(a.objectFlags) {
      assert sd[at + 12..at + 28] == sd[at + 12..at + 12 + |a.types|][..16];
    }
    SidForward(sd, at + 12 + |a.types|, end, a.sid);
  }

  /** Where the parts of a stored object entry stand. */
  lemma ObjectStands(sd: seq<Byte>, at: nat, a: AceSpec)
    requires Valid(a) && a.Object? && At(sd, at, Put(a)) && at + |Put(a)| <= |sd|
    ensures sd[at] == Kind(a) && sd[at + 1] == a.flags && U16(sd, at + 2) == |Put(a)| && |Put(a)| >= 12
    ensures U32(sd, at + 4) == a.mask && U32(sd, at + 8) == a.objectFlags
    ensures At(sd, at + 12, a.types) && At(sd, at + 12 + |a.types|, a.sid)
  {
    hide At, Put, Kind, U16, U32, Put32;
    PutIff(sd, at, a);
    ObjectIff(sd, at + 4, a.mask, a.objectFlags, a.types, a.sid, a.tail);
  }

  lemma ObjectYields(sd: seq<Byte>, at: nat, aclEnd: nat, a: AceSpec)
    requires Valid(a) && a.Object? && at + |Put(a)| <= aclEnd <= |sd| && |Put(a)| >= 12
    requires sd[at] == Kind(a) && sd[at + 1] == a.flags && U16(sd, at + 2) == |Put(a)|
    requires ObjectAt(sd, at, at + |Put(a)|, Kind(a), a.flags) == Ok(Meaning(a).value)
    ensures Yields(sd, at, aclEnd, Meaning(a), at + |Put(a)|)
  {
    hide ObjectAt, PlainAt, Put, Valid, U16;
  }

  lemma ObjectForward(sd: seq<Byte>, at: nat, aclEnd: nat, a: AceSpec)
    requires Valid(a) && a.Object? && At(sd, at, Put(a)) && at + |Put(a)| <= aclEnd <= |sd|
    ensures Yields(sd, at, aclEnd, Meaning(a), at + |Put(a)|)
  {
    hide *;
    ObjectStands(sd, at, a);
    ObjectReads(sd, at, at + |Put(a)|, a);
    ObjectYields(sd, at, aclEnd, a);
  }

  /** An encoded entry is read back, and the parser stops right behind it. */
  lemma AceForward(sd: seq<Byte>, at: nat, aclEnd: nat, a: AceSpec, end: nat)
    requires Valid(a) && At(sd, at, Put(a)) && end == at + |Put(a)| <= aclEnd <= |sd|
    ensures Yields(sd, at, aclEnd, Meaning(a), end)
  {
    match a
    case Plain(_, _, _, _, _) => PlainForward(sd, at, aclEnd, a);
    case Object(_, _, _, _, _, _, _) => ObjectForward(sd, at, aclEnd, a);
    case Ignored(_, _, _) => PutIff(sd, at, a);
  }

  lemma SidBackward(sd: seq<Byte>, at: nat, end: nat)
    requires end <= |sd| && SidAt(sd, at, end).Ok?
    ensures var sid := SidAt(sd, at, end).value;
            ValidSid(sid) && at + |sid| <= end && At(sd, at, sid)
  {
    AtSlice(sd, at, SidAt(sd, at, end).value);
  }

  /** The parts of an accepted plain entry. */
  lemma PlainParts(sd: seq<Byte>, at: nat, end: nat, kind: Byte, flags: Byte) returns (sid: seq<Byte>, tail: seq<Byte>)
    requires at + 8 <= end <= |sd| && PlainAt(sd, at, end, kind, flags).Ok?
    ensures ValidSid(sid) && at + 8 + |sid| + |tail| == end
    ensures At(sd, at + 8, sid) && At(sd, at + 8 + |sid|, tail)
    ensures PlainAt(sd, at, end, kind, flags).value
         == RawAce(kind == 0x00, sid, CoversAll(U32(sd, at + 4)), InheritOnly(flags))
  {
    hide At, U32, CoversAll, InheritOnly;
    SidBackward(sd, at + 8, end);
    sid := SidAt(sd, at + 8, end).value;
    tail := sd[at + 8 + |sid|..end];
    SliceAt(sd, at + 8 + |sid|, end);
  }

  /** A plain entry of these parts. */
  lemma PlainIs(allow: bool, flags: Byte, mask: nat, sid: seq<Byte>, tail: seq<Byte>)
    requires mask < 0x1_0000_0000 && ValidSid(sid) && 8 + |sid| + |tail| < 0x1_0000
    ensures var a := Plain(allow, flags, mask, sid, tail);
      && Valid(a) && Kind(a) == (if allow then 0x00 else 0x01) && a.flags == flags
      && Body(a) == Put32(mask) + (sid + tail) && |Put(a)| == 8 + |sid| + |tail|
      && Meaning(a) == Some(RawAce(allow, sid, CoversAll(mask), InheritOnly(flags)))
  {
    hide ValidSid, CoversAll, InheritOnly;
  }

  lemma PlainBackward(sd: seq<Byte>, at: nat, end: nat) returns (a: AceSpec)
    requires at + 8 <= end <= |sd| && end == at + U16(sd, at + 2) && IsPlain(sd[at])
    requires PlainAt(sd, at, end, sd[at], sd[at + 1]).Ok?
    ensures Valid(a) && At(sd, at, Put(a)) && end == at + |Put(a)|
    ensures Meaning(a) == Some(PlainAt(sd, at, end, sd[at], sd[at + 1]).value)
  {
    assert sd[at] == 0x00 || sd[at] == 0x01;
    hide *;
    var sid, tail := PlainParts(sd, at, end, sd[at], sd[at + 1]);
    var mask := U32(sd, at + 4);
    a := Plain(sd[at] == 0x00, sd[at + 1], mask, sid, tail);
    PlainIs(sd[at] == 0x00, sd[at + 1], mask, sid, tail);
    PlainIff(sd, at + 4, mask, sid, tail);
    PutIff(sd, at, a);
  }

  lemma ObjectSid(sd: seq<Byte>, at: nat, end: nat, kind: Byte, flags: Byte)
    requires at + 8 <= end <= |sd| && ObjectAt(sd, at, end, kind, flags).Ok?
    ensures at + 12 <= |sd| && SidAt(sd, at + 12 + TypesLength(U32(sd, at + 8)), end).Ok?
  {
  }

  /** The parts of an accepted object entry. */
  lemma ObjectParts(sd: seq<Byte>, at: nat, end: nat, kind: Byte, flags: Byte)
    returns (types: seq<Byte>, sid: seq<Byte>, tail: seq<Byte>)
    requires at + 8 <= end <= |sd| && ObjectAt(sd, at, end, kind, flags).Ok?
    ensures at + 12 <= |sd| && |types| == TypesLength(U32(sd, at + 8)) && ValidSid(sid)
    ensures at + 12 + |types| + |sid| + |tail| == end
    ensures At(sd, at + 12, types) && At(sd, at + 12 + |types|, sid) && At(sd, at + 12 + |types| + |sid|, tail)
  {
    hide At;
    ObjectSid(sd, at, end, kind, flags);
    var sidAt := at + 12 + TypesLength(U32(sd, at + 8));
    SidBackward(sd, sidAt, end);
    sid := SidAt(sd, sidAt, end).value;
    types, tail := sd[at + 12..sidAt], sd[sidAt + |sid|..end];
    SliceAt(sd, at + 12, sidAt);
    SliceAt(sd, sidAt + |sid|, end);
  }

  /** An object entry of these parts. */
  lemma ObjectIs(allow: bool, flags: Byte, mask: nat, objectFlags: nat, types: seq<Byte>, sid: seq<Byte>, tail: seq<Byte>)
    requires mask < 0x1_0000_0000 && objectFlags < 0x1_0000_0000 && ValidSid(sid)
    requires |types| == TypesLength(objectFlags) && 12 + |types| + |sid| + |tail| < 0x1_0000
    ensures var a := Object(allow, flags, mask, objectFlags, types, sid, tail);
      && Valid(a) && Kind(a) == (if allow then 0x05 else 0x06) && Meaning(a).Some?
      && Body(a) == Put32(mask) + (Put32(objectFlags) + (types + (sid + tail)))
      && |Put(a)| == 12 + |types| + |sid| + |tail|
  {
    hide ValidSid, CoversAll, InheritOnly, Put32;
  }

  lemma ObjectKind(sd: seq<Byte>, at: nat)
    requires at < |sd| && IsObject(sd[at])
    ensures sd[at] == 0x05 || sd[at] == 0x06
  {
  }

  lemma ObjectBackward(sd: seq<Byte>, at: nat, end: nat) returns (a: AceSpec)
    requires at + 8 <= end <= |sd| && end == at + U16(sd, at + 2) && IsObject(sd[at])
    requires ObjectAt(sd, at, end, sd[at], sd[at + 1]).Ok?
    ensures Valid(a) && At(sd, at, Put(a)) && end == at + |Put(a)|
    ensures Meaning(a) == Some(ObjectAt(sd, at, end, sd[at], sd[at + 1]).value)
  {
    hide *;
    ObjectKind(sd, at);
    var types, sid, tail := ObjectParts(sd, at, end, sd[at], sd[at + 1]);
    var mask, objectFlags := U32(sd, at + 4), U32(sd, at + 8);
    a := Object(sd[at] == 0x05, sd[at + 1], mask, objectFlags, types, sid, tail);
    ObjectIs(sd[at] == 0x05, sd[at + 1], mask, objectFlags, types, sid, tail);
    ObjectReads(sd, at, end, a);
    ObjectIff(sd, at + 4, mask, objectFlags, types, sid, tail);
    PutIff(sd, at, a);
  }

  /** Whatever the parser accepts as an entry is an encoded entry that lies
      inside the list. */
  lemma AceBackward(sd: seq<Byte>, at: nat, aclEnd: nat) returns (a: AceSpec)
    requires aclEnd <= |sd| && AceAt(sd, at, aclEnd).Ok?
    ensures Valid(a) && At(sd, at, Put(a)) && at + |Put(a)| <= aclEnd
    ensures Yields(sd, at, aclEnd, Meaning(a), at + |Put(a)|)
  {
    hide At;
    var end := at + U16(sd, at + 2);
    if IsPlain(sd[at]) {
      a := PlainBackward(sd, at, end);
    } else if IsObject(sd[at]) {
      a := ObjectBackward(sd, at, end);
    } else {
      a := Ignored(sd[at], sd[at + 1], sd[at + 4..end]);
      AtSlice(sd, at + 4, sd[at + 4..end]);
      PutIff(sd, at, a);
    }
  }

  // ---------- Lists ----------

  ghost predicate YieldAll(sd: seq<Byte>, at: nat, aclEnd: nat, n: nat, aces: seq<RawAce>, end: nat) {
    at <= aclEnd <= |sd| && var r := AcesAt(sd, at, aclEnd, n);
    r.Ok? && r.value.aces == aces && r.value.end == end
  }

  lemma OneMore(sd: seq<Byte>, start: nat, aclEnd: nat, n: nat, aces: seq<RawAce>, at: nat, ace: Option<RawAce>, end: nat)
    requires YieldAll(sd, start, aclEnd, n, aces, at) && Yields(sd, at, aclEnd, ace, end)
    ensures YieldAll(sd, start, aclEnd, n + 1, aces + (if ace.Some? then [ace.value] else []), end)
  {
  }

  lemma PutAllPush(init: seq<AceSpec>, a: AceSpec)
    requires ValidList(init) && Valid(a)
    ensures ValidList(init + [a]) && PutAll(init + [a]) == PutAll(init) + Put(a)
  {
    assert (init + [a])[..|init|] == init;
  }

  lemma MeaningsPush(init: seq<AceSpec>, a: AceSpec)
    requires ValidList(init) && Valid(a)
    ensures ValidList(init + [a])
    ensures Meanings(init + [a]) == Meanings(init) + if Meaning(a).Some? then [Meaning(a).value] else []
  {
    assert (init + [a])[..|init|] == init;
  }

  lemma LastStands(sd: seq<Byte>, start: nat, init: seq<AceSpec>, a: AceSpec)
    requires ValidList(init) && Valid(a) && ValidList(init + [a])
    requires At(sd, start, PutAll(init + [a]))
    ensures At(sd, start, PutAll(init)) && At(sd, start + |PutAll(init)|, Put(a))
    ensures |PutAll(init + [a])| == |PutAll(init)| + |Put(a)|
  {
    hide *;
    PutAllPush(init, a);
    AtSplit(sd, start, PutAll(init), Put(a));
  }

  lemma LastIsRead(sd: seq<Byte>, start: nat, aclEnd: nat, init: seq<AceSpec>, a: AceSpec)
    requires ValidList(init) && Valid(a) && ValidList(init + [a])
    requires At(sd, start, PutAll(init + [a])) && start + |PutAll(init + [a])| <= aclEnd <= |sd|
    ensures At(sd, start, PutAll(init)) && start + |PutAll(init)| <= aclEnd
    ensures Yields(sd, start + |PutAll(init)|, aclEnd, Meaning(a), start + |PutAll(init + [a])|)
  {
    hide *;
    LastStands(sd, start, init, a);
    AceForward(sd, start + |PutAll(init)|, aclEnd, a, start + |PutAll(init + [a])|);
  }

  lemma ListLast(specs: seq<AceSpec>)
    requires ValidList(specs) && specs != []
    ensures ValidList(specs[..|specs| - 1]) && Valid(specs[|specs| - 1])
  {
    hide Valid;
  }

  lemma NoAces(sd: seq<Byte>, start: nat, aclEnd: nat)
    requires start <= aclEnd <= |sd|
    ensures Meanings([]) == [] && PutAll([]) == [] && YieldAll(sd, start, aclEnd, 0, [], start)
  {
    hide Meaning, Put, AceAt;
  }

  lemma {:induction false} AcesForward(sd: seq<Byte>, start: nat, aclEnd: nat, specs: seq<AceSpec>)
    returns (aces: seq<RawAce>, end: nat)
    requires ValidList(specs) && At(sd, start, PutAll(specs)) && start + |PutAll(specs)| <= aclEnd <= |sd|
    ensures aces == Meanings(specs) && end == start + |PutAll(specs)|
    ensures YieldAll(sd, start, aclEnd, |specs|, aces, end)
  {
    hide *;
    if specs == [] {
      NoAces(sd, start, aclEnd);
      aces, end := [], start;
    } else {
      var init, last := specs[..|specs| - 1], specs[|specs| - 1];
      assert specs == init + [last];
      ListLast(specs);
      LastIsRead(sd, start, aclEnd, init, last);
      var aces0, at := AcesForward(sd, start, aclEnd, init);
      MeaningsPush(init, last);
      aces, end := aces0 + (if Meaning(last).Some? then [Meaning(last).value] else []), start + |PutAll(specs)|;
      OneMore(sd, start, aclEnd, |init|, aces0, at, Meaning(last), end);
    }
  }

  lemma SplitLast(sd: seq<Byte>, start: nat, aclEnd: nat, count: nat)
    returns (aces: seq<RawAce>, at: nat, ace: Option<RawAce>, end: nat)
    requires start <= aclEnd <= |sd| && count > 0 && AcesAt(sd, start, aclEnd, count).Ok?
    ensures YieldAll(sd, start, aclEnd, count - 1, aces, at) && Yields(sd, at, aclEnd, ace, end)
    ensures YieldAll(sd, start, aclEnd, count, aces + (if ace.Some? then [ace.value] else []), end)
  {
    var earlier := AcesAt(sd, start, aclEnd, count - 1).value;
    var last := AceAt(sd, earlier.end, aclEnd).value;
    aces, at, ace, end := earlier.aces, earlier.end, last.ace, last.end;
  }

  lemma PushBackward(sd: seq<Byte>, start: nat, init: seq<AceSpec>, a: AceSpec)
    requires ValidList(init) && At(sd, start, PutAll(init))
    requires Valid(a) && At(sd, start + |PutAll(init)|, Put(a))
    ensures ValidList(init + [a]) && At(sd, start, PutAll(init + [a]))
    ensures |PutAll(init + [a])| == |PutAll(init)| + |Put(a)|
  {
    hide *;
    PutAllPush(init, a);
    AtSplit(sd, start, PutAll(init), Put(a));
  }

  lemma {:induction false} AcesBackward(sd: seq<Byte>, start: nat, aclEnd: nat, count: nat)
    returns (specs: seq<AceSpec>, aces: seq<RawAce>, end: nat)
    requires start <= aclEnd <= |sd| && AcesAt(sd, start, aclEnd, count).Ok?
    ensures |specs| == count && ValidList(specs) && At(sd, start, PutAll(specs))
    ensures aces == Meanings(specs) && end == start + |PutAll(specs)| <= aclEnd
    ensures YieldAll(sd, start, aclEnd, count, aces, end)
  {
    if count == 0 {
      specs, aces, end := [], [], start;
    } else {
      hide *;
      var aces0, at, ace, last := SplitLast(sd, start, aclEnd, count);
      var init, aces1, end1 := AcesBackward(sd, start, aclEnd, count - 1);
      var a := AceBackward(sd, at, aclEnd);
      PushBackward(sd, start, init, a);
      MeaningsPush(init, a);
      specs, aces, end := init + [a], aces0 + (if ace.Some? then [ace.value] else []), last;
    }
  }

  // ---------- Main results ----------

  /** The descriptor is self-relative and has a list at a non-zero offset. */
  ghost predicate HasDacl(sd: seq<Byte>) {
    |sd| >= 20 && SelfRelative(U16(sd, 2)) && DaclPresent(U16(sd, 2)) && U32(sd, 16) != 0
  }

  /** The encoded entries stand in the list, which lies in the descriptor. */
  ghost predicate Stores(sd: seq<Byte>, specs: seq<AceSpec>) {
    && HasDacl(sd) && ValidList(specs)
    && var at := U32(sd, 16);
    && at + 8 <= |sd| && U16(sd, at + 4) == |specs|
    && at + 8 + |PutAll(specs)| <= at + U16(sd, at + 2) <= |sd|
    && At(sd, at + 8, PutAll(specs))
  }

  /** Stored entries are read back in stored order. */
  lemma StoredIsParsed(sd: seq<Byte>, specs: seq<AceSpec>)
    requires Stores(sd, specs)
    ensures ParseDacl(sd) == Ok(Some(Texts(Meanings(specs))))
  {
    hide At, PutAll, Meanings;
    var at := U32(sd, 16);
    var aces, end := AcesForward(sd, at + 8, at + U16(sd, at + 2), specs);
  }

  /** Every accepted list consists of encoded entries, all of whose fields lie
      inside the list. */
  lemma ParsedIsStored(sd: seq<Byte>) returns (specs: seq<AceSpec>)
    requires ParseDacl(sd).Ok? && ParseDacl(sd).value.Some?
    ensures Stores(sd, specs)
    ensures ParseDacl(sd).value.value == Texts(Meanings(specs))
  {
    hide At, PutAll, Meanings, AceAt, Texts, SelfRelative, DaclPresent, Valid;
    var at := U32(sd, 16);
    var aces, end;
    specs, aces, end := AcesBackward(sd, at + 8, at + U16(sd, at + 2), U16(sd, at + 4));
  }

  /** A list is accepted exactly when it consists of encoded entries, and there
      is none exactly when the descriptor is self-relative without one. */
  lemma AcceptedIffStored(sd: seq<Byte>)
    ensures ParseDacl(sd).Ok? && ParseDacl(sd).value.Some? <==> exists specs :: Stores(sd, specs)
    ensures ParseDacl(sd) == Ok(None) <==>
              |sd| >= 20 && SelfRelative(U16(sd, 2)) && !(DaclPresent(U16(sd, 2)) && U32(sd, 16) != 0)
  {
    hide Stores;
    if ParseDacl(sd).Ok? && ParseDacl(sd).value.Some? {
      var specs := ParsedIsStored(sd);
    }
    forall specs | Stores(sd, specs) ensures ParseDacl(sd).Ok? && ParseDacl(sd).value.Some? {
      StoredIsParsed(sd, specs);
    }
  }

  function AclEnd(sd: seq<Byte>): nat
    requires |sd| >= 20 && U32(sd, 16) + 4 <= |sd|
  {
    U32(sd, 16) + U16(sd, U32(sd, 16) + 2)
  }

  lemma SamePrefix(sd: seq<Byte>, n: nat, at: nat)
    requires n <= |sd|
    ensures at + 2 <= n ==> U16(sd[..n], at) == U16(sd, at)
    ensures at + 4 <= n ==> U32(sd[..n], at) == U32(sd, at)
  {
  }

  lemma StoredInPrefix(sd: seq<Byte>, specs: seq<AceSpec>, n: nat)
    requires Stores(sd, specs) && 20 <= n <= |sd| && AclEnd(sd) <= n
    ensures Stores(sd[..n], specs)
  {
    var at := U32(sd, 16);
    SamePrefix(sd, n, 2);
    SamePrefix(sd, n, 16);
    SamePrefix(sd, n, at + 2);
    SamePrefix(sd, n, at + 4);
    AtPrefix(sd, n, at + 8, PutAll(specs));
  }

  /** Bytes behind the list do not matter, and a descriptor cut inside the
      list or its own header is rejected. */
  lemma Truncation(sd: seq<Byte>, n: nat)
    requires ParseDacl(sd).Ok? && ParseDacl(sd).value.Some? && n <= |sd|
    ensures U32(sd, 16) + 4 <= |sd|
    ensures 20 <= n && AclEnd(sd) <= n ==> ParseDacl(sd[..n]) == ParseDacl(sd)
    ensures !(20 <= n && AclEnd(sd) <= n) ==> ParseDacl(sd[..n]).Err?
  {
    var specs := ParsedIsStored(sd);
    if 20 <= n && AclEnd(sd) <= n {
      StoredInPrefix(sd, specs, n);
      StoredIsParsed(sd, specs);
      StoredIsParsed(sd[..n], specs);
    } else if 20 <= n {
      var at := U32(sd, 16);
      SamePrefix(sd, n, 2);
      SamePrefix(sd, n, 16);
      SamePrefix(sd, n, at + 2);
    }
  }

  /** A complete descriptor around a list of entries: any owner, group and
      audit list offsets, any bytes before and behind the list. */
  function Encode(head: seq<Byte>, control: nat, offsets: seq<Byte>, gap: seq<Byte>, aclHead: seq<Byte>,
                  specs: seq<AceSpec>, slack: seq<Byte>, rest: seq<Byte>): seq<Byte>
    requires |head| == 2 && control < 0x1_0000 && |offsets| == 12 && 20 + |gap| < 0x1_0000_0000
    requires |aclHead| == 4 && ValidList(specs) && |specs| < 0x1_0000 && 8 + |PutAll(specs)| + |slack| < 0x1_0000
  {
    head + (Put16(control) + (offsets + (Put32(20 + |gap|) + (gap +
      (aclHead[..2] + (Put16(8 + |PutAll(specs)| + |slack|) + (Put16(|specs|) + (aclHead[2..] +
        (PutAll(specs) + (slack + rest))))))))))
  }

  /** Round trip: parsing such a descriptor returns exactly its entries. */
  lemma ParseEncode(head: seq<Byte>, control: nat, offsets: seq<Byte>, gap: seq<Byte>, aclHead: seq<Byte>,
                    specs: seq<AceSpec>, slack: seq<Byte>, rest: seq<Byte>)
    requires |head| == 2 && control < 0x1_0000 && |offsets| == 12 && 20 + |gap| < 0x1_0000_0000
    requires |aclHead| == 4 && ValidList(specs) && |specs| < 0x1_0000 && 8 + |PutAll(specs)| + |slack| < 0x1_0000
    requires SelfRelative(control) && DaclPresent(control)
    ensures ParseDacl(Encode(head, control, offsets, gap, aclHead, specs, slack, rest)) == Ok(Some(Texts(Meanings(specs))))
  {
    hide At, PutAll, Meanings;
    var sd := Encode(head, control, offsets, gap, aclHead, specs, slack, rest);
    var size := 8 + |PutAll(specs)| + |slack|;
    var s4 := aclHead[..2] + (Put16(size) + (Put16(|specs|) + (aclHead[2..] + (PutAll(specs) + (slack + rest)))));
    var s3 := gap + s4;
    var s2 := Put32(20 + |gap|) + s3;
    var s1 := offsets + s2;
    AtSlice(sd, 0, sd);
    Peel(sd, 0, head, Put16(control) + s1);
    Peel16(sd, 2, control, s1);
    Peel(sd, 4, offsets, s2);
    Peel(sd, 16, Put32(20 + |gap|), s3);
    U32Iff(sd, 16, 20 + |gap|);
    Peel(sd, 20, gap, s4);
    ListStands(sd, 20 + |gap|, aclHead, size, specs, slack, rest);
    StoredIsParsed(sd, specs);
  }

  lemma Peel16(sd: seq<Byte>, at: nat, v: nat, rest: seq<Byte>)
    requires v < 0x1_0000 && At(sd, at, Put16(v) + rest)
    ensures at + 2 <= |sd| && U16(sd, at) == v && At(sd, at + 2, rest)
  {
    hide At, Put16;
    AtSplit(sd, at, Put16(v), rest);
    U16Iff(sd, at, v);
  }

  lemma Peel(sd: seq<Byte>, at: nat, first: seq<Byte>, rest: seq<Byte>)
    requires At(sd, at, first + rest)
    ensures At(sd, at, first) && At(sd, at + |first|, rest) && at + |first| + |rest| <= |sd|
  {
    hide At;
    AtSplit(sd, at, first, rest);
    AtSlice(sd, at + |first|, rest);
  }

  lemma ListStands(sd: seq<Byte>, at: nat, aclHead: seq<Byte>, size: nat, specs: seq<AceSpec>, slack: seq<Byte>, rest: seq<Byte>)
    requires |aclHead| == 4 && ValidList(specs) && |specs| < 0x1_0000
    requires size == 8 + |PutAll(specs)| + |slack| < 0x1_0000
    requires At(sd, at, aclHead[..2] + (Put16(size) + (Put16(|specs|) + (aclHead[2..] + (PutAll(specs) + (slack + rest))))))
    ensures at + size <= |sd| && U16(sd, at + 2) == size && U16(sd, at + 4) == |specs|
    ensures At(sd, at + 8, PutAll(specs))
  {
    hide At, PutAll;
    var s4 := slack + rest;
    var s3 := PutAll(specs) + s4;
    var s2 := aclHead[2..] + s3;
    var s1 := Put16(|specs|) + s2;
    Peel(sd, at, aclHead[..2], Put16(size) + s1);
    Peel16(sd, at + 2, size, s1);
    Peel16(sd, at + 4, |specs|, s2);
    Peel(sd, at + 6, aclHead[2..], s3);
    Peel(sd, at + 8, PutAll(specs), s4);
  }
}
