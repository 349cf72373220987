/** The parser for `msDS-TrustForestTrustInfo` (section 6.1.6.9.3 of MS-ADTS):
    a reader object over the value and the record loop, proved against a
    position-passing specification. */
module ForestTrustInfo {
  import opened Wrappers
  import opened Bytes
  import SidUtil

  datatype ParseError =
    | Truncated
    | UnsupportedVersion
    | TooManyRecords
    | NameLength
    | NameNotUtf8
    | NameControlCharacter
    | SidLength
    | SidCount
    | UnknownWithoutLength
    | LengthShorterThanHeader
    | LengthMismatch
    | TrailingBytes

  const MAX_RECORDS: nat := 10_000
  const MAX_NAME_LEN: nat := 255
  const MAX_SID_LEN: nat := 68

  /** A domain record. Names are kept as their UTF-8 bytes. */
  datatype Domain = Domain(dnsName: seq<Byte>, netbiosName: seq<Byte>, sid: string, flags: nat)

  /** A domain record with its SID still in binary form. */
  datatype RawDomain = RawDomain(sid: seq<Byte>, dns: seq<Byte>, netbios: seq<Byte>, flags: nat)

  // ---------- Names ----------

  predicate Continues(b: seq<Byte>, i: nat) {
    i < |b| && 0x80 <= b[i] <= 0xBF
  }

  predicate Utf8From(b: seq<Byte>, i: nat)
    decreases |b| - i
  {
    if i >= |b| then true
    else if b[i] < 0x80 then Utf8From(b, i + 1)
    else if 0xC2 <= b[i] <= 0xDF then Continues(b, i + 1) && Utf8From(b, i + 2)
    else if 0xE0 <= b[i] <= 0xEF then
      && Continues(b, i + 1) && Continues(b, i + 2)
      && (b[i] == 0xE0 ==> b[i + 1] >= 0xA0) && (b[i] == 0xED ==> b[i + 1] <= 0x9F)
      && Utf8From(b, i + 3)
    else if 0xF0 <= b[i] <= 0xF4 then
      && Continues(b, i + 1) && Continues(b, i + 2) && Continues(b, i + 3)
      && (b[i] == 0xF0 ==> b[i + 1] >= 0x90) && (b[i] == 0xF4 ==> b[i + 1] <= 0x8F)
      && Utf8From(b, i + 4)
    else false
  }

  /** Well-formed UTF-8 (section 4 of RFC 3629). */
  predicate IsUtf8(b: seq<Byte>) {
    Utf8From(b, 0)
  }

  predicate ControlFrom(b: seq<Byte>, i: nat)
    decreases |b| - i
  {
    i < |b| &&
    (|| b[i] < 0x20 || b[i] == 0x7F
     || (b[i] == 0xC2 && i + 1 < |b| && 0x80 <= b[i + 1] <= 0x9F)
     || ControlFrom(b, i + 1))
  }

  /** A control character in well-formed UTF-8: U+0000 to U+001F, U+007F to U+009F. */
  predicate HasControl(b: seq<Byte>) {
    ControlFrom(b, 0)
  }

  predicate ValidSid(b: seq<Byte>) {
    8 <= |b| <= MAX_SID_LEN && 8 + 4 * b[1] as int == |b|
  }

  /** The two kinds of length-prefixed fields. */
  datatype Field = SidField | NameField

  predicate LengthAllowed(f: Field, n: nat) {
    match f
    case SidField => 8 <= n <= MAX_SID_LEN
    case NameField => 1 <= n <= MAX_NAME_LEN
  }

  /** What is wrong with the bytes of a field of allowed length. */
  function Defect(f: Field, b: seq<Byte>): Option<ParseError>
    requires LengthAllowed(f, |b|)
  {
    match f
    case SidField => if 8 + 4 * b[1] as int == |b| then None else Some(SidCount)
    case NameField =>
      if !IsUtf8(b) then Some(NameNotUtf8)
      else if HasControl(b) then Some(NameControlCharacter)
      else None
  }

  predicate ValidField(f: Field, b: seq<Byte>) {
    LengthAllowed(f, |b|) && Defect(f, b).None?
  }

  /** The fields of a known record type. */
  function FieldsOf(kind: Byte): seq<Field> {
    if kind == 2 then [SidField, NameField, NameField] else [NameField]
  }

  // ---------- Specification of the reads ----------

  datatype Read<+T> = Read(value: T, pos: nat)

  function TakeAt(data: seq<Byte>, pos: nat, n: nat): (r: Result<Read<seq<Byte>>, ParseError>)
    ensures r.Ok? ==> r.value.pos <= |data| && |r.value.value| == n && r.value.pos == pos + n
  {
    if pos + n <= |data| then Ok(Read(data[pos..pos + n], pos + n)) else Err(Truncated)
  }

  function U32At(data: seq<Byte>, pos: nat): (r: Result<Read<nat>, ParseError>)
    ensures r.Ok? ==> r.value.pos <= |data| && r.value.value < 0x1_0000_0000
  {
    if pos + 4 <= |data| then Ok(Read(U32(data, pos), pos + 4)) else Err(Truncated)
  }

  function FieldAt(data: seq<Byte>, pos: nat, f: Field): (r: Result<Read<seq<Byte>>, ParseError>)
    ensures r.Ok? ==> r.value.pos <= |data| && ValidField(f, r.value.value)
  {
    if pos + 4 > |data| then Err(Truncated)
    else
      var n := U32(data, pos);
      if !LengthAllowed(f, n) then Err(if f.SidField? then SidLength else NameLength)
      else if pos + 4 + n > |data| then Err(Truncated)
      else
        var b := data[pos + 4..pos + 4 + n];
        if Defect(f, b).Some? then Err(Defect(f, b).value) else Ok(Read(b, pos + 4 + n))
  }

  function FieldsAt(data: seq<Byte>, pos: nat, fs: seq<Field>): (r: Result<Read<seq<seq<Byte>>>, ParseError>)
    requires pos <= |data|
    ensures r.Ok? ==> r.value.pos <= |data| && |r.value.value| == |fs|
    ensures r.Ok? ==> forall i :: 0 <= i < |fs| ==> ValidField(fs[i], r.value.value[i])
    decreases |fs|
  {
    if fs == [] then Ok(Read([], pos))
    else
      var first :- FieldAt(data, pos, fs[0]);
      var rest :- FieldsAt(data, first.pos, fs[1..]);
      Ok(Read([first.value] + rest.value, rest.pos))
  }

  /** The data of an unknown record: skipped by its stated length only. */
  function SkipAt(data: seq<Byte>, pos: nat, len: nat, read: nat): (r: Result<Read<seq<Byte>>, ParseError>)
    ensures r.Ok? ==> r.value.pos <= |data|
  {
    if len == 0 then Err(UnknownWithoutLength)
    else if len < read then Err(LengthShorterThanHeader)
    else TakeAt(data, pos, len - read)
  }

  /** The fields of a known record; only a domain record has a result. */
  function DomainOf(kind: Byte, flags: nat, fields: seq<seq<Byte>>): Option<RawDomain> {
    if kind == 2 && |fields| == 3 then Some(RawDomain(fields[0], fields[1], fields[2], flags)) else None
  }

  /** The part of a record after its header, by record type. */
  function PayloadAt(data: seq<Byte>, pos: nat, kind: Byte, flags: nat, len: nat, read: nat):
    (r: Result<Read<Option<RawDomain>>, ParseError>)
    requires pos <= |data|
    ensures r.Ok? ==> r.value.pos <= |data| && (r.value.value.Some? ==> ValidSid(r.value.value.value.sid))
  {
    if kind <= 2 then
      var fields :- FieldsAt(data, pos, FieldsOf(kind));
      assert kind == 2 ==> ValidField(FieldsOf(kind)[0], fields.value[0]);
      Ok(Read(DomainOf(kind, flags, fields.value), fields.pos))
    else
      var rest :- SkipAt(data, pos, len, read);
      Ok(Read(None, rest.pos))
  }

  /** A record: length, flags, time stamp and type take 17 bytes. */
  function RecordAt(data: seq<Byte>, pos: nat): (r: Result<Read<Option<RawDomain>>, ParseError>)
    ensures r.Ok? ==> r.value.pos <= |data| && (r.value.value.Some? ==> ValidSid(r.value.value.value.sid))
  {
    if pos + 17 > |data| then Err(Truncated)
    else
      var len := U32(data, pos);
      var payload :- PayloadAt(data, pos + 17, data[pos + 16], U32(data, pos + 4), len, 13);
      if len != 0 && payload.pos - (pos + 4) != len then Err(LengthMismatch) else Ok(payload)
  }

  function RecordsAt(data: seq<Byte>, pos: nat, count: nat): (r: Result<Read<seq<RawDomain>>, ParseError>)
    requires pos <= |data|
    ensures r.Ok? ==> r.value.pos <= |data|
  {
    if count == 0 then Ok(Read([], pos))
    else
      var earlier :- RecordsAt(data, pos, count - 1);
      var last :- RecordAt(data, earlier.pos);
      Ok(Read(earlier.value + if last.value.Some? then [last.value.value] else [], last.pos))
  }

  /** The record with its SID as text; a SID of matching length is always readable. */
  function TextOf(d: RawDomain): Domain {
    var text := SidUtil.SidOfBytes(d.sid);
    Domain(d.dns, d.netbios, if text.Ok? then text.value else "", d.flags)
  }

  function Texts(ds: seq<RawDomain>): seq<Domain> {
    seq(|ds|, i requires 0 <= i < |ds| => TextOf(ds[i]))
  }

  function Parse(data: seq<Byte>): Result<seq<Domain>, ParseError> {
    var version :- U32At(data, 0);
    if version.value != 1 then Err(UnsupportedVersion)
    else
      var count :- U32At(data, version.pos);
      if count.value > MAX_RECORDS then Err(TooManyRecords)
      else
        var records :- RecordsAt(data, count.pos, count.value);
        if records.pos != |data| then Err(TrailingBytes) else Ok(Texts(records.value))
  }

  lemma OneField(data: seq<Byte>, pos: nat)
    requires pos <= |data|
    ensures FieldsAt(data, pos, [NameField]) ==
            match FieldAt(data, pos, NameField) {
              case Err(e) => Err(e)
              case Ok(name) => Ok(Read([name.value], name.pos))
            }
  {
    assert [NameField][1..] == [];
    var name := FieldAt(data, pos, NameField);
    if name.Ok? {
      assert FieldsAt(data, name.value.pos, []) == Ok(Read([], name.value.pos));
      assert [name.value.value] + [] == [name.value.value];
    }
  }

  lemma NextField(data: seq<Byte>, pos: nat, fs: seq<Field>)
    requires pos <= |data| && fs != []
    ensures FieldAt(data, pos, fs[0]).Err? ==> FieldsAt(data, pos, fs) == Err(FieldAt(data, pos, fs[0]).error)
    ensures FieldAt(data, pos, fs[0]).Ok? ==>
              var first := FieldAt(data, pos, fs[0]).value;
              match FieldsAt(data, first.pos, fs[1..])
              case Err(e) => FieldsAt(data, pos, fs) == Err(e)
              case Ok(rest) => FieldsAt(data, pos, fs) == Ok(Read([first.value] + rest.value, rest.pos))
  {
  }

  // ---------- The reader ----------

  /** A position moving over the value. A failed read leaves the object valid;
      its caller stops. */
  class Reader {
    const data: seq<Byte>
    var pos: nat

    ghost predicate Valid()
      reads this
    {
      pos <= |data|
    }

    constructor (data: seq<Byte>)
      ensures Valid() && this.data == data && pos == 0
    {
      this.data := data;
      pos := 0;
    }

    method Take(n: nat) returns (r: Result<seq<Byte>, ParseError>)
      requires Valid()
      modifies this
      ensures Valid()
      ensures r.Err? ==> pos == old(pos)
      ensures Follows(r, TakeAt(data, old(pos), n), pos)
    {
      var end := pos + n;
      if end > |data| {
        return Err(Truncated);
      }
      r := Ok(data[pos..end]);
      pos := end;
    }

    method ReadU32() returns (r: Result<nat, ParseError>)
      requires Valid()
      modifies this
      ensures Valid()
      ensures Follows(r, U32At(data, old(pos)), pos)
    {
      var b :- Take(4);
      r := Ok(U32(b, 0));
    }

    method ReadU8() returns (r: Result<Byte, ParseError>)
      requires Valid()
      modifies this
      ensures Valid()
      ensures match TakeAt(data, old(pos), 1)
              case Err(e) => r == Err(e)
              case Ok(b) => r == Ok(b.value[0]) && pos == b.pos
    {
      var b :- Take(1);
      r := Ok(b[0]);
    }

    method ReadName() returns (r: Result<seq<Byte>, ParseError>)
      requires Valid()
      modifies this
      ensures Valid()
      ensures Follows(r, FieldAt(data, old(pos), NameField), pos)
    {
      var len :- ReadU32();
      if len == 0 || len > MAX_NAME_LEN {
        return Err(NameLength);
      }
      var b :- Take(len);
      if !IsUtf8(b) {
        return Err(NameNotUtf8);
      }
      if HasControl(b) {
        return Err(NameControlCharacter);
      }
      r := Ok(b);
    }

    method ReadSid() returns (r: Result<seq<Byte>, ParseError>)
      requires Valid()
      modifies this
      ensures Valid()
      ensures Follows(r, FieldAt(data, old(pos), SidField), pos)
    {
      var len :- ReadU32();
      if !(8 <= len <= MAX_SID_LEN) {
        return Err(SidLength);
      }
      var sid :- Take(len);
      if 8 + 4 * sid[1] as int != |sid| {
        return Err(SidCount);
      }
      r := Ok(sid);
    }

    method ReadNameRecord() returns (r: Result<seq<seq<Byte>>, ParseError>)
      requires Valid()
      modifies this
      ensures Valid()
      ensures Follows(r, FieldsAt(data, old(pos), [NameField]), pos)
    {
      OneField(data, pos);
      var name :- ReadName();
      r := Ok([name]);
    }

    method ReadTwoNames() returns (r: Result<seq<seq<Byte>>, ParseError>)
      requires Valid()
      modifies this
      ensures Valid()
      ensures Follows(r, FieldsAt(data, old(pos), [NameField, NameField]), pos)
    {
      assert [NameField, NameField][1..] == [NameField];
      NextField(data, pos, [NameField, NameField]);
      var dns :- ReadName();
      OneField(data, pos);
      var netbios :- ReadName();
      r := Ok([dns] + [netbios]);
    }

    method ReadDomainRecord() returns (r: Result<seq<seq<Byte>>, ParseError>)
      requires Valid()
      modifies this
      ensures Valid()
      ensures Follows(r, FieldsAt(data, old(pos), [SidField, NameField, NameField]), pos)
    {
      assert [SidField, NameField, NameField][1..] == [NameField, NameField];
      NextField(data, pos, [SidField, NameField, NameField]);
      var sid :- ReadSid();
      var names :- ReadTwoNames();
      r := Ok([sid] + names);
    }

    method ReadPayload(kind: Byte, flags: nat, len: nat, start: nat) returns (r: Result<Option<RawDomain>, ParseError>)
      requires Valid() && start <= pos
      modifies this
      ensures Valid()
      ensures Follows(r, PayloadAt(data, old(pos), kind, flags, len, old(pos) - start), pos)
    {
      r := Ok(None);
      if kind == 0 || kind == 1 {
        var name :- ReadNameRecord();
      } else if kind == 2 {
        var fields :- ReadDomainRecord();
        r := Ok(Some(RawDomain(fields[0], fields[1], fields[2], flags)));
      } else {
        if len == 0 {
          return Err(UnknownWithoutLength);
        }
        if len < pos - start {
          return Err(LengthShorterThanHeader);
        }
        var rest :- Take(len - (pos - start));
      }
    }

    method ReadRecord() returns (r: Result<Option<RawDomain>, ParseError>)
      requires Valid()
      modifies this
      ensures Valid()
      ensures Follows(r, RecordAt(data, old(pos)), pos)
    {
      var len :- ReadU32();
      var start := pos;
      var flags :- ReadU32();
      var time :- Take(8);
      var kind :- ReadU8();
      hide PayloadAt;
      r := ReadPayload(kind, flags, len, start);
      if r.Err? {
        return;
      }
      if len != 0 && pos - start != len {
        return Err(LengthMismatch);
      }
    }
  }

  /** The object's answer and new position are those of the specification. */
  ghost predicate Follows<T(!new)>(r: Result<T, ParseError>, spec: Result<Read<T>, ParseError>, pos: nat) {
    match spec
    case Err(e) => r == Err(e)
    case Ok(v) => r == Ok(v.value) && pos == v.pos
  }

  /** A failed record fails the whole list. */
  lemma {:induction false} FailureStays(data: seq<Byte>, pos: nat, i: nat, count: nat)
    requires pos <= |data| && i <= count && RecordsAt(data, pos, i).Err?
    ensures RecordsAt(data, pos, count) == RecordsAt(data, pos, i)
  {
    hide RecordAt;
    if i < count {
      FailureStays(data, pos, i, count - 1);
    }
  }

  lemma NextRecord(data: seq<Byte>, pos: nat, i: nat, domains: seq<RawDomain>, at: nat, r: Result<Option<RawDomain>, ParseError>, end: nat)
    requires pos <= |data| && RecordsAt(data, pos, i) == Ok(Read(domains, at))
    requires Follows(r, RecordAt(data, at), end)
    ensures match r
            case Err(e) => RecordsAt(data, pos, i + 1) == Err(e)
            case Ok(None) => RecordsAt(data, pos, i + 1) == Ok(Read(domains, end))
            case Ok(Some(d)) => RecordsAt(data, pos, i + 1) == Ok(Read(domains + [d], end))
  {
    assert domains + [] == domains;
  }

  method ReadRecords(reader: Reader, count: nat) returns (r: Result<seq<Domain>, ParseError>)
    requires reader.Valid()
    modifies reader
    ensures reader.Valid()
    ensures match RecordsAt(reader.data, old(reader.pos), count)
            case Err(e) => r == Err(e)
            case Ok(read) => r == Ok(Texts(read.value)) && reader.pos == read.pos
  {
    hide RecordAt;
    var domains := [];
    ghost var raw := [];
    for i := 0 to count
      invariant reader.Valid()
      invariant RecordsAt(reader.data, old(reader.pos), i) == Ok(Read(raw, reader.pos))
      invariant domains == Texts(raw)
    {
      ghost var at := reader.pos;
      var record := reader.ReadRecord();
      NextRecord(reader.data, old(reader.pos), i, raw, at, record, reader.pos);
      if record.Err? {
        FailureStays(reader.data, old(reader.pos), i + 1, count);
        return Err(record.error);
      }
      if record.value.Some? {
        var d := record.value.value;
        var text := SidUtil.BytesToSidStr(d.sid);
        domains := domains + [Domain(d.dns, d.netbios, text.value, d.flags)];
        raw := raw + [d];
      }
    }
    r := Ok(domains);
  }

  method ParseForestTrustInfo(data: seq<Byte>) returns (r: Result<seq<Domain>, ParseError>)
    ensures r == Parse(data)
  {
    var reader := new Reader(data);
    var version :- reader.ReadU32();
    if version != 1 {
      return Err(UnsupportedVersion);
    }
    var count :- reader.ReadU32();
    if count > MAX_RECORDS {
      return Err(TooManyRecords);
    }
    var domains :- ReadRecords(reader, count);
    if reader.pos != |data| {
      return Err(TrailingBytes);
    }
    r := Ok(domains);
  }
}
