/** The encoder matching the forest-trust parser. The accepted values are
    exactly the encodings of valid record lists; from that follow the round
    trip, exact framing and prefix-freeness. */
module ForestTrustCodec {
  import opened Wrappers
  import opened Bytes
  import opened ForestTrustInfo

  /** A record as the directory holds it: types 0, 1 and 2 are known and
      consist of fields, any other type has arbitrary content. */
  datatype Record = Record(kind: Byte, flags: nat, time: seq<Byte>, fields: seq<seq<Byte>>, content: seq<Byte>)

  /** A record with the choice between stating its length and writing zero. */
  datatype Written = Written(record: Record, stated: bool)

  predicate ValidFields(fs: seq<Field>, fields: seq<seq<Byte>>) {
    |fs| == |fields| && forall i :: 0 <= i < |fs| ==> ValidField(fs[i], fields[i])
  }

  /** Known records may write a zero length; the length of an unknown one is
      the only way to skip it. */
  predicate ValidWritten(w: Written) {
    && w.record.flags < 0x1_0000_0000 && |w.record.time| == 8
    && (if w.record.kind <= 2 then ValidFields(FieldsOf(w.record.kind), w.record.fields) && w.record.content == []
        else w.stated && w.record.fields == [] && 13 + |w.record.content| < 0x1_0000_0000)
  }

  function PutField(b: seq<Byte>): (r: seq<Byte>)
    requires |b| <= MAX_NAME_LEN
    ensures |r| == 4 + |b|
  {
    Put32(|b|) + b
  }

  function PutFields(fs: seq<Field>, fields: seq<seq<Byte>>): (r: seq<Byte>)
    requires ValidFields(fs, fields)
    ensures |r| <= 300 * |fs|
  {
    if fs == [] then []
    else
      assert ValidField(fs[0], fields[0]);
      PutField(fields[0]) + PutFields(fs[1..], fields[1..])
  }

  function PutPayload(w: Written): (r: seq<Byte>)
    requires ValidWritten(w)
    ensures 13 + |r| < 0x1_0000_0000
  {
    if w.record.kind <= 2 then PutFields(FieldsOf(w.record.kind), w.record.fields) else w.record.content
  }

  function Header(w: Written): (b: seq<Byte>)
    requires ValidWritten(w)
    ensures |b| == 13
  {
    Put32(w.record.flags) + w.record.time + [w.record.kind]
  }

  function LengthField(w: Written): (n: nat)
    requires ValidWritten(w)
    ensures n < 0x1_0000_0000
  {
    if w.stated then 13 + |PutPayload(w)| else 0
  }

  function Put(w: Written): seq<Byte>
    requires ValidWritten(w)
  {
    Put32(LengthField(w)) + Header(w) + PutPayload(w)
  }

  predicate ValidList(ws: seq<Written>) {
    forall i :: 0 <= i < |ws| ==> ValidWritten(ws[i])
  }

  function PutAll(ws: seq<Written>): seq<Byte>
    requires ValidList(ws)
  {
    if ws == [] then [] else PutAll(ws[..|ws| - 1]) + Put(ws[|ws| - 1])
  }

  function Encode(ws: seq<Written>): seq<Byte>
    requires ValidList(ws) && |ws| <= MAX_RECORDS
  {
    Put32(1) + Put32(|ws|) + PutAll(ws)
  }

  function ResultOf(r: Record): Option<RawDomain> {
    DomainOf(r.kind, r.flags, r.fields)
  }

  /** The domain records of the list, in order. */
  function DomainsOf(ws: seq<Written>): seq<RawDomain> {
    if ws == [] then []
    else DomainsOf(ws[..|ws| - 1]) + if ResultOf(ws[|ws| - 1].record).Some? then [ResultOf(ws[|ws| - 1].record).value] else []
  }

  lemma TakeIff(data: seq<Byte>, pos: nat, s: seq<Byte>)
    ensures At(data, pos, s) <==> TakeAt(data, pos, |s|) == Ok(Read(s, pos + |s|))
  {
    AtSlice(data, pos, s);
  }

  // ---------- Fields ----------

  lemma FieldIff(data: seq<Byte>, pos: nat, f: Field, b: seq<Byte>)
    requires ValidField(f, b)
    ensures At(data, pos, PutField(b)) <==> FieldAt(data, pos, f) == Ok(Read(b, pos + 4 + |b|))
  {
    hide At;
    AtSplit(data, pos, Put32(|b|), b);
    U32Iff(data, pos, |b|);
    AtSlice(data, pos + 4, b);
  }

  lemma {:induction false} FieldsForward(data: seq<Byte>, pos: nat, fs: seq<Field>, fields: seq<seq<Byte>>)
    requires pos <= |data| && ValidFields(fs, fields) && At(data, pos, PutFields(fs, fields))
    ensures FieldsAt(data, pos, fs) == Ok(Read(fields, pos + |PutFields(fs, fields)|))
    decreases |fs|
  {
    if fs != [] {
      var b := fields[0];
      assert ValidField(fs[0], b);
      AtSplit(data, pos, PutField(b), PutFields(fs[1..], fields[1..]));
      FieldIff(data, pos, fs[0], b);
      FieldsForward(data, pos + 4 + |b|, fs[1..], fields[1..]);
      assert fields == [b] + fields[1..];
    }
  }

  lemma {:induction false} FieldsBackward(data: seq<Byte>, pos: nat, fs: seq<Field>)
    requires pos <= |data| && FieldsAt(data, pos, fs).Ok?
    ensures var r := FieldsAt(data, pos, fs).value;
            ValidFields(fs, r.value) && At(data, pos, PutFields(fs, r.value)) && r.pos == pos + |PutFields(fs, r.value)|
    decreases |fs|
  {
    if fs != [] {
      var first := FieldAt(data, pos, fs[0]).value;
      FieldsBackward(data, first.pos, fs[1..]);
      var rest := FieldsAt(data, first.pos, fs[1..]).value;
      var all := [first.value] + rest.value;
      assert all[1..] == rest.value;
      FieldIff(data, pos, fs[0], first.value);
      AtSplit(data, pos, PutField(first.value), PutFields(fs[1..], rest.value));
    }
  }

  // ---------- One record ----------

  /** The parser reads the record at `at` as `d` and stops at `end`. */
  ghost predicate Yields(data: seq<Byte>, at: nat, d: Option<RawDomain>, end: nat) {
    var r := RecordAt(data, at);
    r.Ok? && r.value.value == d && r.value.pos == end
  }

  /** What the parser makes of the payload of a written record. */
  ghost predicate PayloadRead(data: seq<Byte>, pos: nat, w: Written)
    requires ValidWritten(w) && pos <= |data|
  {
    PayloadAt(data, pos, w.record.kind, w.record.flags, LengthField(w), 13)
    == Ok(Read(ResultOf(w.record), pos + |PutPayload(w)|))
  }

  lemma KnownForward(data: seq<Byte>, pos: nat, w: Written)
    requires ValidWritten(w) && w.record.kind <= 2 && pos <= |data| && At(data, pos, PutPayload(w))
    ensures PayloadRead(data, pos, w)
  {
    hide At, FieldsAt, PutFields, DomainOf, ValidFields;
    FieldsForward(data, pos, FieldsOf(w.record.kind), w.record.fields);
  }

  lemma UnknownForward(data: seq<Byte>, pos: nat, w: Written)
    requires ValidWritten(w) && w.record.kind > 2 && pos <= |data| && At(data, pos, PutPayload(w))
    ensures PayloadRead(data, pos, w)
  {
    hide At, FieldsAt, PutFields, ValidFields, TakeAt;
    TakeIff(data, pos, w.record.content);
  }

  lemma PayloadForward(data: seq<Byte>, pos: nat, w: Written)
    requires ValidWritten(w) && pos <= |data| && At(data, pos, PutPayload(w))
    ensures PayloadRead(data, pos, w)
  {
    if w.record.kind <= 2 {
      KnownForward(data, pos, w);
    } else {
      UnknownForward(data, pos, w);
    }
  }

  /** The payload determines the record; the length field is the true length
      or zero. */
  lemma PayloadBackward(data: seq<Byte>, pos: nat, kind: Byte, flags: nat, time: seq<Byte>, len: nat) returns (w: Written)
    requires flags < 0x1_0000_0000 && len < 0x1_0000_0000 && |time| == 8 && pos <= |data|
    requires PayloadAt(data, pos, kind, flags, len, 13).Ok?
    requires var r := PayloadAt(data, pos, kind, flags, len, 13).value; len != 0 ==> r.pos - pos + 13 == len
    ensures ValidWritten(w) && At(data, pos, PutPayload(w)) && LengthField(w) == len
    ensures w.record.kind == kind && w.record.flags == flags && w.record.time == time
    ensures PayloadAt(data, pos, kind, flags, len, 13).value == Read(ResultOf(w.record), pos + |PutPayload(w)|)
  {
    hide At;
    if kind <= 2 {
      FieldsBackward(data, pos, FieldsOf(kind));
      w := Written(Record(kind, flags, time, FieldsAt(data, pos, FieldsOf(kind)).value.value, []), len != 0);
    } else {
      var content := TakeAt(data, pos, len - 13).value.value;
      TakeIff(data, pos, content);
      w := Written(Record(kind, flags, time, [], content), true);
    }
  }

  /** The header fields of a record at `pos`. */
  ghost predicate HeaderIs(data: seq<Byte>, pos: nat, len: nat, flags: nat, time: seq<Byte>, kind: Byte) {
    && pos + 17 <= |data|
    && U32(data, pos) == len && U32(data, pos + 4) == flags
    && data[pos + 8..pos + 16] == time && data[pos + 16] == kind
  }

  lemma HeaderIff(data: seq<Byte>, pos: nat, len: nat, flags: nat, time: seq<Byte>, kind: Byte)
    requires len < 0x1_0000_0000 && flags < 0x1_0000_0000 && |time| == 8
    ensures At(data, pos, Put32(len) + (Put32(flags) + time + [kind])) <==> HeaderIs(data, pos, len, flags, time, kind)
  {
    AtSplit(data, pos, Put32(len), Put32(flags) + time + [kind]);
    AtSplit(data, pos + 4, Put32(flags) + time, [kind]);
    AtSplit(data, pos + 4, Put32(flags), time);
    U32Iff(data, pos, len);
    U32Iff(data, pos + 4, flags);
    AtSlice(data, pos + 8, time);
    AtSlice(data, pos + 16, [kind]);
  }

  /** A written record is read back, and the reader stops right behind it. */
  lemma RecordForward(data: seq<Byte>, pos: nat, w: Written)
    requires ValidWritten(w) && At(data, pos, Put(w))
    ensures Yields(data, pos, ResultOf(w.record), pos + |Put(w)|)
  {
    hide At;
    AtSplit(data, pos, Put32(LengthField(w)) + Header(w), PutPayload(w));
    HeaderIff(data, pos, LengthField(w), w.record.flags, w.record.time, w.record.kind);
    PayloadForward(data, pos + 17, w);
  }

  /** The record the parser has read, reconstructed from the bytes. */
  ghost predicate ReadFrom(data: seq<Byte>, pos: nat, w: Written, r: Read<Option<RawDomain>>) {
    ValidWritten(w) && At(data, pos, Put(w)) && r.value == ResultOf(w.record) && r.pos == pos + |Put(w)|
  }

  /** Whatever the parser accepts as a record is a written record. */
  lemma RecordBackward(data: seq<Byte>, pos: nat) returns (w: Written)
    requires RecordAt(data, pos).Ok?
    ensures ReadFrom(data, pos, w, RecordAt(data, pos).value)
  {
    hide At, PayloadAt, PutFields, DomainOf;
    var len, flags, time, kind := U32(data, pos), U32(data, pos + 4), data[pos + 8..pos + 16], data[pos + 16];
    HeaderIff(data, pos, len, flags, time, kind);
    w := PayloadBackward(data, pos + 17, kind, flags, time, len);
    AtSplit(data, pos, Put32(LengthField(w)) + Header(w), PutPayload(w));
  }

  // ---------- Record lists ----------

  /** The parser reads `n` records from `pos` as `ds` and stops at `end`. */
  ghost predicate YieldAll(data: seq<Byte>, pos: nat, n: nat, ds: seq<RawDomain>, end: nat) {
    pos <= |data| && var r := RecordsAt(data, pos, n);
    r.Ok? && r.value.value == ds && r.value.pos == end
  }

  lemma OneMore(data: seq<Byte>, pos: nat, n: nat, ds: seq<RawDomain>, at: nat, d: Option<RawDomain>, end: nat)
    requires YieldAll(data, pos, n, ds, at) && Yields(data, at, d, end)
    ensures YieldAll(data, pos, n + 1, ds + (if d.Some? then [d.value] else []), end)
  {
    hide RecordAt;
  }

  lemma PutAllPush(init: seq<Written>, w: Written)
    requires ValidList(init) && ValidWritten(w)
    ensures ValidList(init + [w]) && PutAll(init + [w]) == PutAll(init) + Put(w)
  {
    assert (init + [w])[..|init|] == init;
  }

  lemma DomainsPush(init: seq<Written>, w: Written)
    ensures DomainsOf(init + [w]) == DomainsOf(init) + if ResultOf(w.record).Some? then [ResultOf(w.record).value] else []
  {
    assert (init + [w])[..|init|] == init;
  }

  lemma DomainsUpTo(ws: seq<Written>, n: nat)
    requires 0 < n <= |ws|
    ensures DomainsOf(ws[..n]) == DomainsOf(ws[..n - 1])
              + if ResultOf(ws[n - 1].record).Some? then [ResultOf(ws[n - 1].record).value] else []
  {
    assert ws[..n] == ws[..n - 1] + [ws[n - 1]];
    DomainsPush(ws[..n - 1], ws[n - 1]);
  }

  /** Reading record after record gives the domain records in order. */
  lemma {:induction false} RecordsFollow(data: seq<Byte>, at: seq<nat>, ws: seq<Written>, n: nat)
    requires n <= |ws| && |at| == |ws| + 1 && at[0] <= |data|
    requires forall i :: 0 <= i < n ==> Yields(data, at[i], ResultOf(ws[i].record), at[i + 1])
    ensures YieldAll(data, at[0], n, DomainsOf(ws[..n]), at[n])
  {
    if n == 0 {
      assert ws[..0] == [];
    } else {
      RecordsFollow(data, at, ws, n - 1);
      DomainsUpTo(ws, n);
      OneMore(data, at[0], n - 1, DomainsOf(ws[..n - 1]), at[n - 1], ResultOf(ws[n - 1].record), at[n]);
    }
  }

  function Ends(pos: nat, ws: seq<Written>): (at: seq<nat>)
    requires ValidList(ws)
    ensures |at| == |ws| + 1 && at[0] == pos && at[|ws|] == pos + |PutAll(ws)|
  {
    if ws == [] then [pos]
    else Ends(pos, ws[..|ws| - 1]) + [pos + |PutAll(ws)|]
  }

  lemma LastIsRead(data: seq<Byte>, pos: nat, ws: seq<Written>)
    requires ws != [] && ValidList(ws) && At(data, pos, PutAll(ws))
    ensures var init := ws[..|ws| - 1];
            && At(data, pos, PutAll(init))
            && Yields(data, pos + |PutAll(init)|, ResultOf(ws[|ws| - 1].record), pos + |PutAll(ws)|)
  {
    hide At, Put, RecordAt;
    var init, last := ws[..|ws| - 1], ws[|ws| - 1];
    AtSplit(data, pos, PutAll(init), Put(last));
    RecordForward(data, pos + |PutAll(init)|, last);
  }

  lemma EndsOf(pos: nat, ws: seq<Written>, i: nat)
    requires ws != [] && ValidList(ws) && i < |ws|
    ensures i < |ws| - 1 ==> Ends(pos, ws)[i] == Ends(pos, ws[..|ws| - 1])[i] && Ends(pos, ws)[i + 1] == Ends(pos, ws[..|ws| - 1])[i + 1]
    ensures i == |ws| - 1 ==> Ends(pos, ws)[i] == pos + |PutAll(ws[..|ws| - 1])| && Ends(pos, ws)[i + 1] == pos + |PutAll(ws)|
  {
  }

  lemma {:induction false} EachIsRead(data: seq<Byte>, pos: nat, ws: seq<Written>, i: nat)
    requires i < |ws| && ValidList(ws) && At(data, pos, PutAll(ws))
    ensures Yields(data, Ends(pos, ws)[i], ResultOf(ws[i].record), Ends(pos, ws)[i + 1])
  {
    hide At, PutAll, Yields, Ends;
    LastIsRead(data, pos, ws);
    EndsOf(pos, ws, i);
    if i < |ws| - 1 {
      EachIsRead(data, pos, ws[..|ws| - 1], i);
    }
  }

  lemma RecordsForward(data: seq<Byte>, pos: nat, ws: seq<Written>)
    requires ValidList(ws) && At(data, pos, PutAll(ws))
    ensures YieldAll(data, pos, |ws|, DomainsOf(ws), pos + |PutAll(ws)|)
  {
    hide At, PutAll, DomainsOf, Yields;
    AtSlice(data, pos, PutAll(ws));
    var at := Ends(pos, ws);
    forall i | 0 <= i < |ws| ensures Yields(data, at[i], ResultOf(ws[i].record), at[i + 1]) {
      EachIsRead(data, pos, ws, i);
    }
    assert ws[..|ws|] == ws;
    RecordsFollow(data, at, ws, |ws|);
  }

  lemma SplitLast(data: seq<Byte>, pos: nat, count: nat)
    returns (ds: seq<RawDomain>, at: nat, d: Option<RawDomain>, end: nat)
    requires pos <= |data| && count > 0 && RecordsAt(data, pos, count).Ok?
    ensures YieldAll(data, pos, count - 1, ds, at) && Yields(data, at, d, end)
    ensures YieldAll(data, pos, count, ds + (if d.Some? then [d.value] else []), end)
  {
    var earlier := RecordsAt(data, pos, count - 1).value;
    var last := RecordAt(data, earlier.pos).value;
    ds, at, d, end := earlier.value, earlier.pos, last.value, last.pos;
  }

  lemma PushBackward(data: seq<Byte>, pos: nat, init: seq<Written>, w: Written)
    requires ValidList(init) && At(data, pos, PutAll(init))
    requires ValidWritten(w) && At(data, pos + |PutAll(init)|, Put(w))
    ensures ValidList(init + [w]) && At(data, pos, PutAll(init + [w]))
    ensures |PutAll(init + [w])| == |PutAll(init)| + |Put(w)|
  {
    hide *;
    PutAllPush(init, w);
    AtSplit(data, pos, PutAll(init), Put(w));
  }

  lemma ShorterRead(data: seq<Byte>, pos: nat, count: nat)
    requires pos <= |data| && count > 0 && RecordsAt(data, pos, count).Ok?
    ensures RecordsAt(data, pos, count - 1).Ok?
  {
    hide RecordAt;
  }

  lemma SameRead(data: seq<Byte>, pos: nat, count: nat, a: seq<RawDomain>, end: nat, b: seq<RawDomain>, end': nat)
    requires YieldAll(data, pos, count, a, end) && YieldAll(data, pos, count, b, end')
    ensures a == b && end == end'
  {
    hide RecordsAt;
  }

  lemma RecordRead(data: seq<Byte>, at: nat, d: Option<RawDomain>, end: nat)
    requires Yields(data, at, d, end)
    ensures RecordAt(data, at).Ok? && RecordAt(data, at).value.value == d && RecordAt(data, at).value.pos == end
  {
    hide RecordAt;
  }

  lemma NoRecords(data: seq<Byte>, pos: nat)
    requires pos <= |data|
    ensures ValidList([]) && PutAll([]) == [] && DomainsOf([]) == []
    ensures At(data, pos, []) && YieldAll(data, pos, 0, [], pos)
  {
    hide ValidWritten, RecordAt;
  }

  lemma {:induction false} RecordsBackward(data: seq<Byte>, pos: nat, count: nat)
    returns (ws: seq<Written>, ds: seq<RawDomain>, end: nat)
    requires pos <= |data| && RecordsAt(data, pos, count).Ok?
    ensures |ws| == count && ValidList(ws) && At(data, pos, PutAll(ws))
    ensures ds == DomainsOf(ws) && end == pos + |PutAll(ws)| && YieldAll(data, pos, count, ds, end)
  {
    hide At, Put, PutAll, RecordAt, RecordsAt, DomainsOf, ValidWritten, ValidList, YieldAll, Yields, ResultOf;
    if count == 0 {
      NoRecords(data, pos);
      ws, ds, end := [], [], pos;
    } else {
      var ds0, at, d, last := SplitLast(data, pos, count);
      ShorterRead(data, pos, count);
      var init, ds1, end1 := RecordsBackward(data, pos, count - 1);
      SameRead(data, pos, count - 1, ds0, at, ds1, end1);
      RecordRead(data, at, d, last);
      var w := RecordBackward(data, at);
      PushBackward(data, pos, init, w);
      DomainsPush(init, w);
      ws, ds, end := init + [w], ds0 + (if d.Some? then [d.value] else []), last;
    }
  }

  // ---------- Main results ----------

  lemma PrefaceIff(data: seq<Byte>, count: nat)
    requires count < 0x1_0000_0000
    ensures At(data, 0, Put32(1) + Put32(count)) <==> |data| >= 8 && U32(data, 0) == 1 && U32(data, 4) == count
  {
    AtSplit(data, 0, Put32(1), Put32(count));
    U32Iff(data, 0, 1);
    U32Iff(data, 4, count);
  }

  lemma ParsesTo(data: seq<Byte>, count: nat, ds: seq<RawDomain>)
    requires count <= MAX_RECORDS && At(data, 0, Put32(1) + Put32(count))
    requires YieldAll(data, 8, count, ds, |data|)
    ensures Parse(data) == Ok(Texts(ds))
  {
    hide At, RecordsAt;
    PrefaceIff(data, count);
  }

  lemma EncodeStands(ws: seq<Written>)
    requires ValidList(ws) && |ws| <= MAX_RECORDS
    ensures At(Encode(ws), 0, Put32(1) + Put32(|ws|)) && At(Encode(ws), 8, PutAll(ws))
    ensures |Encode(ws)| == 8 + |PutAll(ws)|
  {
    hide At, PutAll, Put32;
    AtSlice(Encode(ws), 0, Encode(ws));
    AtSplit(Encode(ws), 0, Put32(1) + Put32(|ws|), PutAll(ws));
  }

  /** Round trip: every valid list of at most 10,000 records is parsed to
      exactly its domain records, in order. */
  lemma ParseEncode(ws: seq<Written>)
    requires ValidList(ws) && |ws| <= MAX_RECORDS
    ensures Parse(Encode(ws)) == Ok(Texts(DomainsOf(ws)))
  {
    hide *;
    EncodeStands(ws);
    RecordsForward(Encode(ws), 8, ws);
    ParsesTo(Encode(ws), |ws|, DomainsOf(ws));
  }

  /** Exact framing: only encodings are accepted, and they are consumed whole. */
  lemma AcceptedIsEncoding(data: seq<Byte>) returns (ws: seq<Written>)
    requires Parse(data).Ok?
    ensures ValidList(ws) && |ws| <= MAX_RECORDS && data == Encode(ws)
    ensures Parse(data).value == Texts(DomainsOf(ws))
    ensures |data| >= 8 && |ws| == U32(data, 4)
  {
    hide At, PutAll, RecordsAt, DomainsOf, Texts;
    var count := U32(data, 4);
    var ds, end;
    ws, ds, end := RecordsBackward(data, 8, count);
    PrefaceIff(data, count);
    AtSplit(data, 0, Put32(1) + Put32(count), PutAll(ws));
    AtSlice(data, 0, Encode(ws));
    assert data[0..|data|] == data;
  }

  lemma AcceptedIffEncoding(data: seq<Byte>)
    ensures Parse(data).Ok? <==> exists ws :: ValidList(ws) && |ws| <= MAX_RECORDS && data == Encode(ws)
  {
    hide Encode, Parse;
    if Parse(data).Ok? {
      var ws := AcceptedIsEncoding(data);
    }
    forall ws | ValidList(ws) && |ws| <= MAX_RECORDS && data == Encode(ws) ensures Parse(data).Ok? {
      ParseEncode(ws);
    }
  }

  lemma {:induction false} PutAllLength(ws: seq<Written>)
    requires ValidList(ws)
    ensures |PutAll(ws)| >= 17 * |ws|
  {
    if ws != [] {
      PutAllLength(ws[..|ws| - 1]);
    }
  }

  /** Each of the records takes at least 17 bytes of an accepted value. */
  lemma AcceptedLength(data: seq<Byte>)
    requires Parse(data).Ok?
    ensures |data| >= 8 && |data| >= 8 + 17 * U32(data, 4)
  {
    hide Parse;
    var ws := AcceptedIsEncoding(data);
    PutAllLength(ws);
  }

  /** The records of an encoding are read the same when more bytes follow. */
  lemma LongerStillReads(ws: seq<Written>, more: seq<Byte>)
    requires ValidList(ws) && |ws| <= MAX_RECORDS
    ensures var longer := Encode(ws) + more;
            && At(longer, 0, Put32(1) + Put32(|ws|))
            && YieldAll(longer, 8, |ws|, DomainsOf(ws), |Encode(ws)|)
  {
    hide At, PutAll, Encode, YieldAll, DomainsOf, ValidList, Put32;
    var data := Encode(ws);
    var longer := data + more;
    EncodeStands(ws);
    AtPrefix(longer, |data|, 0, Put32(1) + Put32(|ws|));
    AtPrefix(longer, |data|, 8, PutAll(ws));
    assert longer[..|data|] == data;
    RecordsForward(longer, 8, ws);
  }

  lemma TrailingIsRejected(data: seq<Byte>, count: nat, ds: seq<RawDomain>, end: nat)
    requires count <= MAX_RECORDS && At(data, 0, Put32(1) + Put32(count))
    requires YieldAll(data, 8, count, ds, end) && end != |data|
    ensures Parse(data) == Err(TrailingBytes)
  {
    hide At, RecordsAt;
    PrefaceIff(data, count);
  }

  /** Prefix-free: an accepted value extended by anything is rejected. */
  lemma PrefixFree(data: seq<Byte>, more: seq<Byte>)
    requires Parse(data).Ok? && Parse(data + more).Ok?
    ensures more == []
  {
    hide *;
    var ws := AcceptedIsEncoding(data);
    LongerStillReads(ws, more);
    if more != [] {
      TrailingIsRejected(data + more, |ws|, DomainsOf(ws), |data|);
    }
  }

  /** No truncation of an accepted value is ever read as a shorter list. */
  lemma TruncationIsRejected(data: seq<Byte>, n: nat)
    requires Parse(data).Ok? && n < |data|
    ensures Parse(data[..n]).Err?
  {
    hide Parse;
    var short := data[..n];
    assert short + data[n..] == data;
    if Parse(short).Ok? {
      PrefixFree(short, data[n..]);
    }
  }
}
