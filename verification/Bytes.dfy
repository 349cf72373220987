/** Little-endian numbers in byte strings. */
module Bytes {

  type Byte = b: int | 0 <= b < 256

  function U16(b: seq<Byte>, at: nat): (v: nat)
    requires at + 2 <= |b|
    ensures v < 0x1_0000
  {
    b[at] + 0x100 * (b[at + 1] as int)
  }

  function U32(b: seq<Byte>, at: nat): (v: nat)
    requires at + 4 <= |b|
    ensures v < 0x1_0000_0000
  {
    b[at] + 0x100 * (b[at + 1] as int) + 0x1_0000 * (b[at + 2] as int) + 0x100_0000 * (b[at + 3] as int)
  }

  function Put16(v: nat): (b: seq<Byte>)
    requires v < 0x1_0000
    ensures |b| == 2
  {
    [v % 0x100, v / 0x100]
  }

  function Put32(v: nat): (b: seq<Byte>)
    requires v < 0x1_0000_0000
    ensures |b| == 4
  {
    var v1 := v / 0x100;
    var v2 := v1 / 0x100;
    var v3 := v2 / 0x100;
    [v % 0x100, v1 % 0x100, v2 % 0x100, v3]
  }

  /** Bit `k` of `v`, where `power` is two to the `k`. */
  predicate Bit(v: nat, power: nat)
    requires power > 0
  {
    v / power % 2 == 1
  }

  lemma Get16(v: nat, b: seq<Byte>, at: nat)
    requires v < 0x1_0000 && at + 2 <= |b| && b[at..at + 2] == Put16(v)
    ensures U16(b, at) == v
  {
    assert b[at] == b[at..at + 2][0] && b[at + 1] == b[at..at + 2][1];
  }

  lemma Get32(v: nat, b: seq<Byte>, at: nat)
    requires v < 0x1_0000_0000 && at + 4 <= |b| && b[at..at + 4] == Put32(v)
    ensures U32(b, at) == v
  {
    var s := b[at..at + 4];
    assert b[at] == s[0] && b[at + 1] == s[1] && b[at + 2] == s[2] && b[at + 3] == s[3];
  }

  lemma PutGet16(b: seq<Byte>, at: nat)
    requires at + 2 <= |b|
    ensures Put16(U16(b, at)) == b[at..at + 2]
  {
  }

  lemma PutGet32(b: seq<Byte>, at: nat)
    requires at + 4 <= |b|
    ensures Put32(U32(b, at)) == b[at..at + 4]
  {
    var v3: nat := b[at + 3];
    var v2: nat := b[at + 2] as int + 0x100 * v3;
    var v1: nat := b[at + 1] as int + 0x100 * v2;
    var v := U32(b, at);
    assert v == b[at] as int + 0x100 * v1;
    assert v / 0x100 == v1 && v1 / 0x100 == v2 && v2 / 0x100 == v3;
  }

  // ---------- Bytes at a position ----------

  /** The bytes of `s` stand at `pos`. */
  predicate At(data: seq<Byte>, pos: nat, s: seq<Byte>)
    decreases |s|
  {
    if s == [] then pos <= |data|
    else pos < |data| && data[pos] == s[0] && At(data, pos + 1, s[1..])
  }

  lemma {:induction false} AtSlice(data: seq<Byte>, pos: nat, s: seq<Byte>)
    ensures At(data, pos, s) <==> pos + |s| <= |data| && data[pos..pos + |s|] == s
    decreases |s|
  {
    if s != [] {
      AtSlice(data, pos + 1, s[1..]);
      if pos + |s| <= |data| {
        assert data[pos..pos + |s|] == [data[pos]] + data[pos + 1..pos + |s|];
        assert s == [s[0]] + s[1..];
        assert data[pos..pos + |s|][1..] == data[pos + 1..pos + |s|];
      }
    }
  }

  lemma SliceAt(data: seq<Byte>, from: nat, to: nat)
    requires from <= to <= |data|
    ensures At(data, from, data[from..to]) && |data[from..to]| == to - from
  {
    AtSlice(data, from, data[from..to]);
  }

  lemma {:induction false} AtSplit(data: seq<Byte>, pos: nat, a: seq<Byte>, b: seq<Byte>)
    ensures At(data, pos, a + b) <==> At(data, pos, a) && At(data, pos + |a|, b)
    decreases |a|
  {
    if a == [] {
      assert a + b == b;
      AtSlice(data, pos, b);
    } else {
      AtSplit(data, pos + 1, a[1..], b);
      assert (a + b)[1..] == a[1..] + b;
    }
  }

  lemma U32Iff(data: seq<Byte>, pos: nat, v: nat)
    requires v < 0x1_0000_0000
    ensures At(data, pos, Put32(v)) <==> pos + 4 <= |data| && U32(data, pos) == v
  {
    AtSlice(data, pos, Put32(v));
    if pos + 4 <= |data| {
      PutGet32(data, pos);
      if data[pos..pos + 4] == Put32(v) {
        Get32(v, data, pos);
      }
    }
  }

  lemma U16Iff(data: seq<Byte>, pos: nat, v: nat)
    requires v < 0x1_0000
    ensures At(data, pos, Put16(v)) <==> pos + 2 <= |data| && U16(data, pos) == v
  {
    AtSlice(data, pos, Put16(v));
    if pos + 2 <= |data| {
      PutGet16(data, pos);
      if data[pos..pos + 2] == Put16(v) {
        Get16(v, data, pos);
      }
    }
  }

  lemma {:induction false} AtPrefix(data: seq<Byte>, n: nat, pos: nat, s: seq<Byte>)
    requires n <= |data| && pos + |s| <= n
    ensures At(data[..n], pos, s) <==> At(data, pos, s)
  {
    AtSlice(data[..n], pos, s);
    AtSlice(data, pos, s);
    assert data[..n][pos..pos + |s|] == data[pos..pos + |s|];
  }
}
