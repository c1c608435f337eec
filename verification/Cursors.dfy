/**
 * Bounded byte access to one captured packet.
 *
 * `Memory` is the cursor over a captured slice; `Pointers` is the cursor of the
 * packet path, which compares 64-bit pointers and refuses offsets past a
 * constant the kernel verifier can follow.
 */
module Cursors {
  import opened Common

  const MAX_PACKET_OFF := 0x3fff

  datatype RawCursor =
    | Memory(data: seq<byte>)
    | Pointers(base: u64, data: seq<byte>)
  {
    /** A kernel packet leaves room below the top of the address space. */
    ghost predicate Valid() {
      Pointers? ==> base + MAX_PACKET_OFF <= U64_MAX && base + |data| <= U64_MAX
    }

    /** First offset this cursor refuses. */
    function Limit(): nat {
      if Memory? then |data| else Min(MAX_PACKET_OFF, |data|)
    }
  }

  type Cursor = c: RawCursor | c.Valid() witness Memory([])

  /** `wrapping_add` on addresses. */
  function WrappingAdd(address: u64, n: u64): u64 {
    if address + n <= U64_MAX then address + n else address + n - U64_MOD
  }

  /** Whether `len` bytes at `offset` may be read. */
  predicate Allowed(c: Cursor, offset: nat, len: nat) {
    offset + len <= c.Limit()
  }

  /**
   * The address of `len` bytes at `offset`: the offset is bounded first, then
   * two wrapping additions are compared with the end of the packet. They cannot
   * be fooled by a wrap because of the room a packet leaves.
   */
  method SliceAt(c: Cursor, offset: u64, len: u64) returns (address: Option<u64>)
    requires c.Pointers?
    ensures address.Some? <==> Allowed(c, offset, len)
    ensures address.Some? ==> address.value == c.base + offset && address.value + len <= c.base + |c.data|
  {
    if offset + len > U64_MAX || offset + len > MAX_PACKET_OFF {
      return None;
    }
    var start := WrappingAdd(c.base, offset);
    var end := WrappingAdd(start, len);
    if end < start || end > c.base + |c.data| {
      return None;
    }
    address := Some(start);
  }

  function ReadU8(c: Cursor, offset: nat): Option<byte> {
    if Allowed(c, offset, 1) then Some(c.data[offset]) else None
  }

  function ReadU16(c: Cursor, offset: nat): Option<u16> {
    if Allowed(c, offset, 2) then Some(Word(c.data[offset], c.data[offset + 1])) else None
  }

  function ReadU32(c: Cursor, offset: nat): Option<u32> {
    if Allowed(c, offset, 4) then
      Some(DoubleWord(Word(c.data[offset], c.data[offset + 1]), Word(c.data[offset + 2], c.data[offset + 3])))
    else None
  }

  predicate Within(offset: nat, len: nat, end: nat) {
    offset + len <= end
  }

  /** Whether `len` bytes at `offset` are captured; only the last byte is read. */
  predicate Has(c: Cursor, offset: nat, len: nat) {
    len == 0 || ReadU8(c, offset + len - 1).Some?
  }

  // --------------------------------------------------- network byte order

  function Word(hi: int, lo: int): u16
    requires 0 <= hi < 256 && 0 <= lo < 256
  {
    hi * 256 + lo
  }

  function DoubleWord(hi: int, lo: int): u32
    requires 0 <= hi < 0x1_0000 && 0 <= lo < 0x1_0000
  {
    hi * 0x1_0000 + lo
  }

  /** The bytes of a word, most significant first: the only two that have it as their positional sum. */
  ghost function Be16(x: u16): (b: seq<byte>)
    ensures |b| == 2 && b[0] as int * 0x100 + b[1] == x
  {
    assert (x / 256) * 0x100 + x % 256 == x;
    var hi: byte, lo: byte :| hi * 0x100 + lo == x;
    [hi, lo]
  }

  ghost function Be32(x: u32): (b: seq<byte>)
    ensures |b| == 4 && b[0] as int * 0x100_0000 + b[1] as int * 0x1_0000 + b[2] as int * 0x100 + b[3] == x
  {
    assert (x / 0x1_0000) * 0x1_0000 + x % 0x1_0000 == x;
    var hi: u16, lo: u16 :| hi * 0x1_0000 + lo == x;
    Be16(hi) + Be16(lo)
  }

  /** A vector with a one-byte, or a two-byte, length in front. */
  function Vec8(s: seq<byte>): (v: seq<byte>)
    requires |s| < 256
    ensures |v| == 1 + |s|
  {
    [|s|] + s
  }

  ghost function Vec16(s: seq<byte>): (v: seq<byte>)
    requires |s| < 0x1_0000
    ensures |v| == 2 + |s|
  {
    Be16(|s|) + s
  }

  /** `u16::to_be` on the little-endian targets the packet path is built for. */
  function ToBe(x: u16): (r: u16)
    ensures ToBe16Inverse(x, r)
  {
    x % 256 * 256 + x / 256
  }

  ghost predicate ToBe16Inverse(x: u16, r: u16) {
    r / 256 == x % 256 && r % 256 == x / 256
  }

  /** Network byte order, byte by byte. */
  lemma BigEndian(x: u16, y: u32)
    ensures Be16(x) == [x / 0x100, x % 0x100]
    ensures Be32(y) == [y / 0x100_0000, y / 0x1_0000 % 0x100, y / 0x100 % 0x100, y % 0x100]
  {
    var b := Be32(y);
    assert y / 0x100 == b[0] as int * 0x1_0000 + b[1] as int * 0x100 + b[2];
    assert y / 0x1_0000 == b[0] as int * 0x100 + b[1];
  }

  /** A read is the positional sum of the captured bytes, and fails exactly where one of them is not captured. */
  lemma ReadsAreSums(d: seq<byte>, i: nat)
    ensures ReadU8(Memory(d), i) == if i + 1 <= |d| then Some(d[i]) else None
    ensures ReadU16(Memory(d), i) == if i + 2 <= |d| then Some(d[i] as int * 0x100 + d[i + 1]) else None
    ensures ReadU32(Memory(d), i) ==
      if i + 4 <= |d| then
        Some(d[i] as int * 0x100_0000 + d[i + 1] as int * 0x1_0000 + d[i + 2] as int * 0x100 + d[i + 3])
      else None
  {
  }

  // ------------------------------------------------------------ windows

  /** The two cursors show the same bytes in `[offset, end)`. */
  ghost predicate Agree(c: Cursor, d: Cursor, offset: nat, end: nat) {
    forall i {:trigger ReadU8(c, i)} {:trigger ReadU8(d, i)} :: offset <= i < end ==> ReadU8(c, i) == ReadU8(d, i)
  }

  /** Agreeing cursors agree on every read inside the window. */
  lemma AgreeReads(c: Cursor, d: Cursor, offset: nat, end: nat, i: nat)
    requires Agree(c, d, offset, end) && offset <= i
    ensures i + 1 <= end ==> ReadU8(c, i) == ReadU8(d, i)
    ensures i + 2 <= end ==> ReadU16(c, i) == ReadU16(d, i)
    ensures i + 4 <= end ==> ReadU32(c, i) == ReadU32(d, i)
  {
    if i + 1 <= end { assert ReadU8(c, i) == ReadU8(d, i); }
    if i + 2 <= end { assert ReadU8(c, i + 1) == ReadU8(d, i + 1); }
    if i + 4 <= end {
      assert ReadU8(c, i + 2) == ReadU8(d, i + 2);
      assert ReadU8(c, i + 3) == ReadU8(d, i + 3);
    }
  }

  /** Agreeing cursors agree on every copy inside the window. */
  lemma AgreeBytes(c: Cursor, d: Cursor, offset: nat, end: nat, i: nat, len: nat)
    requires Agree(c, d, offset, end) && offset <= i && i + len <= end && len > 0
    ensures Allowed(c, i, len) == Allowed(d, i, len)
    ensures Allowed(c, i, len) ==> c.data[i..i + len] == d.data[i..i + len]
  {
    assert ReadU8(c, i + len - 1) == ReadU8(d, i + len - 1);
    if Allowed(c, i, len) {
      var x, y := c.data[i..i + len], d.data[i..i + len];
      forall k | 0 <= k < len
        ensures x[k] == y[k]
      {
        assert ReadU8(c, i + k) == ReadU8(d, i + k);
      }
    }
  }

  /** Copies `len` bytes at `offset` into `buffer[at..]`, byte by byte; stops at a missing byte. */
  method CopyBytes(c: Cursor, offset: nat, buffer: array<byte>, at: nat, len: nat) returns (ok: bool)
    requires at + len <= buffer.Length
    modifies buffer
    ensures len > 0 ==> ok == Allowed(c, offset, len)
    ensures len > 0 && ok ==> buffer[at..at + len] == c.data[offset..offset + len]
    ensures buffer[..at] == old(buffer[..at])
  {
    for i := 0 to len
      invariant i > 0 ==> Allowed(c, offset, i)
      invariant forall j :: at <= j < at + i ==> buffer[j] == c.data[offset + (j - at)]
      invariant buffer[..at] == old(buffer[..at])
    {
      var b := ReadU8(c, offset + i);
      if b.None? {
        return false;
      }
      buffer[at + i] := b.value;
    }
    ok := true;
  }

  // ------------------------------------------------------------ printed bytes

  /** The bytes `s` stand at `pos` in `d`. */
  ghost predicate At(d: seq<byte>, pos: nat, s: seq<byte>) {
    pos + |s| <= |d| && d[pos..pos + |s|] == s
  }

  lemma WholeAt(d: seq<byte>)
    ensures At(d, 0, d)
  {
    assert d[0..|d|] == d;
  }

  lemma AtSplit(d: seq<byte>, pos: nat, a: seq<byte>, b: seq<byte>)
    requires At(d, pos, a + b)
    ensures At(d, pos, a) && At(d, pos + |a|, b)
  {
    var s := d[pos..pos + |a + b|];
    assert s[..|a|] == a && s[|a|..] == b;
    assert s[..|a|] == d[pos..pos + |a|] && s[|a|..] == d[pos + |a|..pos + |a| + |b|];
  }

  lemma AtJoin(d: seq<byte>, pos: nat, a: seq<byte>, b: seq<byte>)
    requires At(d, pos, a) && At(d, pos + |a|, b)
    ensures At(d, pos, a + b)
  {
    assert d[pos..pos + |a + b|] == d[pos..pos + |a|] + d[pos + |a|..pos + |a| + |b|];
  }

  lemma SliceStands(d: seq<byte>, pos: nat, len: nat)
    requires pos + len <= |d|
    ensures At(d, pos, d[pos..pos + len])
  {
  }

  /** What is read stands there. */
  lemma Read16At(d: seq<byte>, pos: nat, x: u16)
    requires ReadU16(Memory(d), pos) == Some(x)
    ensures At(d, pos, Be16(x))
  {
    var b := Be16(x);
    assert d[pos] == b[0] && d[pos + 1] == b[1];
  }

  lemma Read32At(d: seq<byte>, pos: nat, x: u32)
    requires ReadU32(Memory(d), pos) == Some(x)
    ensures At(d, pos, Be32(x))
  {
    hide Be32;
    ReadsAreSums(d, pos);
    var b := Be32(x);
    assert d[pos] == b[0] && d[pos + 1] == b[1] && d[pos + 2] == b[2] && d[pos + 3] == b[3];
  }

  lemma AtByte(d: seq<byte>, pos: nat, b: byte)
    requires At(d, pos, [b])
    ensures ReadU8(Memory(d), pos) == Some(b)
  {
    assert d[pos..pos + 1][0] == b;
  }

  lemma At16(d: seq<byte>, pos: nat, x: u16)
    requires At(d, pos, Be16(x))
    ensures ReadU16(Memory(d), pos) == Some(x)
  {
    assert d[pos..pos + 2][0] == d[pos] && d[pos..pos + 2][1] == d[pos + 1];
  }

  lemma At32(d: seq<byte>, pos: nat, x: u32)
    requires At(d, pos, Be32(x))
    ensures ReadU32(Memory(d), pos) == Some(x)
  {
    var s := d[pos..pos + 4];
    assert s[0] == d[pos] && s[1] == d[pos + 1] && s[2] == d[pos + 2] && s[3] == d[pos + 3];
  }
}
