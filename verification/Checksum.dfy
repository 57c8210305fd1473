/**
 * The CRC-32 of the best levels of a book.  Wire strings are fed through a 32-byte buffer with
 * dots and leading zeros dropped; the result is one CRC-32 (section 8 of RFC 1952) of the
 * concatenated, plainly stripped strings, asks first.
 */
module Checksum {
  type byte = bv8

  datatype WireLevel = WireLevel(price: seq<byte>, qty: seq<byte>)

  const CHECKSUM_DEPTH: nat := 10
  const STRIP_BUF_LEN: nat := 32
  const DOT: byte := 46
  const ZERO: byte := 48

  // ---------------------------------------------------------------- CRC-32

  /** One shift of the register, folding the reflected polynomial in when a bit is shifted out. */
  function ShiftOnce(c: bv32): bv32 {
    if c & 1 == 1 then (c >> 1) ^ 0xEDB8_8320 else c >> 1
  }

  function CrcShift(c: bv32, n: nat): bv32 {
    if n == 0 then c else ShiftOnce(CrcShift(c, n - 1))
  }

  function BitsPerByte(): nat { 8 }

  function CrcByte(c: bv32, b: byte): bv32 {
    CrcShift(c ^ (b as bv32), BitsPerByte())
  }

  /** The running register after feeding `s`. */
  function CrcFold(c: bv32, s: seq<byte>): bv32 {
    if s == [] then c else CrcByte(CrcFold(c, s[..|s| - 1]), s[|s| - 1])
  }

  function Crc32(s: seq<byte>): bv32 {
    !CrcFold(0xFFFF_FFFF, s)
  }

  /** Chunk invariance: how the input is cut does not matter. */
  lemma {:induction false} CrcChunks(c: bv32, a: seq<byte>, b: seq<byte>)
    ensures CrcFold(c, a + b) == CrcFold(CrcFold(c, a), b)
    decreases |b|
  {
    if b == [] {
      assert a + b == a;
    } else {
      var last := |b| - 1;
      assert (a + b)[..|a + b| - 1] == a + b[..last];
      CrcChunks(c, a, b[..last]);
    }
  }

  /** Shifts one after the other are a run of the register. */
  lemma {:induction false} ShiftChain(registers: seq<bv32>, n: nat)
    requires n < |registers|
    requires forall i :: 0 <= i < |registers| - 1 ==> registers[i + 1] == ShiftOnce(registers[i])
    ensures CrcShift(registers[0], n) == registers[n]
  {
    if n > 0 { ShiftChain(registers, n - 1); }
  }

  /** A known value: the CRC-32 of the single digit one. */
  lemma KnownValue()
    ensures Crc32([49]) == 0x83DC_EFB7
  {
    var registers: seq<bv32> := [0xFFFF_FFCE, 0x7FFF_FFE7, 0xD247_7CD3, 0x849B_3D49, 0xAFF5_1D84, 0x57FA_8EC2,
                                 0x2BFD_4761, 0xF846_2090, 0x7C23_1048];
    ShiftChain(registers, BitsPerByte());
    assert CrcByte(0xFFFF_FFFF, 49) == registers[BitsPerByte()];
    assert CrcFold(0xFFFF_FFFF, [49]) == CrcByte(CrcFold(0xFFFF_FFFF, []), 49);
  }

  // ---------------------------------------------------------------- stripping

  function WithoutDots(s: seq<byte>): seq<byte> {
    if s == [] then []
    else WithoutDots(s[..|s| - 1]) + if s[|s| - 1] == DOT then [] else [s[|s| - 1]]
  }

  function WithoutLeadingZeros(s: seq<byte>): seq<byte> {
    if s != [] && s[0] == ZERO then WithoutLeadingZeros(s[1..]) else s
  }

  /** `s` without its dots and then without its leading zeros. */
  function Strip(s: seq<byte>): seq<byte> {
    WithoutLeadingZeros(WithoutDots(s))
  }

  /** What stripping keeps: the dot-free string from its first non-zero byte on. */
  lemma {:induction false} StripKeepsTheSignificantBytes(s: seq<byte>)
    ensures DOT !in WithoutDots(s)
    ensures Strip(s) == [] || Strip(s)[0] != ZERO
    ensures exists z: nat :: z <= |WithoutDots(s)| && WithoutDots(s)[z..] == Strip(s)
                          && forall i :: 0 <= i < z ==> WithoutDots(s)[i] == ZERO
  {
    NoDotsLeft(s);
    LeadingZerosAreAPrefix(WithoutDots(s));
  }

  lemma {:induction false} NoDotsLeft(s: seq<byte>)
    ensures DOT !in WithoutDots(s)
    decreases |s|
  {
    if s != [] { NoDotsLeft(s[..|s| - 1]); }
  }

  lemma {:induction false} LeadingZerosAreAPrefix(s: seq<byte>)
    ensures WithoutLeadingZeros(s) == [] || WithoutLeadingZeros(s)[0] != ZERO
    ensures exists z: nat :: z <= |s| && s[z..] == WithoutLeadingZeros(s)
                          && forall i :: 0 <= i < z ==> s[i] == ZERO
    decreases |s|
  {
    if s != [] && s[0] == ZERO {
      LeadingZerosAreAPrefix(s[1..]);
      var z: nat :| z <= |s[1..]| && s[1..][z..] == WithoutLeadingZeros(s[1..])
                 && forall i :: 0 <= i < z ==> s[1..][i] == ZERO;
      assert s[z + 1..] == s[1..][z..];
      forall i | 0 <= i < z + 1
        ensures s[i] == ZERO
      {
        if i > 0 { assert s[i] == s[1..][i - 1]; }
      }
    } else {
      assert s[0..] == s;
    }
  }

  /** Appending one byte to a string appends it to the stripped string, unless it is dropped. */
  lemma {:induction false} StripSnoc(s: seq<byte>, b: byte)
    ensures Strip(s + [b]) ==
            if b == DOT || (b == ZERO && Strip(s) == []) then Strip(s) else Strip(s) + [b]
  {
    assert (s + [b])[..|s + [b]| - 1] == s;
    if b == DOT {
      assert WithoutDots(s + [b]) == WithoutDots(s);
    } else {
      LeadingZerosSnoc(WithoutDots(s), b);
    }
  }

  lemma {:induction false} LeadingZerosSnoc(s: seq<byte>, b: byte)
    ensures WithoutLeadingZeros(s + [b]) ==
            if b == ZERO && WithoutLeadingZeros(s) == [] then [] else WithoutLeadingZeros(s) + [b]
    decreases |s|
  {
    if s == [] {
      assert s + [b] == [b];
      assert [b][1..] == [];
    } else if s[0] == ZERO {
      assert (s + [b])[1..] == s[1..] + [b];
      LeadingZerosSnoc(s[1..], b);
    }
  }

  // ---------------------------------------------------------------- hashing a book

  /** A streaming hasher; `fed` is everything it has been given so far. */
  class Hasher {
    var state: bv32
    ghost var fed: seq<byte>

    ghost predicate Valid()
      reads this
    {
      state == CrcFold(0xFFFF_FFFF, fed)
    }

    constructor ()
      ensures Valid() && fed == []
    {
      state := 0xFFFF_FFFF;
      fed := [];
    }

    method Update(bytes: seq<byte>)
      requires Valid()
      modifies this
      ensures Valid() && fed == old(fed) + bytes
    {
      for i := 0 to |bytes|
        invariant fed == old(fed) && state == CrcFold(old(state), bytes[..i])
      {
        assert bytes[..i + 1][..i] == bytes[..i];
        state := CrcByte(state, bytes[i]);
      }
      assert bytes[..|bytes|] == bytes;
      CrcChunks(0xFFFF_FFFF, fed, bytes);
      fed := fed + bytes;
    }

    method Finalize() returns (crc: bv32)
      requires Valid()
      ensures crc == Crc32(fed)
    {
      crc := !state;
    }
  }

  /** Puts one byte in the buffer, handing a full buffer to the hasher first. */
  method BufferByte(hasher: Hasher, buf: array<byte>, len: nat, b: byte) returns (newLen: nat)
    requires hasher.Valid() && len <= buf.Length == STRIP_BUF_LEN
    modifies hasher, buf
    ensures hasher.Valid() && 0 < newLen <= STRIP_BUF_LEN
    ensures hasher.fed + buf[..newLen] == old(hasher.fed + buf[..len]) + [b]
  {
    newLen := len;
    if newLen == STRIP_BUF_LEN {
      assert buf[..] == buf[..len];
      hasher.Update(buf[..]);
      newLen := 0;
    }
    assert hasher.fed + buf[..newLen] == old(hasher.fed + buf[..len]);
    buf[newLen] := b;
    newLen := newLen + 1;
    assert buf[..newLen] == buf[..newLen - 1] + [b];
  }

  /** Feeds the stripped string to the hasher, one buffer at a time. */
  method UpdateStripped(hasher: Hasher, s: seq<byte>)
    requires hasher.Valid()
    modifies hasher
    ensures hasher.Valid() && hasher.fed == old(hasher.fed) + Strip(s)
  {
    var buf := new byte[STRIP_BUF_LEN](_ => 0);
    var len := 0;
    var leading := true;
    for i := 0 to |s|
      invariant hasher.Valid()
      invariant len <= STRIP_BUF_LEN
      invariant leading <==> Strip(s[..i]) == []
      invariant hasher.fed + buf[..len] == old(hasher.fed) + Strip(s[..i])
    {
      var b := s[i];
      assert Strip(s[..i + 1]) ==
             if b == DOT || (b == ZERO && leading) then Strip(s[..i]) else Strip(s[..i]) + [b] by {
        assert s[..i + 1] == s[..i] + [b];
        StripSnoc(s[..i], b);
      }
      if b == DOT {
        continue;
      }
      if leading && b == ZERO {
        continue;
      }
      leading := false;
      len := BufferByte(hasher, buf, len, b);
      assert hasher.fed + buf[..len] == old(hasher.fed) + (Strip(s[..i]) + [b]);
    }
    assert s[..|s|] == s;
    hasher.Update(buf[..len]);
  }

  /** The stripped price and quantity strings of the levels, concatenated in order. */
  function StrippedBytes(levels: seq<WireLevel>): seq<byte> {
    if levels == [] then []
    else StrippedBytes(levels[..|levels| - 1])
         + Strip(levels[|levels| - 1].price) + Strip(levels[|levels| - 1].qty)
  }

  /** The checksum of a book: one CRC-32 over the stripped asks followed by the stripped bids. */
  function BookCrc(asks: seq<WireLevel>, bids: seq<WireLevel>): bv32 {
    Crc32(StrippedBytes(asks) + StrippedBytes(bids))
  }

  method UpdateLevels(hasher: Hasher, levels: seq<WireLevel>)
    requires hasher.Valid()
    modifies hasher
    ensures hasher.Valid() && hasher.fed == old(hasher.fed) + StrippedBytes(levels)
  {
    for i := 0 to |levels|
      invariant hasher.Valid()
      invariant hasher.fed == old(hasher.fed) + StrippedBytes(levels[..i])
    {
      assert levels[..i + 1][..i] == levels[..i];
      UpdateStripped(hasher, levels[i].price);
      UpdateStripped(hasher, levels[i].qty);
    }
    assert levels[..|levels|] == levels;
  }

  /** The asks, then the bids. */
  method UpdateBook(hasher: Hasher, asks: seq<WireLevel>, bids: seq<WireLevel>)
    requires hasher.Valid() && hasher.fed == []
    modifies hasher
    ensures hasher.Valid() && hasher.fed == StrippedBytes(asks) + StrippedBytes(bids)
  {
    ghost var first, second := StrippedBytes(asks), StrippedBytes(bids);
    UpdateLevels(hasher, asks);
    assert hasher.fed == first;
    UpdateLevels(hasher, bids);
  }

  method ComputeBookCrc32(asks: seq<WireLevel>, bids: seq<WireLevel>) returns (crc: bv32)
    ensures crc == BookCrc(asks, bids)
  {
    var hasher := new Hasher();
    UpdateBook(hasher, asks, bids);
    crc := hasher.Finalize();
  }
}
