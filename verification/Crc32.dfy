/** The checksum of the page file: trash/jdbx_page_manager_old.c, lines 21-58.

    The reference is the bit-serial CRC-32 of section 8 of RFC 1952 (reflected
    polynomial 0xEDB88320, register preset to ones, result complemented): one
    message bit at a time, least significant bit of each byte first. */
module Crc32 {
  import opened Bytes

  const POLYNOMIAL: bv32 := 0xEDB88320
  const ONES: bv32 := 0xFFFFFFFF

  // ----- Words of 32 bits

  function Xor(a: bv32, b: bv32): bv32 { a ^ b }

  function Half(w: bv32): bv32 { w >> 1 }

  predicate Odd(w: bv32) { w & 1 == 1 }

  function LowByte(w: bv32): bv32 { w & 0xFF }

  function HighBytes(w: bv32): bv32 { w & 0xFFFFFF00 }

  function ByteDown(w: bv32): bv32 { w >> 8 }

  /** The n low bits of w, least significant first. */
  function LowBits(w: bv32, n: nat): (bits: seq<bool>)
    ensures |bits| == n
    decreases n
  {
    if n == 0 then [] else [Odd(w)] + LowBits(Half(w), n - 1)
  }

  /** What is left of w without its n low bits. */
  function Drop(w: bv32, n: nat): bv32
    decreases n
  {
    if n == 0 then w else Drop(Half(w), n - 1)
  }

  // ----- The reference: a shift register fed one message bit at a time

  function FeedBit(register: bv32, bit: bool): bv32 {
    if Odd(register) != bit then Xor(Half(register), POLYNOMIAL) else Half(register)
  }

  function FeedBits(register: bv32, bits: seq<bool>): bv32
    decreases |bits|
  {
    if bits == [] then register else FeedBits(FeedBit(register, bits[0]), bits[1..])
  }

  function BitsOf(data: seq<bv8>): (bits: seq<bool>)
    ensures |bits| == 8 * |data|
  {
    if data == [] then [] else LowBits(data[0] as bv32, 8) + BitsOf(data[1..])
  }

  function Crc(data: seq<bv8>): bv32 {
    Xor(FeedBits(ONES, BitsOf(data)), ONES)
  }

  // ----- The register without input: linear and invertible

  function Shift(c: bv32): bv32 {
    FeedBit(c, false)
  }

  function Shifts(c: bv32, n: nat): bv32
    decreases n
  {
    if n == 0 then c else Shifts(Shift(c), n - 1)
  }

  lemma XorParts(a: bv32, b: bv32)
    ensures Half(Xor(a, b)) == Xor(Half(a), Half(b))
    ensures Odd(Xor(a, b)) == (Odd(a) != Odd(b))
  {
  }

  lemma XorMoves(x: bv32, y: bv32, p: bv32)
    ensures Xor(Xor(x, p), Xor(y, p)) == Xor(x, y)
    ensures Xor(Xor(x, p), y) == Xor(Xor(x, y), p)
    ensures Xor(x, Xor(y, p)) == Xor(Xor(x, y), p)
    ensures Xor(x, y) == Xor(y, x)
    ensures Xor(Xor(x, p), p) == x
  {
  }

  lemma XorCancels(r: bv32, a: bv32, b: bv32)
    requires Xor(r, a) == Xor(r, b)
    ensures a == b
  {
  }

  lemma FeedBitLinear(a: bv32, b: bv32, bit: bool)
    ensures FeedBit(Xor(a, b), bit) == Xor(FeedBit(a, bit), Shift(b))
  {
    hide Xor, Half, Odd;
    XorParts(a, b);
    XorMoves(Half(a), Half(b), POLYNOMIAL);
  }

  lemma {:induction false} ShiftsLinear(a: bv32, b: bv32, n: nat)
    ensures Shifts(Xor(a, b), n) == Xor(Shifts(a, n), Shifts(b, n))
    decreases n
  {
    if n > 0 {
      FeedBitLinear(a, b, false);
      hide Xor, Half, Odd, FeedBit;
      ShiftsLinear(Shift(a), Shift(b), n - 1);
    }
  }

  /** The top bit of the polynomial records whether it was mixed in, so a step can be undone. */
  function UnfeedBit(register: bv32, bit: bool): bv32 {
    Double(if Mixed(register) then Xor(register, POLYNOMIAL) else register, Mixed(register) != bit)
  }

  predicate Mixed(register: bv32) { register & 0x80000000 != 0 }

  function Double(register: bv32, low: bool): bv32 { (register << 1) | (if low then 1 else 0) }

  lemma HalfBack(a: bv32)
    ensures !Mixed(Half(a)) && Double(Half(a), Odd(a)) == a
  {
  }

  lemma MixBack(h: bv32)
    requires !Mixed(h)
    ensures Mixed(Xor(h, POLYNOMIAL)) && Xor(Xor(h, POLYNOMIAL), POLYNOMIAL) == h
  {
  }

  lemma UnfeedFeed(a: bv32, bit: bool)
    ensures UnfeedBit(FeedBit(a, bit), bit) == a
  {
    hide Xor, Half, Odd, Mixed, Double;
    HalfBack(a);
    MixBack(Half(a));
  }

  lemma {:induction false} ShiftsInjective(a: bv32, b: bv32, n: nat)
    requires Shifts(a, n) == Shifts(b, n)
    ensures a == b
    decreases n
  {
    hide Xor, Half, Odd, FeedBit, UnfeedBit;
    if n > 0 {
      ShiftsInjective(Shift(a), Shift(b), n - 1);
      UnfeedFeed(a, false);
      UnfeedFeed(b, false);
    }
  }

  lemma {:induction false} FeedBitsInjective(a: bv32, b: bv32, bits: seq<bool>)
    requires FeedBits(a, bits) == FeedBits(b, bits)
    ensures a == b
    decreases |bits|
  {
    hide Xor, Half, Odd, FeedBit, UnfeedBit;
    if bits != [] {
      FeedBitsInjective(FeedBit(a, bits[0]), FeedBit(b, bits[0]), bits[1..]);
      UnfeedFeed(a, bits[0]);
      UnfeedFeed(b, bits[0]);
    }
  }

  // ----- Feeding bits is shifting, with the bits mixed in up front

  /** Splitting off the lowest bit: the rest of w only moves down one place. */
  lemma ShiftMixed(r: bv32, w: bv32)
    ensures Shift(Xor(r, w)) == Xor(FeedBit(r, Odd(w)), Half(w))
  {
    hide Xor, Half, Odd;
    XorParts(r, w);
    XorMoves(Half(r), Half(w), POLYNOMIAL);
  }

  lemma {:induction false} FeedLowBits(r: bv32, w: bv32, n: nat)
    ensures Xor(FeedBits(r, LowBits(w, n)), Drop(w, n)) == Shifts(Xor(r, w), n)
    decreases n
  {
    hide Xor, Half, Odd, FeedBit;
    if n > 0 {
      assert LowBits(w, n)[1..] == LowBits(Half(w), n - 1);
      FeedLowBits(FeedBit(r, Odd(w)), Half(w), n - 1);
      ShiftMixed(r, w);
    }
  }

  lemma {:induction false} DropSplit(w: bv32, m: nat, n: nat)
    ensures Drop(w, m + n) == Drop(Drop(w, m), n)
    decreases m
  {
    hide Half;
    if m > 0 {
      DropSplit(Half(w), m - 1, n);
    }
  }

  lemma Drop8(w: bv32)
    ensures Drop(w, 8) == ByteDown(w)
  {
    hide Half;
    Drop4(w);
    Drop4(w >> 4);
    assert (w >> 4) >> 4 == ByteDown(w);
    DropSplit(w, 4, 4);
  }

  lemma Drop4(w: bv32)
    ensures Drop(w, 4) == w >> 4
  {
  }

  // ----- The table-driven form

  /** While the low bits are clear nothing is fed back. */
  lemma {:induction false} ShiftsOfClear(h: bv32, n: nat)
    requires forall k :: 0 <= k < n ==> !Odd(Drop(h, k))
    ensures Shifts(h, n) == Drop(h, n)
    decreases n
  {
    hide Half, Odd;
    if n > 0 {
      assert !Odd(Drop(h, 0));
      forall k | 0 <= k < n - 1 ensures !Odd(Drop(Half(h), k)) {
        assert !Odd(Drop(h, k + 1));
      }
      ShiftsOfClear(Half(h), n - 1);
    }
  }

  lemma HighBitsClear(w: bv32)
    ensures forall k :: 0 <= k < 8 ==> !Odd(Drop(HighBytes(w), k))
  {
    var h := HighBytes(w);
    assert h & 0xF == 0 && (h >> 4) & 0xF == 0;
    hide HighBytes, Odd, Half;
    NibbleClear(h);
    NibbleClear(h >> 4);
    Drop4(h);
    forall k | 4 <= k < 8 ensures !Odd(Drop(h, k)) { DropSplit(h, 4, k - 4); }
  }

  lemma NibbleClear(h: bv32)
    requires h & 0xF == 0
    ensures forall k :: 0 <= k < 4 ==> !Odd(Drop(h, k))
  {
    assert !Odd(Drop(h, 0)) && !Odd(Drop(h, 1)) && !Odd(Drop(h, 2)) && !Odd(Drop(h, 3));
  }

  lemma Masks(crc: bv32, b: bv8)
    ensures var w := b as bv32; var x := Xor(crc, w);
            x == Xor(LowByte(x), HighBytes(x)) && ByteDown(HighBytes(x)) == ByteDown(crc) && ByteDown(w) == 0
  {
  }

  /** What lines 29-35 compute for index i: eight shifts. */
  function Entry(i: nat): bv32
    requires i < 256
  {
    Shifts(i as bv32, 8)
  }

  function Index(crc: bv32, b: bv8): (i: nat)
    ensures i < 256
    ensures i as bv32 == LowByte(Xor(crc, b as bv32))
  {
    var low := LowByte(Xor(crc, b as bv32));
    assert low < 256;
    low as int
  }

  /** Line 47: one byte through the table is eight bits through the shift register. */
  lemma TableStep(crc: bv32, b: bv8)
    ensures Xor(ByteDown(crc), Entry(Index(crc, b))) == FeedBits(crc, LowBits(b as bv32, 8))
  {
    Masks(crc, b);
    hide Xor, Half, Odd, FeedBit, LowByte, HighBytes, ByteDown;
    var w, x := b as bv32, Xor(crc, b as bv32);
    Drop8(w);
    Drop8(HighBytes(x));
    HighBitsClear(x);
    ShiftsOfClear(HighBytes(x), 8);
    SplitStep(crc, w, LowByte(x), HighBytes(x));
  }

  lemma SplitStep(crc: bv32, w: bv32, low: bv32, high: bv32)
    requires Xor(crc, w) == Xor(low, high) && Drop(w, 8) == 0
    ensures FeedBits(crc, LowBits(w, 8)) == Xor(Shifts(high, 8), Shifts(low, 8))
  {
    hide Xor, Half, Odd, FeedBit;
    FeedLowBits(crc, w, 8);
    ShiftsLinear(low, high, 8);
    XorWithZero(FeedBits(crc, LowBits(w, 8)));
    XorMoves(Shifts(low, 8), Shifts(high, 8), 0);
  }

  lemma XorWithZero(x: bv32)
    ensures Xor(x, 0) == x
  {
  }

  lemma {:induction false} FeedConcat(r: bv32, a: seq<bool>, b: seq<bool>)
    ensures FeedBits(r, a + b) == FeedBits(FeedBits(r, a), b)
    decreases |a|
  {
    hide Xor, Half, Odd, FeedBit;
    if a == [] {
      assert a + b == b;
    } else {
      assert (a + b)[1..] == a[1..] + b;
      FeedConcat(FeedBit(r, a[0]), a[1..], b);
    }
  }

  lemma {:induction false} BitsOfConcat(a: seq<bv8>, b: seq<bv8>)
    ensures BitsOf(a + b) == BitsOf(a) + BitsOf(b)
  {
    hide LowBits, Half, Odd;
    if a == [] {
      assert a + b == b;
    } else {
      assert (a + b)[1..] == a[1..] + b;
      BitsOfConcat(a[1..], b);
      assert BitsOf(a + b) == LowBits(a[0] as bv32, 8) + (BitsOf(a[1..]) + BitsOf(b));
    }
  }

  lemma FeedOneByte(data: seq<bv8>, i: nat)
    requires i < |data|
    ensures FeedBits(ONES, BitsOf(data[..i + 1]))
         == FeedBits(FeedBits(ONES, BitsOf(data[..i])), LowBits(data[i] as bv32, 8))
  {
    hide Xor, Half, Odd, FeedBit;
    assert data[..i + 1] == data[..i] + [data[i]];
    BitsOfConcat(data[..i], [data[i]]);
    assert BitsOf([data[i]]) == LowBits(data[i] as bv32, 8);
    FeedConcat(ONES, BitsOf(data[..i]), LowBits(data[i] as bv32, 8));
  }

  /** The static table and its initialisation flag. */
  class Table {
    var entries: array<bv32>
    var initialized: bool

    ghost predicate Valid()
      reads this, entries
    {
      && entries.Length == 256
      && (initialized ==> Filled(256))
    }

    ghost predicate Filled(n: nat)
      requires n <= entries.Length <= 256
      reads this, entries
    {
      forall i :: 0 <= i < n ==> entries[i] == Entry(i)
    }

    constructor ()
      ensures Valid() && !initialized && fresh(entries)
    {
      entries := new bv32[256](_ => 0);
      initialized := false;
    }

    method Init()
      requires Valid()
      modifies this`initialized, entries
      ensures Valid() && initialized
    {
      hide Shift, Half, Odd, FeedBit, Xor;
      if initialized {
        return;
      }
      for i := 0 to 256
        invariant Filled(i)
      {
        var crc: bv32 := i as bv32;
        for j := 0 to 8
          invariant Shifts(crc, 8 - j) == Shifts(i as bv32, 8)
        {
          crc := Shift(crc);
        }
        entries[i] := crc;
      }
      initialized := true;
    }

    /** jdbx_crc32. */
    method Compute(data: seq<bv8>) returns (r: bv32)
      requires Valid()
      modifies this`initialized, entries
      ensures Valid()
      ensures r == Crc(data)
    {
      hide Xor, Half, Odd, FeedBit, Shifts, Entry, Index, LowByte, ByteDown, LowBits;
      Init();
      var crc := ONES;
      for i := 0 to |data|
        invariant Valid() && initialized
        invariant crc == FeedBits(ONES, BitsOf(data[..i]))
      {
        FeedOneByte(data, i);
        TableStep(crc, data[i]);
        crc := Xor(ByteDown(crc), entries[Index(crc, data[i])]);
      }
      assert data[..|data|] == data;
      r := Xor(crc, ONES);
    }
  }

  // ----- Every burst of at most 32 bits is detected

  /** The word whose low bits are the given ones. */
  function Word(bits: seq<bool>): bv32
    decreases |bits|
  {
    if bits == [] then 0 else Push(Word(bits[1..]), bits[0])
  }

  function Push(w: bv32, bit: bool): bv32 { (w << 1) | (if bit then 1 else 0) }

  lemma PushParts(w: bv32, bit: bool)
    ensures Odd(Push(w, bit)) == bit
    ensures w < 0x80000000 ==> Half(Push(w, bit)) == w
  {
  }

  lemma TopBit(w: bv32)
    requires Drop(w, 31) == 0
    ensures w < 0x80000000
  {
    DropTo24(w);
    var top := ByteDown(ByteDown(ByteDown(w)));
    assert Drop(w, 31) == Drop(top, 7) by { hide *; DropSplit(w, 24, 7); }
    Drop7(top);
  }

  lemma DropTo24(w: bv32)
    ensures Drop(w, 24) == ByteDown(ByteDown(ByteDown(w)))
  {
    hide Half, ByteDown;
    DropSplit(w, 8, 16);
    Drop8(w);
    DropSplit(ByteDown(w), 8, 8);
    Drop8(ByteDown(w));
    Drop8(ByteDown(ByteDown(w)));
  }

  lemma Drop7(w: bv32)
    ensures Drop(w, 7) == w >> 7
  {
    hide Half;
    Drop4(w);
    assert (w >> 4) >> 3 == w >> 7;
    DropSplit(w, 4, 3);
    Drop3(w >> 4);
  }

  lemma Drop3(w: bv32)
    ensures Drop(w, 3) == w >> 3
  {
  }

  lemma {:induction false} DropZero(n: nat)
    ensures Drop(0, n) == 0
  {
    if n > 0 {
      DropZero(n - 1);
    }
  }

  lemma {:induction false} WordBits(bits: seq<bool>)
    requires |bits| <= 32
    ensures LowBits(Word(bits), |bits|) == bits && Drop(Word(bits), |bits|) == 0
    decreases |bits|
  {
    if bits != [] {
      var tail := bits[1..];
      WordBits(tail);
      assert Word(tail) < 0x80000000 by {
        DropSplit(Word(tail), |tail|, 31 - |tail|);
        DropZero(31 - |tail|);
        TopBit(Word(tail));
      }
      PushParts(Word(tail), bits[0]);
      hide Push, Odd, Half;
    }
  }

  lemma BurstChangesRegister(r: bv32, a: seq<bool>, b: seq<bool>)
    requires |a| == |b| <= 32 && FeedBits(r, a) == FeedBits(r, b)
    ensures a == b
  {
    hide Xor, Half, Odd, FeedBit;
    WordBits(a);
    WordBits(b);
    FeedLowBits(r, Word(a), |a|);
    FeedLowBits(r, Word(b), |b|);
    ShiftsInjective(Xor(r, Word(a)), Xor(r, Word(b)), |a|);
    XorCancels(r, Word(a), Word(b));
  }

  /** Two messages of equal length that differ only inside a window of at most four bytes
      never have the same checksum. */
  lemma BurstDetected(before: seq<bv8>, a: seq<bv8>, b: seq<bv8>, after: seq<bv8>)
    requires |a| == |b| <= 4 && a != b
    ensures Crc(before + a + after) != Crc(before + b + after)
  {
    hide Xor, Half, Odd, FeedBit, LowBits, BitsOf;
    if Crc(before + a + after) == Crc(before + b + after) {
      FeedWindow(before, a, after);
      FeedWindow(before, b, after);
      var r := FeedBits(ONES, BitsOf(before));
      var ra, rb := FeedBits(r, BitsOf(a)), FeedBits(r, BitsOf(b));
      XorMoves(FeedBits(ra, BitsOf(after)), ONES, ONES);
      XorMoves(FeedBits(rb, BitsOf(after)), ONES, ONES);
      FeedBitsInjective(ra, rb, BitsOf(after));
      BurstChangesRegister(r, BitsOf(a), BitsOf(b));
      BitsOfInjective(a, b);
    }
  }

  lemma FeedWindow(before: seq<bv8>, a: seq<bv8>, after: seq<bv8>)
    ensures FeedBits(ONES, BitsOf(before + a + after))
         == FeedBits(FeedBits(FeedBits(ONES, BitsOf(before)), BitsOf(a)), BitsOf(after))
  {
    hide Xor, Half, Odd, FeedBit, LowBits, BitsOf;
    BitsOfConcat(before + a, after);
    BitsOfConcat(before, a);
    FeedConcat(ONES, BitsOf(before + a), BitsOf(after));
    FeedConcat(ONES, BitsOf(before), BitsOf(a));
  }

  lemma {:induction false} BitsOfInjective(a: seq<bv8>, b: seq<bv8>)
    requires |a| == |b| && BitsOf(a) == BitsOf(b)
    ensures a == b
  {
    if a != [] {
      assert LowBits(a[0] as bv32, 8) == BitsOf(a)[..8] == BitsOf(b)[..8] == LowBits(b[0] as bv32, 8);
      LowBitsInjective(a[0], b[0]);
      assert BitsOf(a[1..]) == BitsOf(a)[8..] == BitsOf(b)[8..] == BitsOf(b[1..]);
      BitsOfInjective(a[1..], b[1..]);
    }
  }

  lemma LowBitsInjective(a: bv8, b: bv8)
    requires LowBits(a as bv32, 8) == LowBits(b as bv32, 8)
    ensures a == b
  {
    var u, v := a as bv32, b as bv32;
    assert ByteDown(u) == 0 && ByteDown(v) == 0;
    assert u == v by {
      hide Xor, Half, Odd, ByteDown, LowBits, FeedBit;
      FeedLowBits(0, u, 8);
      FeedLowBits(0, v, 8);
      Drop8(u);
      Drop8(v);
      ShiftsInjective(Xor(0, u), Xor(0, v), 8);
      XorCancels(0, u, v);
    }
  }

  // ----- A checksum stored behind its message

  function ByteIn(w: bv32): bv8 {
    var low := LowByte(w);
    assert low < 256;
    low as bv8
  }

  /** The word as memory keeps it: least significant byte first. */
  function Stored(w: bv32): (bytes: seq<bv8>)
    ensures |bytes| == 4
  {
    [ByteIn(w), ByteIn(ByteDown(w)), ByteIn(ByteDown(ByteDown(w))), ByteIn(ByteDown(ByteDown(ByteDown(w))))]
  }

  /** The word in the first four bytes. */
  function Loaded(bytes: seq<bv8>): bv32
    requires |bytes| == 4
  {
    FourBytes(bytes[0] as bv32, bytes[1] as bv32, bytes[2] as bv32, bytes[3] as bv32)
  }

  function FourBytes(a: bv32, b: bv32, c: bv32, d: bv32): bv32 { a | (b << 8) | (c << 16) | (d << 24) }

  lemma LoadedStored(w: bv32)
    ensures Loaded(Stored(w)) == w
  {
    var b, c, d := ByteDown(w), ByteDown(ByteDown(w)), ByteDown(ByteDown(ByteDown(w)));
    ByteInIsLow(w);
    ByteInIsLow(b);
    ByteInIsLow(c);
    ByteInIsLow(d);
    assert FourBytes(LowByte(w), LowByte(b), LowByte(c), LowByte(d)) == w;
    hide *;
    StoredIs(w);
    LoadedIs(Stored(w));
  }

  lemma StoredIs(w: bv32)
    ensures Stored(w) == [ByteIn(w), ByteIn(ByteDown(w)), ByteIn(ByteDown(ByteDown(w))),
                          ByteIn(ByteDown(ByteDown(ByteDown(w))))]
  {
    hide ByteIn, ByteDown;
  }

  lemma LoadedIs(bytes: seq<bv8>)
    requires |bytes| == 4
    ensures Loaded(bytes) == FourBytes(bytes[0] as bv32, bytes[1] as bv32, bytes[2] as bv32, bytes[3] as bv32)
  {
    hide FourBytes;
  }

  lemma ByteInIsLow(w: bv32)
    ensures ByteIn(w) as bv32 == LowByte(w)
  {
  }

  lemma FirstBit(w: bv32, n: nat)
    requires n > 0
    ensures LowBits(w, n) == [Odd(w)] + LowBits(Half(w), n - 1) && Drop(w, n) == Drop(Half(w), n - 1)
  {
    hide Odd, Half;
  }

  lemma NoBits(w: bv32)
    ensures LowBits(w, 0) == [] && Drop(w, 0) == w
  {
  }

  lemma {:induction false} LowBitsSplit(w: bv32, m: nat, n: nat)
    ensures LowBits(w, m + n) == LowBits(w, m) + LowBits(Drop(w, m), n)
    decreases m
  {
    hide *;
    if m == 0 {
      NoBits(w);
    } else {
      FirstBit(w, m + n);
      FirstBit(w, m);
      LowBitsSplit(Half(w), m - 1, n);
      Regroup([Odd(w)], LowBits(Half(w), m - 1), LowBits(Drop(w, m), n));
    }
  }

  lemma {:induction false} DropXor(a: bv32, b: bv32, n: nat)
    ensures Drop(Xor(a, b), n) == Xor(Drop(a, n), Drop(b, n))
    decreases n
  {
    if n > 0 {
      XorParts(a, b);
      hide Xor, Half, Odd;
      DropXor(Half(a), Half(b), n - 1);
    }
  }

  lemma {:induction false} SameLowBits(a: bv32, b: bv32, n: nat)
    requires forall k :: 0 <= k < n ==> Odd(Drop(a, k)) == Odd(Drop(b, k))
    ensures LowBits(a, n) == LowBits(b, n)
    decreases n
  {
    hide Half, Odd;
    if n > 0 {
      assert Odd(Drop(a, 0)) == Odd(Drop(b, 0));
      forall k | 0 <= k < n - 1 ensures Odd(Drop(Half(a), k)) == Odd(Drop(Half(b), k)) {
        assert Odd(Drop(a, k + 1)) == Odd(Drop(b, k + 1));
      }
      SameLowBits(Half(a), Half(b), n - 1);
    }
  }

  lemma LowAndHigh(w: bv32)
    ensures w == Xor(LowByte(w), HighBytes(w))
  {
  }

  lemma ByteHasLowBits(w: bv32)
    ensures LowBits(ByteIn(w) as bv32, 8) == LowBits(w, 8)
  {
    ByteInIsLow(w);
    LowAndHigh(w);
    HighBitsClear(w);
    hide ByteIn, LowByte, HighBytes, Xor, Odd, Half;
    forall k | 0 <= k < 8 ensures Odd(Drop(LowByte(w), k)) == Odd(Drop(w, k)) {
      DropXor(LowByte(w), HighBytes(w), k);
      XorParts(Drop(LowByte(w), k), Drop(HighBytes(w), k));
    }
    SameLowBits(LowByte(w), w, 8);
  }

  lemma NothingLeft(w: bv32)
    ensures ByteDown(ByteDown(ByteDown(ByteDown(w)))) == 0
  {
  }

  lemma Drop32(w: bv32)
    ensures Drop(w, 32) == 0
  {
    NothingLeft(w);
    hide Half, ByteDown;
    DropTo24(w);
    DropSplit(w, 24, 8);
    Drop8(ByteDown(ByteDown(ByteDown(w))));
  }

  lemma LowBytesFirst(w: bv32)
    ensures var b, c, d := ByteDown(w), ByteDown(ByteDown(w)), ByteDown(ByteDown(ByteDown(w)));
            LowBits(w, 32) == LowBits(w, 8) + (LowBits(b, 8) + (LowBits(c, 8) + LowBits(d, 8)))
  {
    hide *;
    var b, c := ByteDown(w), ByteDown(ByteDown(w));
    Drop8(w);
    Drop8(b);
    Drop8(c);
    LowBitsSplit(w, 8, 24);
    LowBitsSplit(b, 8, 16);
    LowBitsSplit(c, 8, 8);
  }

  /** The bits of the stored word are its bits from the lowest up. */
  lemma BitsOfStored(w: bv32)
    ensures BitsOf(Stored(w)) == LowBits(w, 32)
  {
    hide *;
    var b, c, d := ByteDown(w), ByteDown(ByteDown(w)), ByteDown(ByteDown(ByteDown(w)));
    StoredIs(w);
    ByteHasLowBits(w);
    ByteHasLowBits(b);
    ByteHasLowBits(c);
    ByteHasLowBits(d);
    LowBytesFirst(w);
    BitsOfFour(ByteIn(w), ByteIn(b), ByteIn(c), ByteIn(d));
  }

  lemma BitsOfFirst(a: bv8, rest: seq<bv8>)
    ensures BitsOf([a] + rest) == LowBits(a as bv32, 8) + BitsOf(rest)
    ensures BitsOf([a]) == LowBits(a as bv32, 8)
  {
    hide LowBits;
    assert ([a] + rest)[1..] == rest && [a][1..] == [] && BitsOf([]) == [];
    assert LowBits(a as bv32, 8) + [] == LowBits(a as bv32, 8);
  }

  lemma BitsOfFour(a: bv8, b: bv8, c: bv8, d: bv8)
    ensures BitsOf([a, b, c, d]) == LowBits(a as bv32, 8) + (LowBits(b as bv32, 8) + (LowBits(c as bv32, 8)
                                                                                    + LowBits(d as bv32, 8)))
  {
    hide *;
    BitsOfFirst(a, [b, c, d]);
    BitsOfFirst(b, [c, d]);
    BitsOfFirst(c, [d]);
    BitsOfFirst(d, []);
    assert [a, b, c, d] == [a] + [b, c, d] && [b, c, d] == [b] + [c, d] && [c, d] == [c] + [d];
  }

  const RESIDUE: bv32 := 0x2144DF1C

  lemma ShiftsSplit(c: bv32, m: nat, n: nat)
    ensures Shifts(c, m + n) == Shifts(Shifts(c, m), n)
    decreases m
  {
    hide Shift;
    if m > 0 {
      ShiftsSplit(Shift(c), m - 1, n);
    }
  }

  lemma EightShifts(a: bv32, b: bv32)
    requires (a == 0xFFFFFFFF && b == 0x2DFD1072) || (a == 0x2DFD1072 && b == 0xBE26ED00)
             || (a == 0xBE26ED00 && b == 0x00BE26ED) || (a == 0x00BE26ED && b == 0xDEBB20E3)
    ensures Shifts(a, 8) == b
  {
    var a4 := Shift(Shift(Shift(Shift(a))));
    assert Shifts(a, 4) == a4 && Shifts(a4, 4) == Shift(Shift(Shift(Shift(a4))));
    assert Shift(Shift(Shift(Shift(a4)))) == b;
    ShiftsSplit(a, 4, 4);
  }

  /** What 32 steps without input make of the preset register. */
  lemma PresetShifted()
    ensures Shifts(ONES, 32) == 0xDEBB20E3
  {
    hide Shift, Shifts;
    EightShifts(0xFFFFFFFF, 0x2DFD1072);
    EightShifts(0x2DFD1072, 0xBE26ED00);
    EightShifts(0xBE26ED00, 0x00BE26ED);
    EightShifts(0x00BE26ED, 0xDEBB20E3);
    ShiftsSplit(ONES, 8, 24);
    ShiftsSplit(0x2DFD1072, 8, 16);
    ShiftsSplit(0xBE26ED00, 8, 8);
  }

  lemma Complements(r: bv32)
    ensures Xor(r, Xor(r, ONES)) == ONES && Xor(0xDEBB20E3, ONES) == RESIDUE
  {
  }

  /** The empty message has checksum 0, and every message followed by its own checksum has the checksum 0x2144DF1C:
      preset and complement are both there. */
  lemma Residue(data: seq<bv8>)
    ensures Crc([]) == 0
    ensures Crc(data + Stored(Crc(data))) == RESIDUE
  {
    assert Crc([]) == 0;
    var r := FeedBits(ONES, BitsOf(data));
    var crc := Crc(data);
    Complements(r);
    XorWithZero(FeedBits(r, LowBits(crc, 32)));
    hide Xor, Half, Odd, FeedBit, LowBits, BitsOf, Stored;
    BitsOfStored(crc);
    BitsOfConcat(data, Stored(crc));
    FeedConcat(ONES, BitsOf(data), LowBits(crc, 32));
    FeedLowBits(r, crc, 32);
    Drop32(crc);
    PresetShifted();
  }
}
