/** Numbers as the packed structures of src/include/storage/jdbx.h store them: little-endian bytes. */
module Bytes {

  /** The byte of value n. */
  function ByteOf(n: nat): (b: bv8)
    requires n < 256
    ensures b as int == n
  {
    if n == 0 then 0 else ByteOf(n - 1) + 1
  }

  function LittleEndian(n: nat, width: nat): (bytes: seq<bv8>)
    ensures |bytes| == width
  {
    if width == 0 then [] else [ByteOf(n % 256)] + LittleEndian(n / 256, width - 1)
  }

  function Value(bytes: seq<bv8>): nat {
    if bytes == [] then 0 else (bytes[0] as int) + 256 * Value(bytes[1..])
  }

  function Pow256(width: nat): nat { if width == 0 then 1 else 256 * Pow256(width - 1) }

  lemma {:induction false} RoundTrip(n: nat, width: nat)
    requires n < Pow256(width)
    ensures Value(LittleEndian(n, width)) == n
  {
    if width > 0 {
      RoundTrip(n / 256, width - 1);
      assert LittleEndian(n, width)[1..] == LittleEndian(n / 256, width - 1);
    }
  }

  lemma Regroup<T>(a: seq<T>, b: seq<T>, c: seq<T>)
    ensures a + (b + c) == a + b + c
  {
  }

  lemma Parts<T>(a: seq<T>, b: seq<T>)
    ensures (a + b)[..|a|] == a && (a + b)[|a|..] == b
  {
  }

  lemma Middle<T>(a: seq<T>, b: seq<T>, c: seq<T>)
    ensures (a + (b + c))[|a|..|a| + |b|] == b
  {
  }

  /** A number is read back from where its bytes start, whatever stands before and after. */
  lemma ReadsBack(before: seq<bv8>, n: nat, width: nat, after: seq<bv8>)
    requires n < Pow256(width)
    ensures var bytes := before + (LittleEndian(n, width) + after);
            Value(bytes[|before|..|before| + width]) == n && bytes == before + LittleEndian(n, width) + after
  {
    assert |LittleEndian(n, width)| == width;
    hide *;
    RoundTrip(n, width);
    Middle(before, LittleEndian(n, width), after);
    Regroup(before, LittleEndian(n, width), after);
  }

  lemma Widths()
    ensures Pow256(4) == 0x1_0000_0000 && Pow256(8) == 0x1_0000_0000_0000_0000
  {
  }

  /** The same, for two numbers of 8 bytes that follow each other. */
  lemma TwoReadBack(before: seq<bv8>, a: nat, b: nat, after: seq<bv8>)
    requires a < Pow256(8) && b < Pow256(8)
    ensures var bytes, n := before + (LittleEndian(a, 8) + (LittleEndian(b, 8) + after)), |before|;
            Value(bytes[n..n + 8]) == a && Value(bytes[n + 8..n + 16]) == b
  {
    assert |LittleEndian(a, 8)| == 8;
    hide LittleEndian, Value, Pow256;
    ReadsBack(before, a, 8, LittleEndian(b, 8) + after);
    ReadsBack(before + LittleEndian(a, 8), b, 8, after);
  }
}
