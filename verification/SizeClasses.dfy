/** Size classes of trash/buffer_pool_enterprise_duplicate.c: lines 31-34, 97-99, 324-331. */
module SizeClasses {

  const NUM_SIZE_CLASSES := 11
  const LARGE := 10  // the last class: memory mapped directly
  const SLAB_SIZE := 65536
  const HEADER := 56  // sizeof(alloc_header_t) with 8-byte pointers
  const UINT32 := 0x1_0000_0000
  const UINT64 := 0x1_0000_0000_0000_0000

  const SIZES: seq<nat> := [8, 16, 32, 64, 128, 256, 512, 1024, 2048, 4096, UINT64 - 1]

  /** Line 358: a block of a class has room for the class's size and one more header. */
  function ObjSize(c: nat): nat
    requires c < LARGE
  {
    SIZES[c] + HEADER
  }

  function BlocksPerSlab(c: nat): nat
    requires c < LARGE
  {
    SLAB_SIZE / ObjSize(c)
  }

  /** The class of a size: the smallest bound that is not exceeded. */
  ghost predicate IsClass(size: nat, c: nat) {
    && c < NUM_SIZE_CLASSES && size <= SIZES[c]
    && forall i :: 0 <= i < c ==> SIZES[i] < size
  }

  function ClassOf(size: nat): (c: nat)
    requires size < UINT64
    ensures IsClass(size, c)
  {
    if size <= 8 then 0 else if size <= 16 then 1 else if size <= 32 then 2 else if size <= 64 then 3
    else if size <= 128 then 4 else if size <= 256 then 5 else if size <= 512 then 6 else if size <= 1024 then 7
    else if size <= 2048 then 8 else if size <= 4096 then 9 else LARGE
  }

  lemma ClassIsUnique(size: nat, a: nat, b: nat)
    requires IsClass(size, a) && IsClass(size, b)
    ensures a == b
  {
  }

  /** get_size_class. */
  method GetSizeClass(size: nat) returns (c: nat)
    requires size < UINT64
    ensures c == ClassOf(size)
  {
    for i := 0 to NUM_SIZE_CLASSES
      invariant forall j :: 0 <= j < i ==> SIZES[j] < size
    {
      if size <= SIZES[i] {
        ClassIsUnique(size, i, ClassOf(size));
        return i;
      }
    }
    return NUM_SIZE_CLASSES - 1;
  }

  // ----- What the C types do to a requested size

  /** Line 184: size_t addition wraps. */
  function TotalSize(size: nat): nat { (size + HEADER) % UINT64 }

  /** Line 203: the header keeps 32 bits of the size. */
  function StoredSize(size: nat): nat { size % UINT32 }

  /** The class free computes from the header (lines 271-272) is the one alloc took the block from exactly
      for sizes that fit the header, or whose truncation still looks like a directly mapped block. */
  lemma FreedToItsClassIff(size: nat)
    requires size < UINT64
    ensures ClassOf(TotalSize(size)) == ClassOf(StoredSize(size) + HEADER)
       <==> size < UINT32 || (size < UINT64 - HEADER && size % UINT32 > 4040)
  {
    if size < UINT32 {
      assert TotalSize(size) == StoredSize(size) + HEADER;
    } else if size < UINT64 - HEADER {
      assert TotalSize(size) == size + HEADER > 4096;
    } else {
      assert TotalSize(size) == size + HEADER - UINT64 < HEADER;
      assert size - (UINT64 - UINT32) < UINT32;
      assert size % UINT32 == size - (UINT64 - UINT32);
    }
  }

  /** The user area of a block fits it exactly when the addition of the header does not wrap. */
  lemma UserAreaFitsIff(size: nat)
    requires size < UINT64
    ensures var total := TotalSize(size); var c := ClassOf(total);
            (HEADER + size <= if c < LARGE then ObjSize(c) else total) <==> size < UINT64 - HEADER
  {
    if size >= UINT64 - HEADER {
      assert TotalSize(size) == size + HEADER - UINT64 < HEADER;
    }
  }

  /** The bounds of the small classes are the powers of two from 8 to 4096. */
  lemma ClassesDouble()
    ensures SIZES[0] == 8 && SIZES[LARGE - 1] == 4096 && |SIZES| == NUM_SIZE_CLASSES
    ensures forall c :: 0 <= c < LARGE - 1 ==> SIZES[c + 1] == 2 * SIZES[c]
  {
  }

  /** A class never has room for twice the size it serves, from 9 bytes on. */
  lemma LessThanHalfIsWasted(size: nat)
    requires 8 < size <= 4096
    ensures ClassOf(size) < LARGE && size <= SIZES[ClassOf(size)] < 2 * size
  {
  }

  /** A slab is cut into as many blocks as fit. */
  lemma SlabIsFull(c: nat)
    requires c < LARGE
    ensures BlocksPerSlab(c) * ObjSize(c) <= SLAB_SIZE < (BlocksPerSlab(c) + 1) * ObjSize(c)
  {
    SlabCounts(c);
  }

  lemma SlabCounts(c: nat)
    requires c < LARGE
    ensures 2 <= BlocksPerSlab(c) && BlocksPerSlab(c) * ObjSize(c) <= SLAB_SIZE && ObjSize(c) > 0 && ObjSize(c) % 8 == 0
  {
    assert c == 0 || c == 1 || c == 2 || c == 3 || c == 4 || c == 5 || c == 6 || c == 7 || c == 8 || c == 9;
  }

  lemma SlabHasBlocks(c: nat)
    requires c < LARGE
    ensures 2 <= BlocksPerSlab(c) && ObjSize(c) > 0
  {
    SlabCounts(c);
  }
}
