/** The page allocator as the code runs it: 64-bit bitmap words, a cached count, a hint, and a
    checksummed header. trash/jdbx_page_manager_old.c, lines 53-159 and 426-554. */
module PageManager {
  import opened Bytes
  import opened Crc32
  import opened PageAllocation

  const PAGE_SIZE := 4096
  const WORDS_PER_PAGE := 512  // PAGE_SIZE / sizeof(uint64_t)
  const VERSION := 2
  const UINT64 := 0x1_0000_0000_0000_0000

  // ----- Bits of a word

  function Mask(bit: nat): bv64
    requires bit < 64
  {
    One(bit as bv7)
  }

  function One(b: bv7): bv64
    requires b < 64
  {
    1 << b
  }

  function And(x: bv64, y: bv64): bv64 { x & y }

  function Not(x: bv64): bv64 { !x }

  predicate Meets(word: bv64, mask: bv64) { And(word, mask) != 0 }

  function With(word: bv64, mask: bv64): bv64 { word | mask }

  function Without(word: bv64, mask: bv64): bv64 { And(word, Not(mask)) }

  predicate BitIn(word: bv64, bit: nat)
    requires bit < 64
  {
    Meets(word, Mask(bit))
  }

  lemma OnesDiffer(b: bv7, o: bv7)
    requires b < 64 && o < 64
    ensures Meets(One(b), One(o)) <==> b == o
  {
  }

  lemma WithMeets(word: bv64, m: bv64, k: bv64)
    ensures Meets(With(word, m), k) <==> Meets(word, k) || Meets(m, k)
  {
    Distribute(word, m, k);
    OrIsZero(word & k, m & k);
  }

  lemma Distribute(x: bv64, y: bv64, z: bv64)
    ensures (x | y) & z == (x & z) | (y & z)
  {
  }

  lemma OrIsZero(x: bv64, y: bv64)
    ensures x | y == 0 <==> x == 0 && y == 0
  {
  }

  lemma WithoutMeets(word: bv64, m: bv64, k: bv64)
    requires !Meets(m, k)
    ensures Meets(Without(word, m), k) <==> Meets(word, k)
  {
    Disjoint(m, k);
    hide And, Not;
    AndMoves(word, Not(m), k);
  }

  lemma Disjoint(m: bv64, k: bv64)
    requires And(m, k) == 0
    ensures And(k, Not(m)) == k
  {
  }

  lemma AndMoves(x: bv64, y: bv64, z: bv64)
    ensures And(And(x, y), z) == And(x, And(z, y))
  {
  }

  lemma WithoutItself(word: bv64, m: bv64)
    ensures !Meets(Without(word, m), m)
  {
  }

  lemma SameBit(bit: nat, other: nat)
    requires bit < 64 && other < 64
    ensures (bit as bv7) == (other as bv7) <==> bit == other
  {
    ThereAndBack(bit);
    ThereAndBack(other);
  }

  lemma ThereAndBack(bit: nat)
    requires bit < 64
    ensures (bit as bv7) as int == bit
  {
  }

  lemma SetBit(word: bv64, bit: nat, other: nat)
    requires bit < 64 && other < 64
    ensures BitIn(With(word, Mask(bit)), other) <==> BitIn(word, other) || other == bit
  {
    hide One, Meets, With;
    SameBit(bit, other);
    OnesDiffer(bit as bv7, other as bv7);
    WithMeets(word, Mask(bit), Mask(other));
  }

  lemma ClearBit(word: bv64, bit: nat, other: nat)
    requires bit < 64 && other < 64
    ensures BitIn(Without(word, Mask(bit)), other) <==> BitIn(word, other) && other != bit
  {
    hide One, Meets, Without;
    SameBit(bit, other);
    OnesDiffer(bit as bv7, other as bv7);
    if other != bit {
      WithoutMeets(word, Mask(bit), Mask(other));
    } else {
      WithoutItself(word, Mask(bit));
    }
  }

  const ALL_ONES: bv64 := 0xFFFF_FFFF_FFFF_FFFF

  lemma ConstantWords(bit: nat)
    requires bit < 64
    ensures BitIn(ALL_ONES, bit) && !BitIn(0, bit)
  {
  }

  // ----- The header page

  const MAGIC: seq<bv8> := [0x4A, 0x44, 0x42, 0x58]  // "JDBX"

  /** The last fields; the five wal_* fields, which this code never sets, are zero. */
  function LastFields(transaction: nat, checkpoint: nat): (bytes: seq<bv8>)
    ensures |bytes| == 64
  {
    LittleEndian(1, 8) + (LittleEndian(transaction, 8) + (LittleEndian(checkpoint, 8) + seq(40, _ => 0)))
  }

  /** The fields after the page size. */
  function HeaderFields(total: nat, free: nat, root: nat, transaction: nat, checkpoint: nat): (bytes: seq<bv8>)
    ensures |bytes| == 88
  {
    LittleEndian(total, 8) + (LittleEndian(free, 8) + (LittleEndian(root, 8) + LastFields(transaction, checkpoint)))
  }

  /** The bytes before the checksum field, in field order. */
  function HeaderPrefix(total: nat, free: nat, root: nat, transaction: nat, checkpoint: nat): (bytes: seq<bv8>)
    ensures |bytes| == 100
  {
    MAGIC + LittleEndian(VERSION, 4)
    + (LittleEndian(PAGE_SIZE, 4) + HeaderFields(total, free, root, transaction, checkpoint))
  }

  /** What jdbx_open checks of the header (lines 296-346). */
  predicate OpenAccepts(prefix: seq<bv8>, checksum: bv32) {
    |prefix| == 100 && prefix[..4] == MAGIC && prefix[4..8] == LittleEndian(VERSION, 4) && Crc(prefix) == checksum
  }

  lemma FreshHeaderOpens(total: nat, free: nat, root: nat, transaction: nat, checkpoint: nat)
    ensures var prefix := HeaderPrefix(total, free, root, transaction, checkpoint);
            OpenAccepts(prefix, Crc(prefix))
  {
    var fields := LittleEndian(PAGE_SIZE, 4) + HeaderFields(total, free, root, transaction, checkpoint);
    hide Crc, HeaderFields, LittleEndian;
    var version := LittleEndian(VERSION, 4);
    assert (MAGIC + version + fields)[..4] == MAGIC && (MAGIC + version + fields)[4..8] == version;
  }

  /** What open checks, in the header's own terms. */
  lemma OpenRequires(prefix: seq<bv8>, checksum: bv32)
    requires OpenAccepts(prefix, checksum)
    ensures |prefix| == 100 && prefix[..4] == [0x4A, 0x44, 0x42, 0x58]
    ensures Value(prefix[4..8]) == 2 && checksum == Crc(prefix)
  {
    hide Crc;
    assert Pow256(4) == 0x1_0000_0000;
    RoundTrip(2, 4);
    hide Value, LittleEndian;
  }

  lemma ThreeNumbers(before: seq<bv8>, a: nat, b: nat, c: nat, after: seq<bv8>)
    requires a < UINT64 && b < UINT64 && c < UINT64
    ensures var n := |before|;
            var bytes := before + (LittleEndian(a, 8) + (LittleEndian(b, 8) + (LittleEndian(c, 8) + after)));
            Value(bytes[n..n + 8]) == a && Value(bytes[n + 8..n + 16]) == b && Value(bytes[n + 16..n + 24]) == c
  {
    Widths();
    assert |LittleEndian(a, 8)| == |LittleEndian(b, 8)| == 8;
    hide LittleEndian, Value, Pow256;
    var last := LittleEndian(c, 8) + after;
    ReadsBack(before, a, 8, LittleEndian(b, 8) + last);
    TwoReadBack(before + LittleEndian(a, 8), b, c, after);
  }

  /** Every field of the header is read back from its place in jdbx_header_t. */
  lemma HeaderReadsBack(total: nat, free: nat, root: nat, transaction: nat, checkpoint: nat)
    requires total < UINT64 && free < UINT64 && root < UINT64 && transaction < UINT64 && checkpoint < UINT64
    ensures var prefix := HeaderPrefix(total, free, root, transaction, checkpoint);
            && Value(prefix[8..12]) == PAGE_SIZE && Value(prefix[12..20]) == total && Value(prefix[20..28]) == free
            && Value(prefix[28..36]) == root && Value(prefix[36..44]) == 1
            && Value(prefix[44..52]) == transaction && Value(prefix[52..60]) == checkpoint
  {
    var prefix, last := HeaderPrefix(total, free, root, transaction, checkpoint), LastFields(transaction, checkpoint);
    var first, size := MAGIC + LittleEndian(VERSION, 4), LittleEndian(PAGE_SIZE, 4);
    var a, b, c := LittleEndian(total, 8), LittleEndian(free, 8), LittleEndian(root, 8);
    var zeros: seq<bv8> := seq(40, _ => 0);
    assert prefix == first + (size + (a + (b + (c + last))));
    assert last == LittleEndian(1, 8) + (LittleEndian(transaction, 8) + (LittleEndian(checkpoint, 8) + zeros));
    assert |first| == 8 && |first + size| == 12 && |first + size + a + b + c| == 36 && |prefix| == 100;
    hide *;
    Widths();
    ReadsBack(first, PAGE_SIZE, 4, a + (b + (c + last)));
    Regroup(first, size, a + (b + (c + last)));
    ThreeNumbers(first + size, total, free, root, last);
    Regroup(first + size, a, b + (c + last));
    Regroup(first + size + a, b, c + last);
    Regroup(first + size + a + b, c, last);
    ThreeNumbers(first + size + a + b + c, 1, transaction, checkpoint, zeros);
  }

  lemma BitmapIsSmallest(total: nat)
    requires total > 0
    ensures (BitmapPages(total) - 1) * WORDS_PER_PAGE * 64 < total
  {
  }

  /** A header that opens no longer opens once a window of at most four bytes before the checksum is changed. */
  lemma DamagedHeaderRefused(before: seq<bv8>, a: seq<bv8>, b: seq<bv8>, after: seq<bv8>, checksum: bv32)
    requires OpenAccepts(before + a + after, checksum)
    requires |a| == |b| <= 4 && a != b
    ensures !OpenAccepts(before + b + after, checksum)
  {
    BurstDetected(before, a, b, after);
  }

  function BitmapPages(total: nat): nat { (total + PAGE_SIZE * 8 - 1) / (PAGE_SIZE * 8) }

  lemma BitmapCovers(total: nat)
    requires total >= 100
    ensures 0 < BitmapPages(total) <= total - 3 && total <= BitmapPages(total) * WORDS_PER_PAGE * 64
  {
  }

  lemma InitialInv(total: nat, pages: nat)
    requires 0 < pages <= total - 3 && total <= pages * WORDS_PER_PAGE * 64
    ensures Inv(Pages(Below(pages + 2), total, total - 1 - pages - 1, 0, 1 + pages, pages * WORDS_PER_PAGE))
  {
  }

  datatype PageHeader = PageHeader(kind: nat, pageId: nat, transaction: nat)

  const DIRECTORY := 3  // PAGE_TYPE_DIRECTORY

  class Manager {
    var bitmap: array<bv64>
    var bitmapPages: nat
    var totalPages: nat
    var freePages: nat
    var rootDirectoryPage: nat
    var transactionId: nat
    var lastCheckpoint: nat
    var checksum: bv32
    var hintPage: nat
    var headers: map<nat, PageHeader>  // the header at the start of each page that was initialised
    const crc: Table

    predicate Bit(p: nat)
      requires p / 64 < bitmap.Length
      reads this`bitmap, bitmap
    {
      BitIn(bitmap[p / 64], p % 64)
    }

    ghost function Used(): set<nat>
      requires totalPages <= bitmap.Length * 64
      reads this`bitmap, this`totalPages, bitmap
    {
      set p: nat | p < totalPages && Bit(p)
    }

    ghost predicate Shape()
      reads this, bitmap, crc, crc.entries
    {
      && bitmap.Length == bitmapPages * WORDS_PER_PAGE
      && totalPages <= bitmap.Length * 64
      && 0 < bitmap.Length
      && crc.Valid()
    }

    ghost function View(): Pages
      requires totalPages <= bitmap.Length * 64
      reads this`bitmap, this`totalPages, this`freePages, this`hintPage, this`rootDirectoryPage, bitmap
    {
      Pages(Used(), totalPages, freePages, hintPage, rootDirectoryPage, bitmap.Length)
    }

    /** Bits past the end of the file are clear, and the header a later open reads is accepted. */
    ghost predicate Consistent()
      requires Shape()
      reads this, bitmap, crc, crc.entries
    {
      && (forall p: nat :: totalPages <= p < bitmap.Length * 64 ==> !Bit(p))
      && OpenAccepts(Prefix(), checksum)
      && 1 + bitmapPages == rootDirectoryPage
    }

    ghost predicate Valid()
      reads this, bitmap, crc, crc.entries
    {
      Shape() && Consistent() && Inv(View())
    }

    function Prefix(): seq<bv8>
      reads this
    {
      HeaderPrefix(totalPages, freePages, rootDirectoryPage, transactionId, lastCheckpoint)
    }

    method UpdateHeaderChecksum()
      requires crc.Valid()
      modifies this`checksum, crc`initialized, crc.entries
      ensures crc.Valid()
      ensures OpenAccepts(Prefix(), checksum)
    {
      hide OpenAccepts, HeaderPrefix, Crc;
      checksum := 0;
      checksum := crc.Compute(Prefix());
      FreshHeaderOpens(totalPages, freePages, rootDirectoryPage, transactionId, lastCheckpoint);
    }

    /** jdbx_create, init_new_file: the reserved pages are marked, and nothing else is. */
    constructor (initialSize: nat, table: Table)
      requires table.Valid()
      modifies table`initialized, table.entries
      ensures Valid() && crc == table && fresh(bitmap)
      ensures totalPages == if initialSize / PAGE_SIZE < 100 then 100 else initialSize / PAGE_SIZE
      ensures Used() == Below(BitmapPages(totalPages) + 2)
      ensures hintPage == 0 && transactionId == 1 && lastCheckpoint == 1
      ensures headers == map[rootDirectoryPage := PageHeader(DIRECTORY, rootDirectoryPage, 1)]
    {
      hide BitIn, OpenAccepts, HeaderPrefix, BitmapPages, Inv, Below, Crc, Table.Valid;
      crc := table;
      var total := initialSize / PAGE_SIZE;
      if total < 100 {
        total := 100;
      }
      BitmapCovers(total);
      var pages := BitmapPages(total);
      totalPages := total;
      transactionId := 1;
      lastCheckpoint := 1;
      rootDirectoryPage := 1 + pages;
      freePages := total - 1 - pages - 1;
      bitmapPages := pages;
      bitmap := new bv64[pages * WORDS_PER_PAGE](_ => 0);
      hintPage := 0;
      headers := map[];
      new;
      Format(pages);
    }

    /** Lines 124-148: the checksum, the bits of the reserved pages, and the root directory. */
    method Format(pages: nat)
      requires 0 < pages <= totalPages - 3 && totalPages <= pages * WORDS_PER_PAGE * 64 && crc.Valid()
      requires bitmapPages == pages && bitmap.Length == pages * WORDS_PER_PAGE && rootDirectoryPage == 1 + pages
      requires freePages == totalPages - 1 - pages - 1 && hintPage == 0 && headers == map[]
      requires forall w :: 0 <= w < bitmap.Length ==> bitmap[w] == 0
      modifies this`checksum, this`headers, bitmap, crc`initialized, crc.entries
      ensures Valid() && Used() == Below(pages + 2)
      ensures headers == map[rootDirectoryPage := PageHeader(DIRECTORY, rootDirectoryPage, transactionId)]
    {
      hide BitIn, OpenAccepts, HeaderPrefix, BitmapPages, Inv, Below, Crc, Table.Valid;
      InitialInv(totalPages, pages);
      UpdateHeaderChecksum();
      MarkReserved(1 + pages + 1);
      assert Used() == Below(pages + 2);
      headers := map[rootDirectoryPage := PageHeader(DIRECTORY, rootDirectoryPage, transactionId)];
    }

    /** Lines 132-137: set the first n bits of a clear bitmap. */
    method MarkReserved(n: nat)
      requires n <= bitmap.Length * 64 && forall w :: 0 <= w < bitmap.Length ==> bitmap[w] == 0
      modifies bitmap
      ensures forall p: nat :: p < bitmap.Length * 64 ==> (Bit(p) <==> p < n)
    {
      hide BitIn;
      forall p: nat | p < bitmap.Length * 64 ensures !Bit(p) { ConstantWords(p % 64); }
      for i := 0 to n
        invariant forall p: nat :: p < bitmap.Length * 64 ==> (Bit(p) <==> p < i)
      {
        SetBitmapBit(i);
      }
    }

    method SetBitmapBit(page: nat)
      requires page / 64 < bitmap.Length
      modifies bitmap
      ensures forall p: nat :: p < bitmap.Length * 64 ==> (Bit(p) <==> old(Bit(p)) || p == page)
    {
      hide BitIn, Mask, With;
      var word := bitmap[page / 64];
      bitmap[page / 64] := With(word, Mask(page % 64));
      forall p: nat | p < bitmap.Length * 64 ensures Bit(p) <==> old(Bit(p)) || p == page {
        SetBit(word, page % 64, p % 64);
      }
    }

    /** Lines 435-448: the lowest free page whose bit is in one word. */
    method ScanWord(idx: nat) returns (found: bool, page: nat)
      requires Shape() && idx < bitmap.Length
      ensures found ==> IsFree(View(), page) && page / 64 == idx
      ensures found ==> forall q: nat :: IsFree(View(), q) && q / 64 == idx ==> page % 64 <= q % 64
      ensures !found ==> forall q: nat :: IsFree(View(), q) ==> q / 64 != idx
    {
      hide BitIn;
      var word := bitmap[idx];
      if word != ALL_ONES {
        for bit := 0 to 64
          invariant forall q: nat :: IsFree(View(), q) && q / 64 == idx ==> q % 64 >= bit
        {
          if !BitIn(word, bit) {
            var pageId := idx * 64 + bit;
            if pageId < totalPages {
              return true, pageId;
            }
          }
        }
      }
      forall q: nat | IsFree(View(), q) ensures q / 64 != idx { ConstantWords(q % 64); }
      return false, 0;
    }

    /** find_free_page: 0 exactly when no page is free, and otherwise the next fit. */
    method FindFreePage() returns (page: nat)
      requires Valid()
      modifies this`hintPage
      ensures Valid() && View() == old(View()).(hint := hintPage)
      ensures if Full(old(View())) then page == 0 && hintPage == old(hintPage)
              else NextFit(old(View()), page) && hintPage == page + 1
    {
      hide BitIn, OpenAccepts, HeaderPrefix, Below, NextFit, Rank, Turn, Inv, Crc;
      ghost var s := View();
      HintIsFree(s);
      var words := bitmapPages * PAGE_SIZE / 8;
      assert words == bitmap.Length;
      var start := hintPage / 64;
      StartOfTurns(s);
      for i := 0 to words
        invariant View() == s
        invariant forall q: nat :: IsFree(s, q) ==> Turn(s, q / 64) >= i
      {
        var idx := (start + i) % words;
        TurnsAreWords(s, i);
        var found, pageId := ScanWord(idx);
        if found {
          FirstInWord(s, i, pageId);
          hintPage := pageId + 1;
          return pageId;
        }
      }
      forall q: nat ensures !IsFree(s, q) { AllTurns(s, q); }
      return 0;
    }

    /** jdbx_alloc_page. `grows` says whether ftruncate and mremap would succeed if they are needed. */
    method AllocPage(kind: nat, grows: bool) returns (page: nat)
      requires Valid() && SafeToAlloc(View(), grows)
      modifies this, bitmap, crc`initialized, crc.entries
      ensures Valid() && bitmap == old(bitmap)
      ensures AllocStep(old(View()), View(), grows, page)
      ensures lastCheckpoint == old(lastCheckpoint)
      ensures transactionId == if page == 0 then old(transactionId) else (old(transactionId) + 1) % UINT64
      ensures headers == if page == 0 then old(headers) else old(headers)[page := PageHeader(kind, page, transactionId)]
    {
      hide BitIn, OpenAccepts, HeaderPrefix, Below, NextFit, Inv, Bit;
      ghost var s := View();
      page := FindFreePage();
      UsablePages(s);
      if page == 0 {
        if !grows {
          return;
        }
        page := totalPages;
        Extend();
      }
      Take(page, kind);
    }

    /** Lines 460-501: the file grows by a tenth, and by at least 100 pages. */
    method Extend()
      requires Valid() && totalPages + Growth(totalPages) <= bitmap.Length * 64
      modifies this`totalPages, this`freePages, this`checksum, crc`initialized, crc.entries
      ensures Valid()
      ensures View() == old(View()).(total := old(totalPages) + Growth(old(totalPages)),
                                     free := old(freePages) + Growth(old(totalPages)))
    {
      hide BitIn, OpenAccepts, HeaderPrefix, Below, Crc;
      var newPages := totalPages / 10;
      if newPages < 100 {
        newPages := 100;
      }
      totalPages := totalPages + newPages;
      freePages := freePages + newPages;
      UpdateHeaderChecksum();
      assert Used() == old(Used());
    }

    /** Lines 504-520: mark the page, count it, start a transaction, and write its page header. */
    method Take(page: nat, kind: nat)
      requires Valid() && IsFree(View(), page)
      modifies this`freePages, this`transactionId, this`checksum, this`headers, bitmap, crc`initialized, crc.entries
      ensures Valid() && freePages + 1 == old(freePages)
      ensures View() == old(View()).(used := old(Used()) + {page}, free := freePages)
      ensures transactionId == (old(transactionId) + 1) % UINT64
      ensures headers == old(headers)[page := PageHeader(kind, page, transactionId)]
    {
      hide BitIn, OpenAccepts, HeaderPrefix, Below, Crc, Inv;
      TakingKeepsInv(View(), page);
      SetBitmapBit(page);
      freePages := freePages - 1;
      transactionId := (transactionId + 1) % UINT64;
      UpdateHeaderChecksum();
      headers := headers[page := PageHeader(kind, page, transactionId)];
      assert Used() == old(Used()) + {page};
    }

    /** jdbx_free_page. It never checks its argument against the bitmap, so it keeps the manager valid
        exactly when the page is in use and not reserved (or the id is out of range and ignored). */
    method FreePage(page: nat)
      requires Valid()
      modifies this`freePages, this`hintPage, this`checksum, bitmap, crc`initialized, crc.entries
      ensures FreeStep(old(View()), View(), page)
      ensures Shape() && Consistent()
      ensures Valid() <==> SafeToFree(old(View()), page)
    {
      hide BitIn, OpenAccepts, HeaderPrefix, Below, Inv, Crc;
      ghost var s := View();
      if page == 0 || page >= totalPages {
        FreeKeepsInvIff(s, s, page);
        return;
      }
      ClearBitmapBit(page);
      freePages := freePages + 1;
      UpdateHeaderChecksum();
      if page < hintPage {
        hintPage := page;
      }
      assert Used() == s.used - {page};
      FreeKeepsInvIff(s, View(), page);
    }

    method ClearBitmapBit(page: nat)
      requires page / 64 < bitmap.Length
      modifies bitmap
      ensures forall p: nat :: p < bitmap.Length * 64 ==> (Bit(p) <==> old(Bit(p)) && p != page)
    {
      hide BitIn, Mask, Without;
      var word := bitmap[page / 64];
      bitmap[page / 64] := Without(word, Mask(page % 64));
      forall p: nat | p < bitmap.Length * 64 ensures Bit(p) <==> old(Bit(p)) && p != page {
        ClearBit(word, page % 64, p % 64);
      }
    }

    /** The header part of jdbx_checkpoint (lines 645-647). */
    method MarkCheckpoint()
      requires Valid()
      modifies this`lastCheckpoint, this`checksum, crc`initialized, crc.entries
      ensures Valid() && View() == old(View()) && lastCheckpoint == transactionId
    {
      hide BitIn, OpenAccepts, HeaderPrefix, Below, Inv, Crc;
      lastCheckpoint := transactionId;
      UpdateHeaderChecksum();
    }
  }

  lemma UsablePages(s: Pages)
    requires Inv(s)
    ensures s.total > 0 && s.words > 0 && forall p: nat :: NextFit(s, p) ==> IsFree(s, p) && p != 0
  {
  }

  lemma HintIsFree(s: Pages)
    requires Inv(s)
    ensures s.words > 0 && s.total <= s.words * 64 && forall h: nat :: Inv(s.(hint := h))
  {
  }

  lemma TakingKeepsInv(s: Pages, p: nat)
    requires Inv(s) && IsFree(s, p)
    ensures s.free > 0 && Inv(s.(used := s.used + {p}, free := s.free - 1))
  {
    CountDecides(s);
  }

  lemma StartOfTurns(s: Pages)
    requires s.words > 0
    ensures forall w: nat :: w < s.words ==> 0 <= Turn(s, w) < s.words
  {
  }

  lemma ModUnique(x: nat, n: nat, k: nat, r: nat)
    requires 0 < n && x == k * n + r && r < n
    ensures x % n == r
  {
    var q := x / n;
    assert x == q * n + x % n;
    MulMonotone(q + 1, k, n);
    MulMonotone(k + 1, q, n);
  }

  lemma MulMonotone(a: nat, b: nat, n: nat)
    ensures a <= b ==> a * n <= b * n
  {
  }

  /** The word visited in round i is the one whose turn is i. */
  lemma TurnsAreWords(s: Pages, i: nat)
    requires i < s.words
    ensures var idx := (s.hint / 64 + i) % s.words;
            Turn(s, idx) == i && forall w: nat :: w < s.words && Turn(s, w) == i ==> w == idx
  {
    CircularIndex(s.hint / 64, s.words, i);
  }

  lemma CircularIndex(h: nat, n: nat, i: nat)
    requires i < n
    ensures (h + i) % n == if h % n + i < n then h % n + i else h % n + i - n
  {
    var start, k := h % n, h / n;
    assert h == k * n + start;
    if start + i < n {
      ModUnique(h + i, n, k, start + i);
    } else {
      ModUnique(h + i, n, k + 1, start + i - n);
    }
  }

  lemma FirstInWord(s: Pages, i: nat, p: nat)
    requires i < s.words && IsFree(s, p) && p / 64 == (s.hint / 64 + i) % s.words && s.total <= s.words * 64
    requires forall q: nat :: IsFree(s, q) ==> Turn(s, q / 64) >= i
    requires forall q: nat :: IsFree(s, q) && q / 64 == p / 64 ==> q % 64 >= p % 64
    ensures NextFit(s, p)
  {
    TurnsAreWords(s, i);
    hide Turn;
    forall q: nat | IsFree(s, q) ensures Rank(s, p) <= Rank(s, q) {
      if Turn(s, q / 64) == i {
        assert q / 64 == p / 64;
      }
    }
  }

  lemma AllTurns(s: Pages, q: nat)
    requires s.words > 0 && s.total <= s.words * 64
    requires forall q: nat :: IsFree(s, q) ==> Turn(s, q / 64) >= s.words
    ensures !IsFree(s, q)
  {
    StartOfTurns(s);
  }
}
