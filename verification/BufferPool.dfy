/** The slab allocator of trash/buffer_pool_enterprise_duplicate.c, lines 173-432. Memory is a map from
    block addresses to what the block's header holds; the first eight bytes of a header hold either the
    magic number and the size, or, in a free block, the link of its free list. */
module BufferPool {
  import opened SizeClasses

  type Addr = nat  // 0 is NULL

  const MAGIC_ALLOCATED: nat := 0xDEADBEEF
  const MAGIC_FREED: nat := 0xFEEDFACE
  const CANARY_VALUE: nat := 0xCAFEBABEDEADC0DE

  /** The first eight bytes of a block, as last written. */
  datatype Word = Link(next: Addr) | Sized(magic: nat, size: nat)

  /** What a 32-bit read of the magic field returns. */
  function MagicField(w: Word): nat {
    match w
    case Link(next) => next % UINT32
    case Sized(magic, _) => magic
  }

  // ----- A free list, as linked words

  ghost predicate Chain(head: Addr, words: map<Addr, Word>, list: seq<Addr>) {
    && (list == [] ==> head == 0)
    && (list != [] ==> head == list[0])
    && (forall k :: 0 <= k < |list| ==> list[k] != 0 && list[k] in words)
    && (forall k :: 0 <= k < |list| - 1 ==> words[list[k]] == Link(list[k + 1]))
    && (list != [] ==> words[list[|list| - 1]] == Link(0))
  }

  ghost predicate NoDups(s: seq<Addr>) { forall i, j :: 0 <= i < j < |s| ==> s[i] != s[j] }

  lemma ChainElsewhere(head: Addr, words: map<Addr, Word>, list: seq<Addr>, a: Addr, w: Word)
    requires Chain(head, words, list) && a !in list
    ensures Chain(head, words[a := w], list)
  {
  }

  lemma ChainPush(head: Addr, words: map<Addr, Word>, list: seq<Addr>, a: Addr)
    requires Chain(head, words, list) && a !in list && a != 0
    ensures Chain(a, words[a := Link(head)], [a] + list)
  {
  }

  lemma ChainPop(head: Addr, words: map<Addr, Word>, list: seq<Addr>)
    requires Chain(head, words, list) && list != []
    ensures head in words && words[head].Link? && Chain(words[head].next, words, list[1..])
  {
    if |list| > 1 {
      assert words[list[0]] == Link(list[1]);
    }
  }

  lemma NoDupsPush(list: seq<Addr>, a: Addr)
    requires NoDups(list) && a !in list
    ensures NoDups([a] + list)
  {
  }

  // ----- The blocks of a slab

  function BlockAt(base: Addr, obj: nat, i: nat): Addr { base + i * obj }

  function Carved(base: Addr, obj: nat, from: nat, end: nat): (list: seq<Addr>)
    requires from <= end
    ensures |list| == end - from
    ensures forall k :: 0 <= k < |list| ==> list[k] == BlockAt(base, obj, from + k)
    decreases end - from
  {
    if from == end then [] else [BlockAt(base, obj, from)] + Carved(base, obj, from + 1, end)
  }

  lemma BlocksApart(base: Addr, obj: nat, i: nat, j: nat)
    requires i < j
    ensures BlockAt(base, obj, i) + obj <= BlockAt(base, obj, j)
  {
    assert (i + 1) * obj <= j * obj by { MulMonotone(i + 1, j, obj); }
  }

  lemma MulMonotone(a: nat, b: nat, n: nat)
    requires a <= b
    ensures a * n <= b * n
  {
  }

  // ----- Where blocks lie

  /** A block: its size class, its length, and the mapping it lies in. */
  datatype Block = Block(class_: nat, len: nat, home: Addr)

  /** All blocks by address, and all memory mappings with their lengths. */
  datatype Layout = Layout(blocks: map<Addr, Block>, mapped: map<Addr, nat>)

  predicate Disjoint(a: nat, aLen: nat, b: nat, bLen: nat) { a + aLen <= b || b + bLen <= a }

  ghost predicate Apart(blocks: map<Addr, Block>) {
    forall a, b :: a in blocks && b in blocks && a != b ==> Disjoint(a, blocks[a].len, b, blocks[b].len)
  }

  ghost predicate Inside(a: Addr, b: Block, mapped: map<Addr, nat>) {
    && 0 < a && a % 8 == 0 && b.len > 0
    && b.home in mapped && b.home <= a && a + b.len <= b.home + mapped[b.home]
    && b.class_ <= LARGE
    && (b.class_ < LARGE ==> b.len == ObjSize(b.class_))
    && (b.class_ == LARGE ==> b.home == a)
  }

  ghost predicate LayoutOk(g: Layout) {
    && (forall a :: a in g.blocks ==> Inside(a, g.blocks[a], g.mapped))
    && (forall a, b ::
          a in g.blocks && b in g.blocks && g.blocks[a].class_ == LARGE && g.blocks[b].home == a ==> b == a)
    && Apart(g.blocks)
  }

  /** What mmap promises of the address it returns: page aligned, and outside every live mapping. */
  ghost predicate FreshMapping(g: Layout, base: Addr, len: nat) {
    && 0 < base && base % 4096 == 0 && base !in g.mapped
    && forall m :: m in g.mapped ==> Disjoint(m, g.mapped[m], base, len)
  }

  function AddLarge(g: Layout, base: Addr, len: nat): Layout {
    Layout(g.blocks[base := Block(LARGE, len, base)], g.mapped[base := len])
  }

  function RemoveLarge(g: Layout, base: Addr): Layout {
    Layout(g.blocks - {base}, g.mapped - {base})
  }

  function SlabBlocks(base: Addr, c: nat): map<Addr, Block>
    requires c < LARGE
  {
    map a | a in Carved(base, ObjSize(c), 0, BlocksPerSlab(c)) :: Block(c, ObjSize(c), base)
  }

  function AddSlab(g: Layout, base: Addr, c: nat): Layout
    requires c < LARGE
  {
    Layout(g.blocks + SlabBlocks(base, c), g.mapped[base := SLAB_SIZE])
  }

  lemma OutsideOld(g: Layout, base: Addr, len: nat, a: Addr, n: nat)
    requires LayoutOk(g) && FreshMapping(g, base, len) && base <= a && a + n <= base + len && n > 0
    ensures a !in g.blocks && forall b :: b in g.blocks ==> Disjoint(a, n, b, g.blocks[b].len)
  {
    forall b | b in g.blocks ensures Disjoint(a, n, b, g.blocks[b].len) {
      assert Inside(b, g.blocks[b], g.mapped);
      assert Disjoint(g.blocks[b].home, g.mapped[g.blocks[b].home], base, len);
    }
  }

  ghost predicate NewBlocks(news: map<Addr, Block>, base: Addr, len: nat) {
    && (forall a :: a in news ==> Inside(a, news[a], map[base := len]) && news[a].home == base)
    && Apart(news)
    && ((forall a :: a in news ==> news[a].class_ < LARGE) || news.Keys == {base})
  }

  /** New blocks inside a fresh mapping keep the layout sound. */
  lemma AddBlocksOk(g: Layout, news: map<Addr, Block>, base: Addr, len: nat)
    requires LayoutOk(g) && FreshMapping(g, base, len) && NewBlocks(news, base, len)
    ensures forall a :: a in news ==> a !in g.blocks
    ensures LayoutOk(Layout(g.blocks + news, g.mapped[base := len]))
  {
    OldInside(g, base, len);
    NewInside(g, news, base, len);
    AllApart(g, news, base, len);
    forall a, b | a in g.blocks + news && b in g.blocks + news && (g.blocks + news)[a].class_ == LARGE
                  && (g.blocks + news)[b].home == a ensures b == a {
      OwnHome(g, news, base, len, a, b);
    }
    hide Inside, Apart, FreshMapping, NewBlocks;
  }

  lemma AllApart(g: Layout, news: map<Addr, Block>, base: Addr, len: nat)
    requires LayoutOk(g) && FreshMapping(g, base, len) && NewBlocks(news, base, len)
    ensures forall a :: a in news ==> a !in g.blocks
    ensures Apart(g.blocks + news)
  {
    forall a | a in news
      ensures a !in g.blocks && forall b :: b in g.blocks ==> Disjoint(a, news[a].len, b, g.blocks[b].len)
    {
      OutsideOld(g, base, len, a, news[a].len);
    }
    hide Inside, FreshMapping;
  }

  lemma OwnHome(g: Layout, news: map<Addr, Block>, base: Addr, len: nat, a: Addr, b: Addr)
    requires LayoutOk(g) && FreshMapping(g, base, len) && NewBlocks(news, base, len)
    requires forall x :: x in news ==> x !in g.blocks
    requires a in g.blocks + news && b in g.blocks + news
    requires (g.blocks + news)[a].class_ == LARGE && (g.blocks + news)[b].home == a
    ensures b == a
  {
    if a in g.blocks {
      LargeIsMapped(g, a);
    } else if b in g.blocks {
      HomeIsMapped(g, b);
    }
    hide Inside, Apart;
  }

  lemma LargeIsMapped(g: Layout, a: Addr)
    requires LayoutOk(g) && a in g.blocks && g.blocks[a].class_ == LARGE
    ensures a in g.mapped
  {
    assert Inside(a, g.blocks[a], g.mapped);
  }

  lemma HomeIsMapped(g: Layout, b: Addr)
    requires LayoutOk(g) && b in g.blocks
    ensures g.blocks[b].home in g.mapped
  {
    assert Inside(b, g.blocks[b], g.mapped);
  }

  lemma OldInside(g: Layout, base: Addr, len: nat)
    requires LayoutOk(g) && FreshMapping(g, base, len)
    ensures forall a :: a in g.blocks ==> Inside(a, g.blocks[a], g.mapped[base := len])
  {
    forall a | a in g.blocks ensures Inside(a, g.blocks[a], g.mapped[base := len]) {
      assert Inside(a, g.blocks[a], g.mapped);
    }
  }

  lemma NewInside(g: Layout, news: map<Addr, Block>, base: Addr, len: nat)
    requires NewBlocks(news, base, len)
    ensures forall a :: a in news ==> Inside(a, news[a], g.mapped[base := len])
  {
  }

  lemma PageIsAligned(base: Addr)
    requires base % 4096 == 0
    ensures base % 8 == 0
  {
    var k, m := base / 4096, base / 8;
    assert base == 4096 * k && base % 8 == 8 * (512 * k - m);
  }

  lemma LargeIsNew(base: Addr, len: nat)
    requires 0 < base && base % 8 == 0 && len > 0
    ensures NewBlocks(map[base := Block(LARGE, len, base)], base, len)
  {
    hide ObjSize;
    var news := map[base := Block(LARGE, len, base)];
    assert forall a :: a in news ==> a == base;
    assert Inside(base, Block(LARGE, len, base), map[base := len]);
    hide Inside;
  }

  lemma AddLargeOk(g: Layout, base: Addr, len: nat)
    requires LayoutOk(g) && FreshMapping(g, base, len) && len > 0
    ensures LayoutOk(AddLarge(g, base, len)) && base !in g.blocks
  {
    PageIsAligned(base);
    LargeIsNew(base, len);
    hide LayoutOk, FreshMapping, NewBlocks;
    var news := map[base := Block(LARGE, len, base)];
    AddBlocksOk(g, news, base, len);
    assert g.blocks + news == g.blocks[base := Block(LARGE, len, base)];
  }

  lemma RemoveLargeOk(g: Layout, base: Addr)
    requires LayoutOk(g) && base in g.blocks && g.blocks[base].class_ == LARGE
    ensures LayoutOk(RemoveLarge(g, base))
  {
  }

  lemma SlabBlockInside(base: Addr, c: nat, i: nat)
    requires c < LARGE && i < BlocksPerSlab(c) && base % 4096 == 0
    ensures var a := BlockAt(base, ObjSize(c), i);
            a % 8 == 0 && base <= a && a + ObjSize(c) <= base + SLAB_SIZE && ObjSize(c) > 0
  {
    SlabCounts(c);
    var o := ObjSize(c);
    MulMonotone(i + 1, BlocksPerSlab(c), o);
    assert (i + 1) * o == i * o + o;
    MultipleOf8(i, o);
    hide ObjSize;
  }

  lemma MultipleOf8(i: nat, o: nat)
    requires o % 8 == 0
    ensures i * o % 8 == 0
  {
    assert o == 8 * (o / 8);
    assert i * o == 8 * (i * (o / 8));
  }

  lemma SlabBlocksOk(base: Addr, c: nat)
    requires c < LARGE && 0 < base && base % 4096 == 0
    ensures forall a :: a in SlabBlocks(base, c) ==>
      base <= a && a + ObjSize(c) <= base + SLAB_SIZE && a % 8 == 0 && ObjSize(c) > 0
    ensures Apart(SlabBlocks(base, c))
  {
    var o := ObjSize(c);
    var list := Carved(base, o, 0, BlocksPerSlab(c));
    forall a | a in list ensures base <= a && a + o <= base + SLAB_SIZE && a % 8 == 0 && o > 0 {
      var i :| 0 <= i < |list| && list[i] == a;
      SlabBlockInside(base, c, i);
    }
    forall a, b | a in list && b in list && a != b ensures Disjoint(a, o, b, o) {
      var i :| 0 <= i < |list| && list[i] == a;
      var j :| 0 <= j < |list| && list[j] == b;
      if i < j { BlocksApart(base, o, i, j); } else { BlocksApart(base, o, j, i); }
    }
  }

  lemma AddSlabOk(g: Layout, base: Addr, c: nat)
    requires c < LARGE && LayoutOk(g) && FreshMapping(g, base, SLAB_SIZE)
    ensures LayoutOk(AddSlab(g, base, c))
    ensures forall a :: a in SlabBlocks(base, c) ==> a !in g.blocks
  {
    SlabBlocksOk(base, c);
    AddBlocksOk(g, SlabBlocks(base, c), base, SLAB_SIZE);
  }

  // ----- Free lists, live blocks and the blocks of the layout

  ghost predicate ListOk(head: Addr, words: map<Addr, Word>, blocks: map<Addr, Block>, c: nat, list: seq<Addr>) {
    && Chain(head, words, list) && NoDups(list)
    && forall a :: a in list ==> a in blocks && blocks[a].class_ == c
  }

  ghost predicate ListsOk(heads: seq<Addr>, words: map<Addr, Word>, blocks: map<Addr, Block>, free: seq<seq<Addr>>) {
    && |heads| == |free| == LARGE
    && forall c :: 0 <= c < LARGE ==> ListOk(heads[c], words, blocks, c, free[c])
  }

  /** Every block is on the free list of its class, or live, or held by the running call: exactly one of these. */
  ghost predicate Split(blocks: map<Addr, Block>, free: seq<seq<Addr>>, live: set<Addr>, held: set<Addr>) {
    && |free| == LARGE && live <= blocks.Keys && held <= blocks.Keys && live !! held
    && (forall a :: a in blocks && blocks[a].class_ < LARGE ==>
          (a in free[blocks[a].class_] <==> a !in live && a !in held))
    && (forall a :: a in blocks && blocks[a].class_ >= LARGE ==> a in live || a in held)
  }

  /** What the header and the layout say of a live block. */
  ghost predicate LiveBlock(w: Word, b: Block, bytes: seq<bv8>) {
    && w.Sized? && w.magic == MAGIC_ALLOCATED && 0 < w.size < UINT32
    && b.class_ == ClassOf(w.size + HEADER)
    && (b.class_ == LARGE ==> b.len == w.size + HEADER)
    && |bytes| == w.size
  }

  ghost predicate LiveOk(live: set<Addr>, words: map<Addr, Word>, blocks: map<Addr, Block>,
                         contents: map<Addr, seq<bv8>>)
  {
    forall a :: a in live ==> a in words && a in blocks && a in contents && LiveBlock(words[a], blocks[a], contents[a])
  }

  /** The user area of a live block lies inside the block. */
  lemma LiveBlockFits(a: Addr, w: Word, b: Block, bytes: seq<bv8>, mapped: map<Addr, nat>)
    requires LiveBlock(w, b, bytes) && Inside(a, b, mapped)
    ensures HEADER + |bytes| <= b.len
  {
    UserAreaFitsIff(w.size);
  }

  /** User areas of live blocks never overlap each other, nor any free block. */
  lemma LiveAreasApart(g: Layout, live: set<Addr>, words: map<Addr, Word>, contents: map<Addr, seq<bv8>>,
                       a: Addr, b: Addr)
    requires LayoutOk(g) && LiveOk(live, words, g.blocks, contents) && a in live && b in g.blocks && a != b
    ensures a in contents && Disjoint(a + HEADER, |contents[a]|, b, g.blocks[b].len)
    ensures b in live ==> b in contents && Disjoint(a + HEADER, |contents[a]|, b + HEADER, |contents[b]|)
  {
    LiveBlockFits(a, words[a], g.blocks[a], contents[a], g.mapped);
    if b in live {
      LiveBlockFits(b, words[b], g.blocks[b], contents[b], g.mapped);
    }
  }

  lemma PopFree(heads: seq<Addr>, words: map<Addr, Word>, blocks: map<Addr, Block>, free: seq<seq<Addr>>,
                live: set<Addr>, c: nat)
    requires ListsOk(heads, words, blocks, free) && Split(blocks, free, live, {}) && c < LARGE && heads[c] != 0
    ensures free[c] != [] && heads[c] == free[c][0]
    ensures heads[c] in blocks && blocks[heads[c]].class_ == c && heads[c] !in live
    ensures heads[c] in words && words[heads[c]].Link?
    ensures ListsOk(heads[c := words[heads[c]].next], words, blocks, free[c := free[c][1..]])
    ensures Split(blocks, free[c := free[c][1..]], live, {heads[c]})
  {
    var a := heads[c];
    assert ListOk(heads[c], words, blocks, c, free[c]);
    ChainPop(a, words, free[c]);
    var free' := free[c := free[c][1..]];
    forall d | 0 <= d < LARGE ensures ListOk(heads[c := words[a].next][d], words, blocks, d, free'[d]) {
      assert ListOk(heads[d], words, blocks, d, free[d]);
    }
    hide Chain;
    forall b | b in blocks && blocks[b].class_ < LARGE
      ensures b in free'[blocks[b].class_] <==> b !in live && b != a
    {
      if blocks[b].class_ == c && b in free[c] && b != a {
        var k :| 0 <= k < |free[c]| && free[c][k] == b;
        assert free'[c][k - 1] == b;
      }
    }
  }

  lemma PushFree(heads: seq<Addr>, words: map<Addr, Word>, blocks: map<Addr, Block>, free: seq<seq<Addr>>,
                 live: set<Addr>, c: nat, a: Addr)
    requires ListsOk(heads, words, blocks, free) && Split(blocks, free, live, {a}) && c < LARGE
    requires a != 0 && a in blocks && blocks[a].class_ == c
    ensures ListsOk(heads[c := a], words[a := Link(heads[c])], blocks, free[c := [a] + free[c]])
    ensures Split(blocks, free[c := [a] + free[c]], live, {})
  {
    var heads', words', free' := heads[c := a], words[a := Link(heads[c])], free[c := [a] + free[c]];
    forall d | 0 <= d < LARGE ensures ListOk(heads'[d], words', blocks, d, free'[d]) {
      assert ListOk(heads[d], words, blocks, d, free[d]);
      if d == c {
        ChainPush(heads[c], words, free[c], a);
      } else {
        assert a !in free[d];
        ChainElsewhere(heads[d], words, free[d], a, Link(heads[c]));
      }
    }
  }

  /** Writing the first word of a block that is on no free list leaves the lists alone. */
  lemma WriteHeld(heads: seq<Addr>, words: map<Addr, Word>, blocks: map<Addr, Block>, free: seq<seq<Addr>>,
                  live: set<Addr>, held: set<Addr>, a: Addr, w: Word)
    requires ListsOk(heads, words, blocks, free) && Split(blocks, free, live, held) && (a in held || a in live)
    ensures ListsOk(heads, words[a := w], blocks, free)
  {
    forall d | 0 <= d < LARGE ensures ListOk(heads[d], words[a := w], blocks, d, free[d]) {
      assert ListOk(heads[d], words, blocks, d, free[d]);
      assert a !in free[d];
      ChainElsewhere(heads[d], words, free[d], a, w);
    }
  }

  /** A free block never looks allocated: its first word is a link, and links are multiples of eight. */
  lemma LinkIsNotMagic(next: Addr)
    requires next % 8 == 0
    ensures MagicField(Link(next)) != MAGIC_ALLOCATED
  {
    var k := next / UINT32;
    assert next == k * UINT32 + next % UINT32;
    assert (next % UINT32) % 8 == 0;
  }

  /** What carving a fresh slab gives, before the lists are changed. */
  lemma CarvedSlab(words: map<Addr, Word>, g: Layout, c: nat, base: Addr, words': map<Addr, Word>)
    requires c < LARGE && LayoutOk(g) && FreshMapping(g, base, SLAB_SIZE)
    requires var list := Carved(base, ObjSize(c), 0, BlocksPerSlab(c));
             Chain(base, words', list) && forall a :: a in words && a !in list ==> a in words' && words'[a] == words[a]
    ensures var list, news := Carved(base, ObjSize(c), 0, BlocksPerSlab(c)), SlabBlocks(base, c);
            && |list| >= 2 && list[0] == base && list[1] == BlockAt(base, ObjSize(c), 1)
            && list[1..] == Carved(base, ObjSize(c), 1, BlocksPerSlab(c))
            && Chain(base, words', list) && NoDups(list)
            && (forall a :: a in list <==> a in news)
            && (forall a :: a in news ==> news[a].class_ == c && a !in g.blocks)
            && (forall a :: a in words && a in g.blocks ==> a in words' && words'[a] == words[a])
  {
    var o, n := ObjSize(c), BlocksPerSlab(c);
    SlabCounts(c);
    AddSlabOk(g, base, c);
    hide ObjSize, BlocksPerSlab, LayoutOk, FreshMapping, Chain, NoDups;
    CarvedNoDups(base, o, n);
    assert BlockAt(base, o, 0) == base;
  }

  /** heads[c] is NULL and a new slab has been carved: its first block is held, the others are the free list. */
  lemma CarvedLists(heads: seq<Addr>, words: map<Addr, Word>, g: Layout, free: seq<seq<Addr>>, live: set<Addr>,
                    c: nat, base: Addr, words': map<Addr, Word>)
    requires c < LARGE && ListsOk(heads, words, g.blocks, free) && Split(g.blocks, free, live, {}) && heads[c] == 0
    requires LayoutOk(g) && FreshMapping(g, base, SLAB_SIZE)
    requires var list := Carved(base, ObjSize(c), 0, BlocksPerSlab(c));
             Chain(base, words', list) && forall a :: a in words && a !in list ==> a in words' && words'[a] == words[a]
    ensures var rest := Carved(base, ObjSize(c), 1, BlocksPerSlab(c)); var blocks' := g.blocks + SlabBlocks(base, c);
            && ListsOk(heads[c := BlockAt(base, ObjSize(c), 1)], words', blocks', free[c := rest])
            && Split(blocks', free[c := rest], live, {base})
            && base in blocks' && blocks'[base].class_ == c
  {
    var list := Carved(base, ObjSize(c), 0, BlocksPerSlab(c));
    CarvedSlab(words, g, c, base, words');
    hide ObjSize, BlocksPerSlab, LayoutOk, FreshMapping, Chain, NoDups, Carved, SlabBlocks, BlockAt;
    ListsInside(heads, words, g.blocks, free);
    EmptyList(heads, words, g.blocks, free, c);
    CarvedSplit(g.blocks, SlabBlocks(base, c), free, live, c, list);
    CarvedRest(base, words', g.blocks + SlabBlocks(base, c), c, list);
    OldLists(heads, words, g.blocks, free, c, words', g.blocks + SlabBlocks(base, c));
    hide Split, ListOk;
  }

  lemma EmptyList(heads: seq<Addr>, words: map<Addr, Word>, blocks: map<Addr, Block>, free: seq<seq<Addr>>, c: nat)
    requires ListsOk(heads, words, blocks, free) && c < LARGE && heads[c] == 0
    ensures free[c] == []
  {
    assert ListOk(heads[c], words, blocks, c, free[c]);
  }

  lemma OldLists(heads: seq<Addr>, words: map<Addr, Word>, blocks: map<Addr, Block>, free: seq<seq<Addr>>, c: nat,
                 words': map<Addr, Word>, blocks': map<Addr, Block>)
    requires ListsOk(heads, words, blocks, free)
    requires forall a :: a in blocks ==> a in blocks' && blocks'[a] == blocks[a]
    requires forall a :: a in words && a in blocks ==> a in words' && words'[a] == words[a]
    ensures forall d :: 0 <= d < LARGE && d != c ==> ListOk(heads[d], words', blocks', d, free[d])
  {
    ListsInside(heads, words, blocks, free);
    forall d | 0 <= d < LARGE && d != c ensures ListOk(heads[d], words', blocks', d, free[d]) {
      assert ListOk(heads[d], words, blocks, d, free[d]);
      hide ListOk;
      OldListStays(heads[d], words, words', blocks, blocks', d, free[d]);
    }
  }

  lemma CarvedRest(base: Addr, words: map<Addr, Word>, blocks: map<Addr, Block>, c: nat, list: seq<Addr>)
    requires Chain(base, words, list) && NoDups(list) && |list| >= 2
    requires forall a :: a in list ==> a in blocks && blocks[a].class_ == c
    ensures ListOk(list[1], words, blocks, c, list[1..])
  {
    ChainPop(base, words, list);
    assert words[list[0]] == Link(list[1]);
  }

  lemma ListsInside(heads: seq<Addr>, words: map<Addr, Word>, blocks: map<Addr, Block>, free: seq<seq<Addr>>)
    requires ListsOk(heads, words, blocks, free)
    ensures forall d, a :: 0 <= d < LARGE && a in free[d] ==> a in blocks && a in words
  {
    forall d, a | 0 <= d < LARGE && a in free[d] ensures a in blocks && a in words {
      assert ListOk(heads[d], words, blocks, d, free[d]);
    }
  }

  lemma OldListStays(head: Addr, words: map<Addr, Word>, words': map<Addr, Word>, blocks: map<Addr, Block>,
                     blocks': map<Addr, Block>, c: nat, list: seq<Addr>)
    requires ListOk(head, words, blocks, c, list)
    requires forall a :: a in blocks ==> a in blocks' && blocks'[a] == blocks[a]
    requires forall a :: a in list ==> a in words' && words'[a] == words[a]
    ensures ListOk(head, words', blocks', c, list)
  {
  }

  lemma CarvedSplit(blocks: map<Addr, Block>, news: map<Addr, Block>, free: seq<seq<Addr>>, live: set<Addr>, c: nat,
                    list: seq<Addr>)
    requires c < LARGE && Split(blocks, free, live, {}) && free[c] == []
    requires list != [] && NoDups(list) && forall a :: a in list <==> a in news
    requires forall a :: a in news ==> news[a].class_ == c && a !in blocks
    requires forall d, a :: 0 <= d < LARGE && a in free[d] ==> a in blocks
    ensures Split(blocks + news, free[c := list[1..]], live, {list[0]})
  {
    forall a | a in news ensures a == list[0] <==> a !in list[1..] {
      var k :| 0 <= k < |list| && list[k] == a;
      if k > 0 { assert list[1..][k - 1] == a; }
    }
  }

  lemma CarvedNoDups(base: Addr, obj: nat, n: nat)
    requires obj > 0
    ensures NoDups(Carved(base, obj, 0, n))
  {
    var list := Carved(base, obj, 0, n);
    forall i, j | 0 <= i < j < |list| ensures list[i] != list[j] {
      BlocksApart(base, obj, i, j);
    }
  }

  lemma CarvedSteps(base: Addr, obj: nat, n: nat)
    requires obj > 0 && n > 0
    ensures var list := Carved(base, obj, 0, n);
            && |list| == n && list[0] == base && NoDups(list)
            && (forall k :: 0 <= k < n ==> list[k] >= base)
            && (forall k :: 0 <= k < n - 1 ==> list[k + 1] == list[k] + obj)
  {
    CarvedNoDups(base, obj, n);
    forall k | 0 <= k < n - 1 ensures BlockAt(base, obj, k + 1) == BlockAt(base, obj, k) + obj {
      assert (k + 1) * obj == k * obj + obj;
    }
    forall k | 0 <= k < n ensures BlockAt(base, obj, k) >= base {
      MulMonotone(0, k, obj);
    }
  }

  lemma SlabSteps(base: Addr, c: nat)
    requires c < LARGE
    ensures var n := BlocksPerSlab(c); var list := Carved(base, ObjSize(c), 0, n);
            && |list| == n >= 2 && list[0] == base
            && (forall i, j :: 0 <= i < j < n ==> list[i] != list[j])
            && (forall k :: 0 <= k < n ==> list[k] >= base)
            && (forall k :: 0 <= k < n - 1 ==> list[k + 1] == list[k] + ObjSize(c))
  {
    SlabHasBlocks(c);
    hide ObjSize, BlocksPerSlab, Carved, BlockAt;
    CarvedSteps(base, ObjSize(c), BlocksPerSlab(c));
  }

  lemma ChainOf(head: Addr, words: map<Addr, Word>, list: seq<Addr>)
    requires |list| > 0 && list[0] == head > 0 && forall k :: 0 <= k < |list| ==> list[k] >= head
    requires forall k :: 0 <= k < |list| - 1 ==> list[k] in words && words[list[k]] == Link(list[k + 1])
    requires list[|list| - 1] in words && words[list[|list| - 1]] == Link(0)
    ensures Chain(head, words, list)
  {
  }

  /** The first n blocks of the list link to the next one, and nothing else of what there was has changed. */
  ghost predicate LinkedTo(was: map<Addr, Word>, words: map<Addr, Word>, list: seq<Addr>, n: nat) {
    && n < |list| && NoDups(list)
    && (forall k :: 0 <= k < n ==> list[k] in words && words[list[k]] == Link(list[k + 1]))
    && forall a :: a in was && a !in list ==> a in words && words[a] == was[a]
  }

  lemma LinkedNone(words: map<Addr, Word>, list: seq<Addr>)
    requires list != [] && NoDups(list)
    ensures LinkedTo(words, words, list, 0)
  {
  }

  lemma LinkOne(was: map<Addr, Word>, words: map<Addr, Word>, list: seq<Addr>, n: nat)
    requires LinkedTo(was, words, list, n) && n + 1 < |list|
    ensures LinkedTo(was, words[list[n] := Link(list[n + 1])], list, n + 1)
  {
  }

  /** Blocks of one size that follow each other from base. */
  ghost predicate InARow(list: seq<Addr>, base: Addr, obj: nat) {
    && list != [] && list[0] == base > 0 && NoDups(list)
    && (forall k :: 0 <= k < |list| - 1 ==> list[k + 1] == list[k] + obj)
    && forall k :: 0 <= k < |list| ==> list[k] >= base
  }

  lemma RowStart(list: seq<Addr>, base: Addr, obj: nat)
    requires InARow(list, base, obj)
    ensures list != [] && list[0] == base && NoDups(list)
  {
  }

  lemma RowStep(list: seq<Addr>, base: Addr, obj: nat, i: nat)
    requires InARow(list, base, obj) && i + 1 < |list|
    ensures list[i + 1] == list[i] + obj
  {
  }

  lemma LinkLast(was: map<Addr, Word>, words: map<Addr, Word>, list: seq<Addr>, base: Addr, obj: nat)
    requires InARow(list, base, obj) && LinkedTo(was, words, list, |list| - 1)
    ensures var words' := words[list[|list| - 1] := Link(0)];
            && Chain(base, words', list)
            && forall a :: a in was && a !in list ==> a in words' && words'[a] == was[a]
  {
    ChainOf(base, words[list[|list| - 1] := Link(0)], list);
  }

  // ----- The list of all allocations, for leak reports

  ghost predicate Tracked(head: Addr, next: map<Addr, Addr>, prev: map<Addr, Addr>, list: seq<Addr>) {
    && (list == [] ==> head == 0)
    && (list != [] ==> head == list[0])
    && (forall k :: 0 <= k < |list| ==> list[k] != 0 && list[k] in next && list[k] in prev)
    && (list != [] ==> prev[list[0]] == 0 && next[list[|list| - 1]] == 0)
    && (forall k :: 0 <= k < |list| - 1 ==> next[list[k]] == list[k + 1])
    && (forall k :: 1 <= k < |list| ==> prev[list[k]] == list[k - 1])
  }

  lemma TrackFront(head: Addr, next: map<Addr, Addr>, prev: map<Addr, Addr>, list: seq<Addr>, a: Addr)
    requires Tracked(head, next, prev, list) && a !in list && a != 0 && NoDups(list)
    ensures head != 0 ==> head in prev
    ensures Tracked(a, next[a := head], if head != 0 then prev[a := 0][head := a] else prev[a := 0], [a] + list)
  {
    if list != [] {
      assert forall k :: 1 <= k < |list| ==> list[k] != list[0];
    }
  }

  function Without(list: seq<Addr>, k: nat): seq<Addr>
    requires k < |list|
  {
    list[..k] + list[k + 1..]
  }

  lemma Untracked(head: Addr, next: map<Addr, Addr>, prev: map<Addr, Addr>, list: seq<Addr>, k: nat)
    requires Tracked(head, next, prev, list) && NoDups(list) && k < |list|
    ensures var a := list[k]; var p, n := prev[a], next[a];
            && (p != 0 ==> p in next && p != a) && (n != 0 ==> n in prev)
            && Tracked(if p != 0 then head else n, if p != 0 then next[p := n] else next,
                       if n != 0 then prev[n := p] else prev, Without(list, k))
  {
    var a := list[k];
    var p, n := prev[a], next[a];
    assert p == if k > 0 then list[k - 1] else 0;
    assert n == if k < |list| - 1 then list[k + 1] else 0;
    var rest := Without(list, k);
    var next' := if p != 0 then next[p := n] else next;
    var prev' := if n != 0 then prev[n := p] else prev;
    assert forall i :: 0 <= i < k ==> rest[i] == list[i];
    assert forall i :: k <= i < |rest| ==> rest[i] == list[i + 1];
    forall i | 0 <= i < |rest| - 1 ensures next'[rest[i]] == rest[i + 1] {
      if i + 1 < k {
        assert next[list[i]] == list[i + 1];
      } else if i >= k {
        assert next[list[i + 1]] == list[i + 2];
      }
    }
    forall i | 1 <= i < |rest| ensures prev'[rest[i]] == rest[i - 1] {
      if i < k {
        assert prev[list[i]] == list[i - 1];
      } else if i > k {
        assert prev[list[i + 1]] == list[i];
      }
    }
    if rest != [] && k == |list| - 1 {
      assert rest[|rest| - 1] == p;
    }
    if rest != [] && k == 0 {
      assert rest[0] == n;
    }
  }

  // ----- Bytes in use

  function StoredIn(words: map<Addr, Word>, a: Addr): nat {
    if a in words && words[a].Sized? then words[a].size else 0
  }

  /** The sum of the sizes of the listed blocks. */
  function InUse(list: seq<Addr>, words: map<Addr, Word>): nat {
    if list == [] then 0 else StoredIn(words, list[0]) + InUse(list[1..], words)
  }

  lemma {:induction false} InUseSame(list: seq<Addr>, a: map<Addr, Word>, b: map<Addr, Word>)
    requires forall x :: x in list ==> StoredIn(a, x) == StoredIn(b, x)
    ensures InUse(list, a) == InUse(list, b)
  {
    if list != [] {
      InUseSame(list[1..], a, b);
    }
  }

  lemma {:induction false} InUseWithout(list: seq<Addr>, words: map<Addr, Word>, k: nat)
    requires k < |list|
    ensures InUse(list, words) == InUse(Without(list, k), words) + StoredIn(words, list[k])
  {
    if k == 0 {
      assert Without(list, 0) == list[1..];
    } else {
      assert Without(list, k)[1..] == Without(list[1..], k - 1);
      InUseWithout(list[1..], words, k - 1);
    }
  }

  ghost predicate SameElements(list: seq<Addr>, s: set<Addr>) { forall a :: a in list <==> a in s }

  /** Putting one block on the books. */
  lemma OneMore(tracked: seq<Addr>, live: set<Addr>, words: map<Addr, Word>, a: Addr)
    requires NoDups(tracked) && SameElements(tracked, live) && a !in live
    ensures a !in tracked && NoDups([a] + tracked) && SameElements([a] + tracked, live + {a})
    ensures InUse([a] + tracked, words) == InUse(tracked, words) + StoredIn(words, a)
  {
    NoDupsPush(tracked, a);
    assert ([a] + tracked)[1..] == tracked;
  }

  /** Taking one block off the books. */
  lemma OneLess(tracked: seq<Addr>, live: set<Addr>, words: map<Addr, Word>, a: Addr) returns (k: nat)
    requires NoDups(tracked) && SameElements(tracked, live) && a in live && a in words && words[a].Sized?
    ensures k < |tracked| && tracked[k] == a
    ensures var rest := Without(tracked, k);
            && NoDups(rest) && SameElements(rest, live - {a}) && |rest| == |tracked| - 1
            && InUse(tracked, words) == InUse(rest, words) + words[a].size
  {
    k :| 0 <= k < |tracked| && tracked[k] == a;
    InUseWithout(tracked, words, k);
    WithoutElements(tracked, k);
  }

  // ----- The pool

  class Pool {
    var heads: seq<Addr>  // size_classes[c].free_list
    var numSlabs: seq<nat>
    var words: map<Addr, Word>
    var contents: map<Addr, seq<bv8>>  // user areas
    var canaries: map<Addr, nat>  // header->canary; callers may write over it
    var allAllocations: Addr
    var next: map<Addr, Addr>  // header->next
    var prev: map<Addr, Addr>  // header->prev
    var allocations: nat
    var deallocations: nat
    var bytesAllocated: nat
    var bytesFreed: nat
    var activeAllocations: nat
    var peakAllocations: nat
    var corruptionsDetected: nat
    const debugMode: bool
    ghost var layout: Layout
    ghost var free: seq<seq<Addr>>  // the free lists
    ghost var live: set<Addr>
    ghost var tracked: seq<Addr>    // the live blocks, most recent first

    ghost predicate Memory(held: set<Addr>)
      reads this`heads, this`words, this`layout, this`free, this`live
    {
      && LayoutOk(layout)
      && ListsOk(heads, words, layout.blocks, free)
      && Split(layout.blocks, free, live, held)
    }

    ghost predicate Books()
      reads this`tracked, this`live, this`allAllocations, this`next, this`prev, this`allocations, this`deallocations,
            this`activeAllocations, this`peakAllocations, this`bytesAllocated, this`bytesFreed, this`words
    {
      && NoDups(tracked) && SameElements(tracked, live)
      && (debugMode ==> Tracked(allAllocations, next, prev, tracked))
      && allocations == deallocations + activeAllocations
      && activeAllocations == |tracked| <= peakAllocations
      && bytesAllocated == bytesFreed + InUse(tracked, words)
    }

    ghost predicate Valid()
      reads this
    {
      && Memory({}) && LiveOk(live, words, layout.blocks, contents) && Books() && |numSlabs| == LARGE
      && live <= canaries.Keys
    }

    constructor (debugMode: bool)
      ensures Valid() && live == {} && this.debugMode == debugMode && layout == Layout(map[], map[])
      ensures allocations == deallocations == bytesAllocated == bytesFreed == peakAllocations == 0
    {
      this.debugMode := debugMode;
      heads, numSlabs := seq(LARGE, _ => 0), seq(LARGE, _ => 0);
      words, contents, canaries := map[], map[], map[];
      allAllocations, next, prev := 0, map[], map[];
      allocations, deallocations, bytesAllocated, bytesFreed := 0, 0, 0, 0;
      activeAllocations, peakAllocations, corruptionsDetected := 0, 0, 0;
      layout, free, live, tracked := Layout(map[], map[]), seq(LARGE, _ => []), {}, [];
    }

    /** Lines 361-366: link blocks that lie one after the other. */
    method LinkBlocks(base: Addr, objSize: nat, count: nat, ghost list: seq<Addr>)
      requires 0 < count == |list| && InARow(list, base, objSize)
      modifies this`words
      ensures Chain(base, words, list)
      ensures forall a :: a in old(words) && a !in list ==> a in words && words[a] == old(words)[a]
    {
      ghost var was := words;
      RowStart(list, base, objSize);
      LinkedNone(words, list);
      hide *;
      var ptr := base;
      for i := 0 to count - 1
        invariant ptr == list[i] && LinkedTo(was, words, list, i)
      {
        RowStep(list, base, objSize, i);
        LinkOne(was, words, list, i);
        words := words[ptr := Link(ptr + objSize)];
        ptr := ptr + objSize;
      }
      LinkLast(was, words, list, base, objSize);
      words := words[ptr := Link(0)];
    }

    /** Lines 357-366: link the blocks of a new slab. */
    method CarveSlab(base: Addr, c: nat)
      requires c < LARGE && 0 < base
      modifies this`words
      ensures Chain(base, words, Carved(base, ObjSize(c), 0, BlocksPerSlab(c)))
      ensures forall a :: a in old(words) && a !in Carved(base, ObjSize(c), 0, BlocksPerSlab(c)) ==>
                a in words && words[a] == old(words)[a]
    {
      ghost var list := Carved(base, ObjSize(c), 0, BlocksPerSlab(c));
      SlabSteps(base, c);
      assert InARow(list, base, ObjSize(c));
      hide *;
      var objSize := ObjSize(c);
      var count := BlocksPerSlab(c);  // SLAB_SIZE / obj_size
      LinkBlocks(base, objSize, count, list);
    }

    /** alloc_from_size_class. `mapping` is what mmap would return for a slab, 0 if it would fail. */
    method AllocFromSizeClass(c: nat, mapping: Addr) returns (a: Addr)
      requires Memory({}) && LiveOk(live, words, layout.blocks, contents) && c < LARGE && |numSlabs| == LARGE
      requires mapping != 0 ==> FreshMapping(layout, mapping, SLAB_SIZE)
      modifies this`heads, this`words, this`numSlabs, this`layout, this`free
      ensures |numSlabs| == LARGE && LiveOk(live, words, layout.blocks, contents)
      ensures a == 0 <==> old(heads[c]) == 0 && mapping == 0
      ensures a == 0 ==> Memory({}) && layout == old(layout) && free == old(free)
      ensures a == 0 ==> heads == old(heads) && words == old(words)
      ensures a != 0 ==> Memory({a}) && a in layout.blocks && layout.blocks[a].class_ == c
      ensures forall x <- live :: x in words && x in old(words) && words[x] == old(words)[x]
      ensures a != 0 && old(heads[c]) != 0 ==>
        layout == old(layout) && old(free)[c] != [] && a == old(free)[c][0] && free == old(free)[c := old(free)[c][1..]]
      ensures a != 0 && old(heads[c]) == 0 ==> a == mapping && layout == AddSlab(old(layout), mapping, c)
      ensures a != 0 && old(heads[c]) == 0 ==> numSlabs == old(numSlabs)[c := old(numSlabs)[c] + 1]
    {
      hide ListOk, Chain, LayoutOk, LiveBlock, FreshMapping, AddSlab;
      if heads[c] != 0 {
        a := heads[c];
        PopFree(heads, words, layout.blocks, free, live, c);
        heads := heads[c := words[a].next];
        free := free[c := free[c][1..]];
        return;
      }
      if mapping == 0 {
        return 0;
      }
      hide *;
      NewSlab(c, mapping);
      return mapping;
    }

    /** Lines 350-371: map a slab, carve it, keep its first block and put the others on the free list. */
    method NewSlab(c: nat, mapping: Addr)
      requires Memory({}) && LiveOk(live, words, layout.blocks, contents) && c < LARGE && |numSlabs| == LARGE
      requires |heads| == LARGE && heads[c] == 0 && mapping != 0 && FreshMapping(layout, mapping, SLAB_SIZE)
      modifies this`heads, this`words, this`numSlabs, this`layout, this`free
      ensures numSlabs == old(numSlabs)[c := old(numSlabs)[c] + 1] && LiveOk(live, words, layout.blocks, contents)
      ensures Memory({mapping}) && mapping in layout.blocks && layout.blocks[mapping].class_ == c
      ensures forall x <- live :: x in words && x in old(words) && words[x] == old(words)[x]
      ensures layout == AddSlab(old(layout), mapping, c)
    {
      hide ListsOk, Split, Chain, LayoutOk, ObjSize, BlocksPerSlab, Carved, LiveOk, FreshMapping, AddSlab, BlockAt;
      ghost var words0 := words;
      assert |free| == LARGE by { FreeLists(layout.blocks, free, live, {}); }
      CarveSlab(mapping, c);
      SlabAdded(heads, words0, layout, free, live, contents, c, mapping, words);
      heads := heads[c := BlockAt(mapping, ObjSize(c), 1)];
      free := free[c := Carved(mapping, ObjSize(c), 1, BlocksPerSlab(c))];
      layout := AddSlab(layout, mapping, c);
      numSlabs := numSlabs[c := numSlabs[c] + 1];
    }

    /** free_to_size_class. */
    method FreeToSizeClass(a: Addr, c: nat)
      requires Memory({a}) && c < LARGE && a != 0 && a in layout.blocks && layout.blocks[a].class_ == c
      modifies this`heads, this`words, this`free
      ensures Memory({}) && free == old(free)[c := [a] + old(free)[c]]
      ensures words == old(words)[a := Link(old(heads)[c])]
    {
      hide ListOk, Chain, LayoutOk, Split, ListsOk;
      PushFree(heads, words, layout.blocks, free, live, c, a);
      assert |heads| == LARGE == |free| by { HeadsCount(heads, words, layout.blocks, free); }
      words := words[a := Link(heads[c])];
      heads := heads[c := a];
      free := free[c := [a] + free[c]];
    }

    /** track_allocation. */
    method Track(a: Addr)
      requires debugMode && a != 0 && a !in tracked && NoDups(tracked) && Tracked(allAllocations, next, prev, tracked)
      modifies this`allAllocations, this`next, this`prev
      ensures Tracked(allAllocations, next, prev, [a] + tracked)
    {
      TrackFront(allAllocations, next, prev, tracked, a);
      prev := prev[a := 0];
      next := next[a := allAllocations];
      if allAllocations != 0 {
        prev := prev[allAllocations := a];
      }
      allAllocations := a;
    }

    /** untrack_allocation. */
    method Untrack(a: Addr, ghost k: nat)
      requires debugMode && NoDups(tracked) && Tracked(allAllocations, next, prev, tracked)
      requires k < |tracked| && tracked[k] == a
      modifies this`allAllocations, this`next, this`prev
      ensures Tracked(allAllocations, next, prev, Without(tracked, k))
    {
      Untracked(allAllocations, next, prev, tracked, k);
      assert a in next && a in prev;
      hide Tracked;
      if prev[a] != 0 {
        next := next[prev[a] := next[a]];
      } else {
        allAllocations := next[a];
      }
      if next[a] != 0 {
        prev := prev[next[a] := prev[a]];
      }
    }

    /** Lines 183-198: a raw block, from the size class or mapped directly. */
    method Obtain(size: nat, mapping: Addr) returns (a: Addr)
      requires Memory({}) && LiveOk(live, words, layout.blocks, contents) && |numSlabs| == LARGE
      requires 0 < size < UINT32 && (mapping != 0 ==> FreshMapping(layout, mapping, MapLength(size)))
      modifies this`heads, this`words, this`numSlabs, this`layout, this`free
      ensures |numSlabs| == LARGE && LiveOk(live, words, layout.blocks, contents)
      ensures a == 0 <==> (mapping == 0 && !FromFreeList(old(heads), size))
      ensures a == 0 ==> Memory({}) && layout == old(layout) && free == old(free)
      ensures a == 0 ==> heads == old(heads) && words == old(words)
      ensures a != 0 ==> Memory({a}) && a in layout.blocks && Holds(layout.blocks[a], size)
      ensures forall x <- live :: x in words && x in old(words) && words[x] == old(words)[x]
    {
      var totalSize := TotalSize(size);
      var c := GetSizeClass(totalSize);
      assert totalSize == size + HEADER;
      LiveInWords(live, words, layout.blocks, contents);
      HeadsCount(heads, words, layout.blocks, free);
      hide ListsOk, Split, LayoutOk, LiveOk, LiveBlock, ObjSize, FreshMapping, AddSlab, AddLarge, ClassOf, TotalSize;
      if c < LARGE {
        a := AllocFromSizeClass(c, mapping);
      } else {
        if mapping == 0 {
          return 0;
        }
        a := mapping;
        MapLarge(mapping, totalSize);
      }
    }

    /** Lines 192-195: a block of its own. */
    method MapLarge(mapping: Addr, totalSize: nat)
      requires Memory({}) && LiveOk(live, words, layout.blocks, contents)
      requires totalSize > 0 && FreshMapping(layout, mapping, totalSize)
      modifies this`layout
      ensures Memory({mapping}) && LiveOk(live, words, layout.blocks, contents)
      ensures mapping in layout.blocks && layout.blocks[mapping] == Block(LARGE, totalSize, mapping)
    {
      hide ListsOk, Split, LayoutOk, LiveOk, FreshMapping;
      LargeAdded(heads, words, layout, free, live, contents, mapping, totalSize);
      layout := AddLarge(layout, mapping, totalSize);
    }

    /** Lines 200-210: fill in the header. */
    method FillHeader(a: Addr, size: nat, garbage: seq<bv8>)
      requires Memory({a}) && LiveOk(live, words, layout.blocks, contents) && a in layout.blocks
      requires 0 < size < UINT32 && |garbage| == size && Holds(layout.blocks[a], size)
      modifies this`words, this`contents, this`canaries
      ensures words == old(words)[a := Sized(MAGIC_ALLOCATED, size)] && contents == old(contents)[a := garbage]
      ensures canaries == old(canaries)[a := CANARY_VALUE] && a !in live
      ensures ListsOk(heads, words, layout.blocks, free) && Split(layout.blocks, free, live + {a}, {})
      ensures LiveOk(live + {a}, words, layout.blocks, contents)
    {
      hide ListsOk, LayoutOk, LiveBlock, Split, LiveOk;
      Adopted(heads, words, layout, free, live, contents, a, size, garbage);
      words := words[a := Sized(MAGIC_ALLOCATED, size)];
      contents := contents[a := garbage];
      canaries := canaries[a := CANARY_VALUE];
    }

    /** Lines 200-229: fill in the header, count the block and, in debug mode, track it. */
    method Adopt(a: Addr, size: nat, garbage: seq<bv8>)
      requires Memory({a}) && LiveOk(live, words, layout.blocks, contents) && Books() && |numSlabs| == LARGE
      requires 0 < size < UINT32 && |garbage| == size && a != 0 && a in layout.blocks && Holds(layout.blocks[a], size)
      requires live <= canaries.Keys
      modifies this`words, this`contents, this`canaries, this`next, this`prev, this`allocations, this`bytesAllocated,
               this`activeAllocations, this`peakAllocations, this`allAllocations, this`live, this`tracked
      ensures Valid() && live == old(live) + {a} && a !in old(live) && tracked == [a] + old(tracked)
      ensures words == old(words)[a := Sized(MAGIC_ALLOCATED, size)] && contents == old(contents)[a := garbage]
      ensures canaries == old(canaries)[a := CANARY_VALUE]
      ensures allocations == old(allocations) + 1 && bytesAllocated == old(bytesAllocated) + size
      ensures activeAllocations == old(activeAllocations) + 1
      ensures peakAllocations ==
              if activeAllocations > old(peakAllocations) then activeAllocations else old(peakAllocations)
    {
      hide ListsOk, LayoutOk, LiveBlock, Split, LiveOk, Tracked, Holds, InUse, NoDups;
      FillHeader(a, size, garbage);
      InUseSame(tracked, old(words), words);
      Count(a, size);
    }

    /** Lines 213-224: the statistics and the peak. */
    method Tally(size: nat)
      modifies this`allocations, this`bytesAllocated, this`activeAllocations, this`peakAllocations
      ensures allocations == old(allocations) + 1 && bytesAllocated == old(bytesAllocated) + size
      ensures activeAllocations == old(activeAllocations) + 1
      ensures peakAllocations ==
              if activeAllocations > old(peakAllocations) then activeAllocations else old(peakAllocations)
    {
      allocations := allocations + 1;
      bytesAllocated := bytesAllocated + size;
      activeAllocations := activeAllocations + 1;
      var current := activeAllocations;
      if current > peakAllocations {
        peakAllocations := current;
      }
    }

    /** Lines 212-229: the statistics, the peak and the leak list. */
    method Count(a: Addr, size: nat)
      requires Books() && a !in live && a != 0 && StoredIn(words, a) == size
      modifies this`next, this`prev, this`allocations, this`bytesAllocated, this`activeAllocations,
               this`peakAllocations, this`allAllocations, this`live, this`tracked
      ensures Books() && live == old(live) + {a} && tracked == [a] + old(tracked)
      ensures allocations == old(allocations) + 1 && bytesAllocated == old(bytesAllocated) + size
      ensures activeAllocations == old(activeAllocations) + 1
      ensures peakAllocations ==
              if activeAllocations > old(peakAllocations) then activeAllocations else old(peakAllocations)
    {
      OneMore(tracked, live, words, a);
      hide Tracked, StoredIn, InUse, NoDups, SameElements;
      Tally(size);
      if debugMode {
        Track(a);
      }
      live := live + {a};
      tracked := [a] + tracked;
    }

    /** What n further allocations of this many bytes in all have made of the statistics. */
    predicate Counted(n: nat, bytes: nat, allocations0: nat, bytes0: nat, active0: nat, peak0: nat)
      reads this`allocations, this`bytesAllocated, this`activeAllocations, this`peakAllocations
    {
      && allocations == allocations0 + n && bytesAllocated == bytes0 + bytes && activeAllocations == active0 + n
      && peakAllocations == if activeAllocations > peak0 then activeAllocations else peak0
    }

    /** buffer_pool_alloc_safe. `garbage` is what the user area holds before anyone writes it. */
    method Alloc(size: nat, mapping: Addr, garbage: seq<bv8>) returns (ptr: Addr)
      requires Valid() && size < UINT32 && |garbage| == size
      requires size > 0 && mapping != 0 ==> FreshMapping(layout, mapping, MapLength(size))
      modifies this
      ensures Valid()
      ensures ptr == 0 <==> size == 0 || (mapping == 0 && !FromFreeList(old(heads), size))
      ensures ptr == 0 ==> live == old(live) && words == old(words) && contents == old(contents)
      ensures ptr == 0 ==> layout == old(layout) && free == old(free) && tracked == old(tracked)
      ensures ptr != 0 ==> ptr > HEADER && Handed(ptr - HEADER, size, old(live), live, words)
      ensures ptr != 0 ==> contents == old(contents)[ptr - HEADER := garbage]
      ensures canaries == if ptr == 0 then old(canaries) else old(canaries)[ptr - HEADER := CANARY_VALUE]
      ensures ptr != 0 ==> tracked == [ptr - HEADER] + old(tracked)
      ensures Counted(if ptr == 0 then 0 else 1, if ptr == 0 then 0 else size,
                      old(allocations), old(bytesAllocated), old(activeAllocations), old(peakAllocations))
      ensures forall x <- old(live) :: x in words && x in old(words) && words[x] == old(words)[x]
      ensures corruptionsDetected == old(corruptionsDetected)
    {
      hide ListsOk, Split, LayoutOk, LiveOk, Tracked, Holds, FreshMapping, MapLength, FromFreeList, InUse, NoDups;
      if size == 0 {
        LiveInWords(live, words, layout.blocks, contents);
        return 0;
      }
      var a := Obtain(size, mapping);
      if a == 0 {
        return 0;
      }
      InUseStays(live, tracked, old(words), words);
      assert a != 0;
      Adopt(a, size, garbage);
      return a + HEADER;
    }

    /** buffer_pool_free_safe. The process is aborted exactly when the pointer is not a live block, or its canary was
        written over: the magic check of line 389 catches every double free, so the check of line 248 after it never
        fires. */
    method Free(ptr: Addr) returns (aborted: bool)
      requires Valid() && (ptr == 0 || (ptr > HEADER && ptr - HEADER in layout.blocks))
      modifies this
      ensures Valid()
      ensures aborted <==> ptr != 0 && !Sound(ptr - HEADER, old(live), canaries)
      ensures canaries == old(canaries)
      ensures aborted || ptr == 0 ==> live == old(live) && words == old(words) && contents == old(contents)
      ensures aborted || ptr == 0 ==> layout == old(layout) && free == old(free) && tracked == old(tracked)
      ensures corruptionsDetected == old(corruptionsDetected) + if aborted then 1 else 0
      ensures !aborted && ptr != 0 ==> live == old(live) - {ptr - HEADER}
      ensures !aborted && ptr != 0 ==> Returned(ptr - HEADER, old(layout), old(free), layout, free)
      ensures !aborted && ptr != 0 ==>
        deallocations == old(deallocations) + 1 && bytesFreed == old(bytesFreed) + StoredIn(old(words), ptr - HEADER)
      ensures !aborted && ptr != 0 ==>
        contents == old(contents)[ptr - HEADER := Poison(StoredIn(old(words), ptr - HEADER))]
      ensures !aborted && ptr != 0 ==> TakenOut(old(tracked), tracked, ptr - HEADER)
      ensures allocations == old(allocations) && bytesAllocated == old(bytesAllocated)
      ensures peakAllocations == old(peakAllocations)
      ensures Untouched(live, old(words), words, old(contents), contents)
    {
      hide ListsOk, Split, LayoutOk, LiveOk, Tracked, InUse, NoDups, Inside, LiveBlock;
      if ptr == 0 {
        LiveInWords(live, words, layout.blocks, contents);
        return false;
      }
      var a := ptr - HEADER;
      aborted := Validate(a);
      if aborted {
        LiveInWords(live, words, layout.blocks, contents);
        return true;
      }
      FirstWords(heads, words, layout, free, live, contents, a);
      if MagicField(words[a]) == MAGIC_FREED {
        assert false;  // line 248 is never reached with a freed block
      }
      Retire(a, words[a].size);
      return false;
    }

    /** Lines 254-278, for a block that passed the checks. */
    method Retire(a: Addr, size: nat)
      requires Valid() && a in live && a != 0 && a in layout.blocks && a in words && a in contents
      requires words[a] == Sized(MAGIC_ALLOCATED, size) && 0 < size < UINT32 && Holds(layout.blocks[a], size)
      modifies this
      ensures Valid() && live == old(live) - {a} && Returned(a, old(layout), old(free), layout, free)
      ensures deallocations == old(deallocations) + 1 && bytesFreed == old(bytesFreed) + size
      ensures corruptionsDetected == old(corruptionsDetected) && canaries == old(canaries)
      ensures contents == old(contents)[a := Poison(size)] && TakenOut(old(tracked), tracked, a)
      ensures allocations == old(allocations) && bytesAllocated == old(bytesAllocated)
      ensures peakAllocations == old(peakAllocations)
      ensures Untouched(live, old(words), words, old(contents), contents)
    {
      hide ListsOk, Split, LayoutOk, LiveOk, Tracked, InUse, NoDups, Holds, Returned, SameElements, Untouched;
      hide TakenOut, Poison;
      Dropped(words, layout.blocks, free, live, contents, a);
      Uncount(a);
      ghost var words1, contents1 := words, contents;
      Release(a, size);
      InUseUntouched(live, tracked, words1, words, contents1, contents);
    }

    /** Lines 255-262: the statistics and the leak list. */
    method Uncount(a: Addr)
      requires Books() && a in live && a in words && words[a].Sized?
      modifies this`next, this`prev, this`deallocations, this`bytesFreed, this`activeAllocations, this`allAllocations,
               this`live, this`tracked
      ensures Books() && live == old(live) - {a} && TakenOut(old(tracked), tracked, a)
      ensures deallocations == old(deallocations) + 1 && bytesFreed == old(bytesFreed) + words[a].size
    {
      hide Tracked, InUse, Without, NoDups, StoredIn, SameElements, TakenOut;
      ghost var k := OneLess(tracked, live, words, a);
      deallocations := deallocations + 1;
      bytesFreed := bytesFreed + words[a].size;
      activeAllocations := activeAllocations - 1;
      if debugMode {
        Untrack(a, k);
      }
      live := live - {a};
      TakenOutAt(tracked, k);
      tracked := Without(tracked, k);
    }

    /** Lines 264-278: mark, poison, and give the block back. */
    method Release(a: Addr, size: nat)
      requires Memory({a}) && LiveOk(live, words, layout.blocks, contents)
      requires a != 0 && a in layout.blocks && a in contents && 0 < size < UINT32 && Holds(layout.blocks[a], size)
      modifies this`words, this`contents, this`heads, this`free, this`layout
      ensures Memory({}) && LiveOk(live, words, layout.blocks, contents)
      ensures Returned(a, old(layout), old(free), layout, free)
      ensures Untouched(live, old(words), words, old(contents), contents)
      ensures contents == old(contents)[a := Poison(size)]
    {
      hide ListsOk, Split, LayoutOk, LiveOk, Tracked, InUse, NoDups, Inside, LiveBlock, ObjSize, ClassOf;
      ghost var words0, contents0 := words, contents;
      LiveInWords(live, words, layout.blocks, contents);
      NotLive(layout.blocks, free, live, a);
      WriteHeld(heads, words, layout.blocks, free, live, {a}, a, Sized(MAGIC_FREED, size));
      words := words[a := Sized(MAGIC_FREED, size)];
      contents := contents[a := Poison(size)];  // memset(ptr, 0xDE, header->size)
      var totalSize := size + HEADER;
      var c := GetSizeClass(totalSize);
      if c < LARGE {
        FreeToSizeClass(a, c);
        LiveElsewhere(live, words0, words, layout.blocks, layout.blocks, contents0, contents, a);
      } else {
        LargeRemoved(heads, words, layout, free, live, a);
        LiveElsewhere(live, words0, words, layout.blocks, layout.blocks - {a}, contents0, contents, a);
        layout := RemoveLarge(layout, a);
      }
    }

    /** validate_allocation. */
    method Validate(a: Addr) returns (aborted: bool)
      requires Valid() && a in layout.blocks
      modifies this`corruptionsDetected
      ensures Valid() && (aborted <==> !Sound(a, live, canaries))
      ensures corruptionsDetected == old(corruptionsDetected) + if aborted then 1 else 0
      ensures !aborted ==> a in words && words[a].Sized? && 0 < words[a].size < UINT32
      ensures !aborted ==> a in contents && |contents[a]| == words[a].size
    {
      hide ListsOk, Split, LayoutOk, Tracked, InUse, NoDups, Inside;
      FirstWords(heads, words, layout, free, live, contents, a);
      LiveInWords(live, words, layout.blocks, contents);
      if MagicField(words[a]) != MAGIC_ALLOCATED {
        corruptionsDetected := corruptionsDetected + 1;
        return true;
      }
      if canaries[a] != CANARY_VALUE {
        corruptionsDetected := corruptionsDetected + 1;
        return true;
      }
      return false;
    }

    /** buffer_pool_realloc. A block that is already large enough is returned as it is; growing copies the old
        contents and frees the old block; when no memory is found the old block stays. */
    method Realloc(ptr: Addr, newSize: nat, mapping: Addr, garbage: seq<bv8>) returns (result: Addr, aborted: bool)
      requires Valid() && newSize < UINT32 && |garbage| == newSize
      requires ptr == 0 || (ptr > HEADER && ptr - HEADER in layout.blocks)
      requires newSize > 0 && mapping != 0 ==> FreshMapping(layout, mapping, MapLength(newSize))
      modifies this
      ensures Valid()
      ensures aborted <==> ptr != 0 && !Sound(ptr - HEADER, old(live), old(canaries))
      ensures aborted ==> live == old(live) && words == old(words) && contents == old(contents)
      ensures !aborted && ptr != 0 && newSize == 0 ==> result == 0 && live == old(live) - {ptr - HEADER}
      ensures !aborted && ptr != 0 && 0 < newSize <= StoredIn(old(words), ptr - HEADER) ==>
        result == ptr && live == old(live) && words == old(words) && contents == old(contents)
      ensures !aborted && result == 0 && newSize > 0 ==>
        mapping == 0 && live == old(live) && words == old(words) && contents == old(contents)
      ensures result != 0 ==> result > HEADER && result - HEADER in live
      ensures result != 0 ==> result - HEADER in words && result - HEADER in contents
      ensures !aborted && ptr != 0 && newSize > StoredIn(old(words), ptr - HEADER) && result != 0 ==>
        && ptr - HEADER in old(contents) && live == old(live) - {ptr - HEADER} + {result - HEADER} && result != ptr
        && StoredIn(words, result - HEADER) == newSize == |contents[result - HEADER]|
        && contents[result - HEADER][..|old(contents)[ptr - HEADER]|] == old(contents)[ptr - HEADER]
      ensures ptr == 0 && result != 0 ==>
        live == old(live) + {result - HEADER} && StoredIn(words, result - HEADER) == newSize
      ensures forall x <- old(live) :: x != ptr - HEADER ==>
        x in live && x in words && x in old(words) && words[x] == old(words)[x]
        && x in contents && x in old(contents) && contents[x] == old(contents)[x]
        && x in canaries && x in old(canaries) && canaries[x] == old(canaries)[x]
      ensures result != 0 && result != ptr ==> Sound(result - HEADER, live, canaries)
    {
      hide ListsOk, Split, LayoutOk, LiveOk, Tracked, InUse, NoDups, Inside, FreshMapping, FromFreeList, MapLength;
      hide Returned, Books;
      LiveInWords(live, words, layout.blocks, contents);
      if ptr == 0 {
        result := Alloc(newSize, mapping, garbage);
        return result, false;
      }
      if newSize == 0 {
        aborted := Free(ptr);
        return 0, aborted;
      }
      var a := ptr - HEADER;
      aborted := Validate(a);
      if aborted {
        return 0, true;
      }
      var oldSize := words[a].size;
      if newSize <= oldSize {
        return ptr, false;
      }
      result := Alloc(newSize, mapping, garbage);
      if result == 0 {
        return 0, false;
      }
      Copy(a, result - HEADER, oldSize);
      LiveInWords(live, words, layout.blocks, contents);
      aborted := Free(ptr);
    }

    /** memcpy of the old user area to the front of the new one. */
    method Copy(from: Addr, dest: Addr, n: nat)
      requires Valid() && from in live && dest in live && from != dest
      requires from in contents && dest in contents && n == |contents[from]| <= |contents[dest]|
      modifies this`contents
      ensures Valid()
      ensures contents == old(contents)[dest := old(contents)[from] + old(contents)[dest][n..]]
    {
      hide ListsOk, Split, LayoutOk, Tracked, InUse, NoDups, Inside, Books;
      contents := contents[dest := contents[from] + contents[dest][n..]];
    }
  }

  lemma NotLive(blocks: map<Addr, Block>, free: seq<seq<Addr>>, live: set<Addr>, a: Addr)
    requires Split(blocks, free, live, {a})
    ensures a !in live && |free| == LARGE
  {
  }

  lemma Dropped(words: map<Addr, Word>, blocks: map<Addr, Block>, free: seq<seq<Addr>>, live: set<Addr>,
                contents: map<Addr, seq<bv8>>, a: Addr)
    requires Split(blocks, free, live, {}) && LiveOk(live, words, blocks, contents) && a in live
    ensures Split(blocks, free, live - {a}, {a}) && LiveOk(live - {a}, words, blocks, contents)
  {
  }

  lemma LiveElsewhere(live: set<Addr>, words: map<Addr, Word>, words': map<Addr, Word>,
                      blocks: map<Addr, Block>, blocks': map<Addr, Block>,
                      contents: map<Addr, seq<bv8>>, contents': map<Addr, seq<bv8>>, a: Addr)
    requires LiveOk(live, words, blocks, contents) && a !in live
    requires forall x :: x in words && x != a ==> x in words' && words'[x] == words[x]
    requires forall x :: x in blocks && x != a ==> x in blocks' && blocks'[x] == blocks[x]
    requires forall x :: x in contents && x != a ==> x in contents' && contents'[x] == contents[x]
    ensures LiveOk(live, words', blocks', contents')
  {
    hide LiveBlock;
  }

  lemma LargeRemoved(heads: seq<Addr>, words: map<Addr, Word>, g: Layout, free: seq<seq<Addr>>, live: set<Addr>,
                     a: Addr)
    requires ListsOk(heads, words, g.blocks, free) && Split(g.blocks, free, live, {a}) && LayoutOk(g)
    requires a in g.blocks && g.blocks[a].class_ == LARGE
    ensures var g' := RemoveLarge(g, a);
            LayoutOk(g') && ListsOk(heads, words, g'.blocks, free) && Split(g'.blocks, free, live, {})
  {
    RemoveLargeOk(g, a);
    hide LayoutOk, Chain, NoDups;
    forall d | 0 <= d < LARGE ensures ListOk(heads[d], words, RemoveLarge(g, a).blocks, d, free[d]) {
      assert ListOk(heads[d], words, g.blocks, d, free[d]);
    }
    hide ListOk;
  }

  lemma WithoutElements(list: seq<Addr>, k: nat)
    requires NoDups(list) && k < |list|
    ensures NoDups(Without(list, k)) && |Without(list, k)| == |list| - 1
    ensures forall a :: a in Without(list, k) <==> a in list && a != list[k]
  {
    var rest := Without(list, k);
    assert forall i :: 0 <= i < k ==> rest[i] == list[i];
    assert forall i :: k <= i < |rest| ==> rest[i] == list[i + 1];
    forall a | a in list && a != list[k] ensures a in rest {
      var i :| 0 <= i < |list| && list[i] == a;
      if i < k { assert rest[i] == a; } else { assert rest[i - 1] == a; }
    }
  }

  /** Where a freed block went: to the front of its own class's free list, or back to the system. */
  ghost predicate Returned(a: Addr, g: Layout, free: seq<seq<Addr>>, g': Layout, free': seq<seq<Addr>>) {
    && a in g.blocks
    && var c := g.blocks[a].class_;
       if c < LARGE then |free| == LARGE && free' == free[c := [a] + free[c]] && g' == g
       else free' == free && g' == RemoveLarge(g, a)
  }

  /** The first word of a block tells whether it is live. */
  lemma FirstWords(heads: seq<Addr>, words: map<Addr, Word>, g: Layout, free: seq<seq<Addr>>, live: set<Addr>,
                   contents: map<Addr, seq<bv8>>, a: Addr)
    requires LayoutOk(g) && ListsOk(heads, words, g.blocks, free) && Split(g.blocks, free, live, {})
    requires LiveOk(live, words, g.blocks, contents) && a in g.blocks
    ensures a in words && (a in live <==> MagicField(words[a]) == MAGIC_ALLOCATED)
    ensures a in live ==> words[a].Sized? && words[a] == Sized(MAGIC_ALLOCATED, words[a].size)
    ensures a in live ==> 0 < words[a].size < UINT32
    ensures a in live ==> Holds(g.blocks[a], words[a].size) && a in contents
  {
    if a in live {
      assert LiveBlock(words[a], g.blocks[a], contents[a]);
    } else {
      var c := g.blocks[a].class_;
      assert c < LARGE && a in free[c];
      assert ListOk(heads[c], words, g.blocks, c, free[c]);
      var k :| 0 <= k < |free[c]| && free[c][k] == a;
      if k < |free[c]| - 1 {
        assert words[a] == Link(free[c][k + 1]);
        assert Inside(free[c][k + 1], g.blocks[free[c][k + 1]], g.mapped);
        LinkIsNotMagic(free[c][k + 1]);
      } else {
        assert words[a] == Link(0);
        LinkIsNotMagic(0);
      }
    }
  }

  /** What free leaves in the user area of a block. */
  function Poison(size: nat): (bytes: seq<bv8>)
    ensures |bytes| == size && forall i :: 0 <= i < size ==> bytes[i] == 0xDE
  {
    seq(size, _ => 0xDE)
  }

  /** The list lost the one element a, and kept the others in order. */
  ghost predicate TakenOut(was: seq<Addr>, now: seq<Addr>, a: Addr) {
    exists k :: 0 <= k < |was| && was[k] == a && now == Without(was, k)
  }

  lemma TakenOutAt(was: seq<Addr>, k: nat)
    requires k < |was|
    ensures TakenOut(was, Without(was, k), was[k])
  {
  }

  /** A live block whose canary is as Alloc left it. */
  predicate Sound(a: Addr, live: set<Addr>, canaries: map<Addr, nat>) {
    a in live && a in canaries && canaries[a] == CANARY_VALUE
  }

  /** Block a has gone from not live to live, with the header of the given size. */
  predicate Handed(a: Addr, size: nat, before: set<Addr>, after: set<Addr>, words: map<Addr, Word>) {
    a !in before && after == before + {a} && a in words && words[a] == Sized(MAGIC_ALLOCATED, size)
  }

  /** The given blocks keep their headers and contents. */
  ghost predicate Untouched(blocks: set<Addr>, words: map<Addr, Word>, words': map<Addr, Word>,
                            contents: map<Addr, seq<bv8>>, contents': map<Addr, seq<bv8>>) {
    && (forall x <- blocks :: x in words && x in words' && words'[x] == words[x])
    && (forall x <- blocks :: x in contents && x in contents' && contents'[x] == contents[x])
  }

  lemma InUseUntouched(live: set<Addr>, tracked: seq<Addr>, words: map<Addr, Word>, words': map<Addr, Word>,
                       contents: map<Addr, seq<bv8>>, contents': map<Addr, seq<bv8>>)
    requires SameElements(tracked, live) && Untouched(live, words, words', contents, contents')
    ensures InUse(tracked, words') == InUse(tracked, words)
  {
    InUseStays(live, tracked, words, words');
  }

  lemma InUseStays(live: set<Addr>, tracked: seq<Addr>, words: map<Addr, Word>, words': map<Addr, Word>)
    requires SameElements(tracked, live)
    requires forall x <- live :: x in words && x in words' && words'[x] == words[x]
    ensures InUse(tracked, words') == InUse(tracked, words)
  {
    InUseSame(tracked, words, words');
  }

  lemma Adopted(heads: seq<Addr>, words: map<Addr, Word>, g: Layout, free: seq<seq<Addr>>, live: set<Addr>,
                contents: map<Addr, seq<bv8>>, a: Addr, size: nat, garbage: seq<bv8>)
    requires ListsOk(heads, words, g.blocks, free) && Split(g.blocks, free, live, {a})
    requires LiveOk(live, words, g.blocks, contents)
    requires 0 < size < UINT32 && |garbage| == size && a in g.blocks && Holds(g.blocks[a], size)
    ensures var words' := words[a := Sized(MAGIC_ALLOCATED, size)];
            && ListsOk(heads, words', g.blocks, free) && Split(g.blocks, free, live + {a}, {})
            && LiveOk(live + {a}, words', g.blocks, contents[a := garbage])
    ensures a !in live
  {
    WriteHeld(heads, words, g.blocks, free, live, {a}, a, Sized(MAGIC_ALLOCATED, size));
    hide ListsOk;
  }

  predicate FromFreeList(heads: seq<Addr>, size: nat) {
    var c := ClassOf(TotalSize(size));
    c < LARGE && |heads| == LARGE && heads[c] != 0
  }

  function MapLength(size: nat): nat {
    var total := TotalSize(size);
    if ClassOf(total) < LARGE then SLAB_SIZE else total
  }

  /** The block is of the class of the size, and long enough. */
  predicate Holds(b: Block, size: nat)
    requires size < UINT32
  {
    && b.class_ == ClassOf(size + HEADER)
    && (b.class_ == LARGE ==> b.len == size + HEADER)
  }

  lemma LargeAdded(heads: seq<Addr>, words: map<Addr, Word>, g: Layout, free: seq<seq<Addr>>, live: set<Addr>,
                   contents: map<Addr, seq<bv8>>, base: Addr, len: nat)
    requires ListsOk(heads, words, g.blocks, free) && Split(g.blocks, free, live, {})
    requires LayoutOk(g) && FreshMapping(g, base, len) && LiveOk(live, words, g.blocks, contents) && len > 0
    ensures var g' := AddLarge(g, base, len);
            && LayoutOk(g') && ListsOk(heads, words, g'.blocks, free) && Split(g'.blocks, free, live, {base})
            && LiveOk(live, words, g'.blocks, contents) && g'.blocks[base] == Block(LARGE, len, base)
  {
    AddLargeOk(g, base, len);
    hide LayoutOk, FreshMapping, ListOk, LiveBlock, Split, ListsOk, LiveOk;
    var blocks' := AddLarge(g, base, len).blocks;
    assert blocks' == g.blocks[base := Block(LARGE, len, base)];
    hide AddLarge;
    LargeSplit(g.blocks, free, live, base, len);
    ListsGrow(heads, words, g.blocks, free, blocks');
    FreeLists(g.blocks, free, live, {});
    LiveOkStays(live, words, words, g.blocks, blocks', contents);
  }

  lemma LargeSplit(blocks: map<Addr, Block>, free: seq<seq<Addr>>, live: set<Addr>, base: Addr, len: nat)
    requires Split(blocks, free, live, {}) && base !in blocks
    ensures Split(blocks[base := Block(LARGE, len, base)], free, live, {base})
  {
  }

  lemma ListsGrow(heads: seq<Addr>, words: map<Addr, Word>, blocks: map<Addr, Block>, free: seq<seq<Addr>>,
                  blocks': map<Addr, Block>)
    requires ListsOk(heads, words, blocks, free)
    requires forall a :: a in blocks ==> a in blocks' && blocks'[a] == blocks[a]
    ensures ListsOk(heads, words, blocks', free)
  {
    OldLists(heads, words, blocks, free, LARGE, words, blocks');
    hide ListOk;
  }

  lemma HeadsCount(heads: seq<Addr>, words: map<Addr, Word>, blocks: map<Addr, Block>, free: seq<seq<Addr>>)
    requires ListsOk(heads, words, blocks, free)
    ensures |heads| == LARGE == |free|
  {
  }

  lemma FreeLists(blocks: map<Addr, Block>, free: seq<seq<Addr>>, live: set<Addr>, held: set<Addr>)
    requires Split(blocks, free, live, held)
    ensures |free| == LARGE && live <= blocks.Keys
  {
  }

  lemma SlabAdded(heads: seq<Addr>, words: map<Addr, Word>, g: Layout, free: seq<seq<Addr>>, live: set<Addr>,
                  contents: map<Addr, seq<bv8>>, c: nat, base: Addr, words': map<Addr, Word>)
    requires c < LARGE && ListsOk(heads, words, g.blocks, free) && Split(g.blocks, free, live, {}) && heads[c] == 0
    requires LayoutOk(g) && FreshMapping(g, base, SLAB_SIZE) && LiveOk(live, words, g.blocks, contents)
    requires var list := Carved(base, ObjSize(c), 0, BlocksPerSlab(c));
             Chain(base, words', list) && forall a :: a in words && a !in list ==> a in words' && words'[a] == words[a]
    ensures var g' := AddSlab(g, base, c); var free' := free[c := Carved(base, ObjSize(c), 1, BlocksPerSlab(c))];
            && LayoutOk(g') && ListsOk(heads[c := BlockAt(base, ObjSize(c), 1)], words', g'.blocks, free')
            && Split(g'.blocks, free', live, {base}) && base in g'.blocks && g'.blocks[base].class_ == c
            && LiveOk(live, words', g'.blocks, contents)
    ensures forall a <- live :: a in words && a in words' && words'[a] == words[a]
  {
    FreeLists(g.blocks, free, live, {});
    LiveNotInSlab(live, g, base, c);
    CarvedLists(heads, words, g, free, live, c, base, words');
    AddSlabOk(g, base, c);
    hide ListsOk, Split, Chain, LayoutOk, ObjSize, BlocksPerSlab, Carved, SlabBlocks, FreshMapping, BlockAt;
    assert forall a <- live :: a in words by { LiveInWords(live, words, g.blocks, contents); }
    LiveOkStays(live, words, words', g.blocks, AddSlab(g, base, c).blocks, contents);
  }

  lemma LiveInWords(live: set<Addr>, words: map<Addr, Word>, blocks: map<Addr, Block>, contents: map<Addr, seq<bv8>>)
    requires LiveOk(live, words, blocks, contents)
    ensures forall a <- live ::
      a in words && a in blocks && a in contents && LiveBlock(words[a], blocks[a], contents[a])
  {
  }

  lemma LiveOkStays(live: set<Addr>, words: map<Addr, Word>, words': map<Addr, Word>, blocks: map<Addr, Block>,
                    blocks': map<Addr, Block>, contents: map<Addr, seq<bv8>>)
    requires LiveOk(live, words, blocks, contents)
    requires forall a <- live :: a in words ==> a in words' && words'[a] == words[a]
    requires forall a <- live :: a in blocks ==> a in blocks' && blocks'[a] == blocks[a]
    ensures LiveOk(live, words', blocks', contents)
    ensures forall a <- live :: a in words && a in words' && words'[a] == words[a]
  {
  }

  lemma LiveNotInSlab(live: set<Addr>, g: Layout, base: Addr, c: nat)
    requires c < LARGE && LayoutOk(g) && FreshMapping(g, base, SLAB_SIZE) && live <= g.blocks.Keys
    ensures forall a <- live :: a !in Carved(base, ObjSize(c), 0, BlocksPerSlab(c)) && a !in SlabBlocks(base, c)
  {
    AddSlabOk(g, base, c);
    hide ObjSize, BlocksPerSlab, Carved, LayoutOk, FreshMapping;
  }
}
