/** The log of page images: trash/jdbx_page_manager_old.c, lines 573-622 and 641-659. */
module WriteAheadLog {
  import opened Bytes
  import opened Crc32

  const PAGE_SIZE := 4096
  const UINT64 := 0x1_0000_0000_0000_0000
  const UINT32 := 0x1_0000_0000

  type Page = p: seq<bv8> | |p| == PAGE_SIZE witness seq(PAGE_SIZE, _ => 0)

  datatype Record = Record(transaction: nat, pageId: nat, image: Page)

  ghost predicate Fits(r: Record) { r.transaction < UINT64 && r.pageId < UINT64 }

  // ----- Records as bytes

  const HEADER_BYTES := 28  // sizeof(wal_entry_t), packed: magic, transaction, page, size, checksum
  const RECORD_BYTES := 4124  // HEADER_BYTES + PAGE_SIZE

  type Magic = m: seq<bv8> | |m| == 4 witness [0, 0, 0, 0]

  function Header(magic: Magic, r: Record): (bytes: seq<bv8>)
    ensures |bytes| == HEADER_BYTES
  {
    magic + (LittleEndian(r.transaction, 8) + (LittleEndian(r.pageId, 8)
                                               + (LittleEndian(PAGE_SIZE, 4) + Stored(Crc(r.image)))))
  }

  function Encode(magic: Magic, r: Record): (bytes: seq<bv8>)
    ensures |bytes| == RECORD_BYTES
  {
    Header(magic, r) + r.image
  }

  function Decode(bytes: seq<bv8>): Record
    requires |bytes| == RECORD_BYTES
  {
    Record(Value(bytes[4..12]), Value(bytes[12..20]), bytes[HEADER_BYTES..])
  }

  lemma HeaderNumbers(magic: Magic, r: Record)
    requires Fits(r)
    ensures var header := Header(magic, r);
            Value(header[4..12]) == r.transaction && Value(header[12..20]) == r.pageId
  {
    Widths();
    TwoReadBack(magic, r.transaction, r.pageId, LittleEndian(PAGE_SIZE, 4) + Stored(Crc(r.image)));
    hide LittleEndian, Value, Crc, Stored, Pow256;
  }

  lemma SlicesOfFront(a: seq<bv8>, b: seq<bv8>, i: nat, j: nat)
    requires i <= j <= |a|
    ensures (a + b)[i..j] == a[i..j]
  {
  }

  lemma ToEnd(s: seq<bv8>, i: nat)
    requires i <= |s|
    ensures s[i..|s|] == s[i..]
  {
    assert s[..|s|] == s;
  }

  lemma DecodeEncode(magic: Magic, r: Record)
    requires Fits(r)
    ensures Decode(Encode(magic, r)) == r
  {
    var header := Header(magic, r);
    assert Encode(magic, r) == header + r.image && |header| == HEADER_BYTES;
    hide Header, Value, Encode;
    HeaderNumbers(magic, r);
    SlicesOfFront(header, r.image, 4, 12);
    SlicesOfFront(header, r.image, 12, 20);
    Parts(header, r.image);
  }

  function EncodeAll(magic: Magic, rs: seq<Record>): (bytes: seq<bv8>)
    ensures |bytes| == |rs| * RECORD_BYTES
  {
    if rs == [] then [] else EncodeAll(magic, rs[..|rs| - 1]) + Encode(magic, rs[|rs| - 1])
  }

  function DecodeAll(bytes: seq<bv8>): seq<Record>
    requires |bytes| % RECORD_BYTES == 0
    decreases |bytes|
  {
    if bytes == [] then []
    else
      var n := |bytes| - RECORD_BYTES;
      DecodeAll(bytes[..n]) + [Decode(bytes[n..])]
  }

  /** The log region determines its records: nothing but whole records is ever in it. */
  lemma {:induction false} LogRoundTrip(magic: Magic, rs: seq<Record>)
    requires forall r <- rs :: Fits(r)
    ensures |EncodeAll(magic, rs)| % RECORD_BYTES == 0
    ensures DecodeAll(EncodeAll(magic, rs)) == rs
  {
    hide Encode, Decode, Crc;
    if rs != [] {
      var front, last := rs[..|rs| - 1], rs[|rs| - 1];
      LogRoundTrip(magic, front);
      DecodeEncode(magic, last);
      var bytes := EncodeAll(magic, rs);
      assert bytes[..|bytes| - RECORD_BYTES] == EncodeAll(magic, front);
      assert bytes[|bytes| - RECORD_BYTES..] == Encode(magic, last);
    }
  }

  /** What a later reader can check of a record: the magic number, the size of the image, and its checksum. */
  predicate Sealed(magic: Magic, bytes: seq<bv8>)
    requires |bytes| == RECORD_BYTES
  {
    && bytes[..4] == magic && Value(bytes[20..24]) == PAGE_SIZE
    && Loaded(bytes[24..HEADER_BYTES]) == Crc(bytes[HEADER_BYTES..])
  }

  lemma HeaderSealed(magic: Magic, r: Record)
    ensures var header := Header(magic, r);
            && header[..4] == magic && Value(header[20..24]) == PAGE_SIZE
            && Loaded(header[24..HEADER_BYTES]) == Crc(r.image)
  {
    var a, b, size := LittleEndian(r.transaction, 8), LittleEndian(r.pageId, 8), LittleEndian(PAGE_SIZE, 4);
    var sum, header := Stored(Crc(r.image)), Header(magic, r);
    assert header == magic + (a + (b + (size + sum))) && |header| == HEADER_BYTES;
    assert |magic + a + b| == 20 && |magic + a + b + size| == 24 && |sum| == 4;
    hide *;
    Widths();
    LoadedStored(Crc(r.image));
    Regroup(magic, a, b + (size + sum));
    Regroup(magic + a, b, size + sum);
    Regroup(magic + a + b, size, sum);
    Parts(magic, a + (b + (size + sum)));
    ReadsBack(magic + a + b, PAGE_SIZE, 4, sum);
    Parts(magic + a + b + size, sum);
    ToEnd(header, 24);
  }

  lemma EncodeSealed(magic: Magic, r: Record)
    ensures Sealed(magic, Encode(magic, r))
  {
    var header := Header(magic, r);
    assert Encode(magic, r) == header + r.image && |header| == HEADER_BYTES;
    hide Header, Value, Crc, Loaded, Encode;
    HeaderSealed(magic, r);
    SlicesOfFront(header, r.image, 0, 4);
    SlicesOfFront(header, r.image, 20, 24);
    SlicesOfFront(header, r.image, 24, HEADER_BYTES);
    Parts(header, r.image);
  }

  /** Every record in the region, wherever it lies, has the magic number, the page size, and the checksum of the image
      that follows. */
  lemma {:induction false} RecordsSealed(magic: Magic, rs: seq<Record>, k: nat)
    requires k < |rs|
    ensures var bytes := EncodeAll(magic, rs);
            (k + 1) * RECORD_BYTES <= |bytes| && Sealed(magic, bytes[k * RECORD_BYTES..(k + 1) * RECORD_BYTES])
  {
    hide Encode, Sealed;
    var front, last := rs[..|rs| - 1], rs[|rs| - 1];
    var bytes, at := EncodeAll(magic, rs), k * RECORD_BYTES;
    if k < |front| {
      RecordsSealed(magic, front, k);
      assert bytes[at..at + RECORD_BYTES] == EncodeAll(magic, front)[at..at + RECORD_BYTES];
    } else {
      EncodeSealed(magic, last);
      assert bytes[at..at + RECORD_BYTES] == Encode(magic, last);
    }
  }

  // ----- Undoing: logged images written back from newest to oldest

  ghost function Undo(pages: seq<Page>, rs: seq<Record>): (r: seq<Page>)
    ensures |r| == |pages|
    decreases |rs|
  {
    if rs == [] then pages
    else
      var last := rs[|rs| - 1];
      Undo(if last.pageId < |pages| then pages[last.pageId := last.image] else pages, rs[..|rs| - 1])
  }

  /** The image in the oldest record of a page, or its current contents when it has no record. */
  ghost function OldestImage(current: Page, rs: seq<Record>, id: nat): Page {
    if rs == [] then current
    else if rs[0].pageId == id then rs[0].image
    else OldestImage(current, rs[1..], id)
  }

  lemma {:induction false} OldestOfPrefix(current: Page, rs: seq<Record>, last: Record, id: nat)
    ensures OldestImage(current, rs + [last], id)
         == OldestImage(if last.pageId == id then last.image else current, rs, id)
  {
    if rs == [] {
      assert (rs + [last])[1..] == [];
    } else {
      assert (rs + [last])[1..] == rs[1..] + [last];
      OldestOfPrefix(current, rs[1..], last, id);
    }
  }

  /** What undoing leaves in a page, for any log at all. */
  lemma {:induction false} UndoLeavesOldest(pages: seq<Page>, rs: seq<Record>, id: nat)
    requires id < |pages|
    ensures Undo(pages, rs)[id] == OldestImage(pages[id], rs, id)
    decreases |rs|
  {
    if rs != [] {
      var front, last := rs[..|rs| - 1], rs[|rs| - 1];
      assert rs == front + [last];
      var pages' := if last.pageId < |pages| then pages[last.pageId := last.image] else pages;
      UndoLeavesOldest(pages', front, id);
      OldestOfPrefix(pages[id], front, last, id);
    }
  }

  predicate Logged(rs: seq<Record>, id: nat) { exists k :: 0 <= k < |rs| && rs[k].pageId == id }

  lemma {:induction false} LaterRecordsDoNotMatter(a: Page, b: Page, rs: seq<Record>, id: nat)
    requires Logged(rs, id)
    ensures OldestImage(a, rs, id) == OldestImage(b, rs, id)
  {
    if rs[0].pageId != id {
      var k :| 0 <= k < |rs| && rs[k].pageId == id;
      assert rs[1..][k - 1].pageId == id;
      LaterRecordsDoNotMatter(a, b, rs[1..], id);
    }
  }

  lemma {:induction false} UnloggedKeepsCurrent(a: Page, rs: seq<Record>, id: nat)
    requires !Logged(rs, id)
    ensures OldestImage(a, rs, id) == a
  {
    if rs != [] {
      assert rs[0].pageId != id;
      forall k | 0 <= k < |rs[1..]| ensures rs[1..][k].pageId != id { assert rs[1..][k] == rs[k + 1]; }
      UnloggedKeepsCurrent(a, rs[1..], id);
    }
  }

  // ----- The log itself

  predicate RoomAfterDoubling(offset: nat, size: nat) { offset + RECORD_BYTES <= size * 2 }

  /** Doubling once makes room for a record, wherever the offset is, exactly when the region holds one record. */
  lemma OneDoublingIff(size: nat)
    ensures (forall offset: nat :: offset <= size ==> RoomAfterDoubling(offset, size)) <==> RECORD_BYTES <= size
  {
    if size < RECORD_BYTES {
      assert !RoomAfterDoubling(size, size);
    }
  }

  lemma LoggingOneMore(magic: Magic, rs: seq<Record>, r: Record)
    ensures EncodeAll(magic, rs + [r]) == EncodeAll(magic, rs) + Encode(magic, r)
  {
    hide Encode;
    assert (rs + [r])[..|rs|] == rs;
  }

  // ----- Runs of calls, on values

  /** Get is jdbx_get_page_for_write, with whether a doubling would succeed; Write is the caller's own change to a page;
      Checkpoint is jdbx_checkpoint. */
  datatype Call = Get(id: nat, transaction: nat, grows: bool) | Write(id: nat) | Checkpoint

  /** The pages, the log's records and mapped size, and the pages as of the last checkpoint. */
  datatype Memory = Memory(pages: seq<Page>, records: seq<Record>, size: nat, base: seq<Page>)

  predicate HasRoom(records: nat, size: nat) { records * RECORD_BYTES + RECORD_BYTES <= size }

  predicate Succeeds(pages: nat, records: nat, size: nat, c: Call)
    requires c.Get?
  {
    c.id < pages && (HasRoom(records, size) || c.grows)
  }

  /** The memory after a call; contents is what a Write puts into the page. */
  function Called(m: Memory, c: Call, contents: Page): Memory {
    match c
    case Get(id, transaction, grows) =>
      if !Succeeds(|m.pages|, |m.records|, m.size, c) then m
      else m.(records := m.records + [Record(transaction, id, m.pages[id])],
              size := if HasRoom(|m.records|, m.size) then m.size else m.size * 2)
    case Write(id) => if id < |m.pages| then m.(pages := m.pages[id := contents]) else m
    case Checkpoint => m.(records := [], base := m.pages)
  }

  /** The memory after a schedule of calls in which the i-th call writes contents[i]. */
  function After(m: Memory, cs: seq<Call>, contents: seq<Page>): Memory
    requires |contents| == |cs|
    decreases |cs|
  {
    if cs == [] then m
    else
      var n := |cs| - 1;
      Called(After(m, cs[..n], contents[..n]), cs[n], contents[n])
  }

  /** How many records the schedule leaves in the log, and the size it leaves it; what is written does not matter. */
  datatype Room = Room(records: nat, size: nat)

  function RoomAfter(room: Room, pages: nat, cs: seq<Call>): Room
    decreases |cs|
  {
    if cs == [] then room
    else
      var r, c := RoomAfter(room, pages, cs[..|cs| - 1]), cs[|cs| - 1];
      if c.Checkpoint? then r.(records := 0)
      else if c.Get? && Succeeds(pages, r.records, r.size, c) then
        Room(r.records + 1, if HasRoom(r.records, r.size) then r.size else r.size * 2)
      else r
  }

  predicate LastSucceeds(room: Room, pages: nat, cs: seq<Call>)
    requires cs != [] && cs[|cs| - 1].Get?
  {
    var r := RoomAfter(room, pages, cs[..|cs| - 1]);
    Succeeds(pages, r.records, r.size, cs[|cs| - 1])
  }

  /** Whether the schedule has a successful Get of the page since the last checkpoint. */
  predicate GotSince(room: Room, pages: nat, cs: seq<Call>, id: nat)
    decreases |cs|
  {
    if cs == [] then false
    else
      var c := cs[|cs| - 1];
      && !c.Checkpoint?
      && ((c.Get? && c.id == id && LastSucceeds(room, pages, cs)) || GotSince(room, pages, cs[..|cs| - 1], id))
  }

  /** Whether it has a Write of the page since the last checkpoint with no successful Get of it in between. */
  predicate WrittenEarly(room: Room, pages: nat, cs: seq<Call>, id: nat)
    decreases |cs|
  {
    if cs == [] then false
    else
      var c, front := cs[|cs| - 1], cs[..|cs| - 1];
      !c.Checkpoint? && ((c == Write(id) && !GotSince(room, pages, front, id)) || WrittenEarly(room, pages, front, id))
  }

  /** A log as created, or just checkpointed. */
  ghost predicate Empty(m: Memory) { m.records == [] && m.base == m.pages }

  function RoomOf(m: Memory): Room { Room(|m.records|, m.size) }

  /** Sizes and successes depend on the schedule alone. */
  lemma {:induction false} RoomIsScheduled(m: Memory, cs: seq<Call>, contents: seq<Page>)
    requires |contents| == |cs|
    ensures var e := After(m, cs, contents);
            RoomOf(e) == RoomAfter(RoomOf(m), |m.pages|, cs) && |e.pages| == |m.pages|
    decreases |cs|
  {
    if cs != [] {
      var n := |cs| - 1;
      RoomIsScheduled(m, cs[..n], contents[..n]);
    }
  }

  lemma LoggedAppend(rs: seq<Record>, r: Record, id: nat)
    ensures Logged(rs + [r], id) <==> Logged(rs, id) || r.pageId == id
  {
    if Logged(rs, id) {
      var k :| 0 <= k < |rs| && rs[k].pageId == id;
      assert (rs + [r])[k].pageId == id;
    } else if r.pageId == id {
      assert (rs + [r])[|rs|].pageId == id;
    }
  }

  /** What undoing would leave in a page is not changed by a successful Get, and by a Write only before the first
      one. */
  lemma OldestAfterCall(m: Memory, c: Call, contents: Page, id: nat)
    requires id < |m.pages| && !c.Checkpoint?
    ensures var e := Called(m, c, contents);
            && |e.pages| == |m.pages| && e.base == m.base
            && (Logged(e.records, id) <==>
                Logged(m.records, id) || (c.Get? && c.id == id && Succeeds(|m.pages|, |m.records|, m.size, c)))
            && OldestImage(e.pages[id], e.records, id) ==
               if c == Write(id) && !Logged(m.records, id) then contents else OldestImage(m.pages[id], m.records, id)
  {
    match c
    case Get(at, transaction, grows) =>
      if Succeeds(|m.pages|, |m.records|, m.size, c) {
        var r := Record(transaction, at, m.pages[at]);
        OldestOfPrefix(m.pages[id], m.records, r, id);
        LoggedAppend(m.records, r, id);
      }
    case Write(at) =>
      if at == id && Logged(m.records, id) {
        LaterRecordsDoNotMatter(m.pages[id], contents, m.records, id);
      } else if at == id {
        UnloggedKeepsCurrent(contents, m.records, id);
      }
    case Checkpoint =>
  }

  /** What the schedule says of the log, and what undoing leaves when no write came early. */
  lemma {:induction false} LoggedIsScheduled(m: Memory, cs: seq<Call>, contents: seq<Page>, id: nat)
    requires |contents| == |cs| && Empty(m) && id < |m.pages|
    ensures var e := After(m, cs, contents); var room := RoomOf(m);
            && |e.pages| == |e.base| == |m.pages|
            && (Logged(e.records, id) <==> GotSince(room, |m.pages|, cs, id))
            && (!WrittenEarly(room, |m.pages|, cs, id) ==> OldestImage(e.pages[id], e.records, id) == e.base[id])
    decreases |cs|
  {
    if cs != [] {
      var n := |cs| - 1;
      LoggedIsScheduled(m, cs[..n], contents[..n], id);
      RoomIsScheduled(m, cs[..n], contents[..n]);
      if !cs[n].Checkpoint? {
        OldestAfterCall(After(m, cs[..n], contents[..n]), cs[n], contents[n], id);
      }
    }
  }

  /** Contents that show the loss: a until the last checkpoint, and b from then on. */
  function Telling(cs: seq<Call>, a: Page, b: Page): (contents: seq<Page>)
    ensures |contents| == |cs|
    decreases |cs|
  {
    if cs == [] then []
    else if cs[|cs| - 1].Checkpoint? then seq(|cs|, _ => a)
    else Telling(cs[..|cs| - 1], a, b) + [b]
  }

  lemma {:induction false} SameThroughout(m: Memory, cs: seq<Call>, id: nat)
    requires Empty(m) && id < |m.pages|
    ensures var e := After(m, cs, seq(|cs|, _ => m.pages[id]));
            |e.pages| == |e.base| == |m.pages| && e.pages[id] == e.base[id] == m.pages[id]
    decreases |cs|
  {
    if cs != [] {
      var n := |cs| - 1;
      SameThroughout(m, cs[..n], id);
      assert seq(|cs|, _ => m.pages[id])[..n] == seq(n, _ => m.pages[id]);
    }
  }

  lemma {:induction false} EarlyWriteIsLost(m: Memory, cs: seq<Call>, id: nat, b: Page)
    requires Empty(m) && id < |m.pages|
    ensures var e := After(m, cs, Telling(cs, m.pages[id], b));
            && |e.pages| == |e.base| == |m.pages| && e.base[id] == m.pages[id]
            && (WrittenEarly(RoomOf(m), |m.pages|, cs, id) ==> OldestImage(e.pages[id], e.records, id) == b)
    decreases |cs|
  {
    if cs != [] {
      var n := |cs| - 1;
      var front, a := cs[..n], m.pages[id];
      if cs[n].Checkpoint? {
        SameThroughout(m, front, id);
        assert seq(|cs|, _ => a)[..n] == seq(n, _ => a);
      } else {
        var contents := Telling(front, a, b);
        EarlyWriteIsLost(m, front, id, b);
        assert Telling(cs, a, b)[..n] == contents;
        LoggedIsScheduled(m, front, contents, id);
        OldestAfterCall(After(m, front, contents), cs[n], b, id);
      }
    }
  }

  /** Undoing the log gives back the page as of the last checkpoint. */
  ghost predicate Restored(m: Memory, id: nat)
    requires id < |m.pages| == |m.base|
  {
    Undo(m.pages, m.records)[id] == m.base[id]
  }

  lemma AnotherPage(a: Page) returns (b: Page)
    ensures a != b
  {
    b := a[0 := if a[0] == 0 then 1 else 0];
    assert a[0] != b[0];
  }

  /** For a schedule of calls, a page is restored whatever is written exactly when no Write of it since the last
      checkpoint comes before the first successful Get of it. */
  lemma RestoredIff(m: Memory, cs: seq<Call>, id: nat)
    requires Empty(m) && id < |m.pages|
    ensures (forall contents :: |contents| == |cs| ==>
               var e := After(m, cs, contents); id < |e.pages| == |e.base| && Restored(e, id))
       <==> !WrittenEarly(RoomOf(m), |m.pages|, cs, id)
  {
    if !WrittenEarly(RoomOf(m), |m.pages|, cs, id) {
      forall contents | |contents| == |cs|
        ensures var e := After(m, cs, contents); id < |e.pages| == |e.base| && Restored(e, id)
      {
        var e := After(m, cs, contents);
        LoggedIsScheduled(m, cs, contents, id);
        UndoLeavesOldest(e.pages, e.records, id);
      }
    } else {
      var b := AnotherPage(m.pages[id]);
      var contents := Telling(cs, m.pages[id], b);
      var e := After(m, cs, contents);
      EarlyWriteIsLost(m, cs, id, b);
      UndoLeavesOldest(e.pages, e.records, id);
      assert !Restored(e, id);
    }
  }

  // ----- The log itself, as the calls change it

  class Log {
    const magic: Magic
    var data: array<bv8>  // the mapped log; wal.size is its length
    var offset: nat
    var pages: seq<Page>  // the mapped pages
    ghost var records: seq<Record>
    ghost var base: seq<Page>    // the pages at the last checkpoint

    ghost predicate Valid()
      reads this, data
    {
      && RECORD_BYTES <= data.Length && offset <= data.Length
      && offset == |records| * RECORD_BYTES
      && data[..offset] == EncodeAll(magic, records)
      && |base| == |pages| <= UINT64
      && (forall r <- records :: Fits(r))
    }

    ghost function Now(): Memory
      reads this
    {
      Memory(pages, records, data.Length, base)
    }

    constructor (magic: Magic, size: nat, pages: seq<Page>)
      requires RECORD_BYTES <= size && |pages| <= UINT64
      ensures Valid() && fresh(data)
      ensures Now() == Memory(pages, [], size, pages) && Empty(Now())
    {
      this.magic := magic;
      data := new bv8[size](_ => 0);
      offset := 0;
      this.pages := pages;
      records, base := [], pages;
    }

    /** jdbx_get_page_for_write: the page's current image is in the log before the caller gets the page. */
    method GetPageForWrite(id: nat, transaction: nat, grows: bool) returns (ok: bool)
      requires Valid() && transaction < UINT64
      modifies this`data, this`offset, this`records, data
      ensures Valid() && (data == old(data) || fresh(data))
      ensures ok <==> id < |pages| && (old(offset) + RECORD_BYTES <= old(data.Length) || grows)
      ensures forall contents :: Now() == Called(old(Now()), Get(id, transaction, grows), contents)
      ensures records == if ok then old(records) + [Record(transaction, id, pages[id])] else old(records)
      ensures data.Length ==
              if ok && old(offset) + RECORD_BYTES > old(data.Length) then 2 * old(data.Length) else old(data.Length)
    {
      hide Encode, EncodeAll;
      if id >= |pages| {
        return false;
      }
      if offset + RECORD_BYTES > data.Length {
        if !grows {
          return false;
        }
        Double();
      }
      var r := Record(transaction, id, pages[id]);
      Append(Encode(magic, r));
      LoggingOneMore(magic, records, r);
      records := records + [r];
      return true;
    }

    /** Lines 583-599: the mapping moves to one twice the size with the same contents. */
    method Double()
      requires offset <= data.Length
      modifies this`data
      ensures fresh(data) && data.Length == 2 * old(data.Length) && data[..offset] == old(data[..offset])
    {
      var bigger := new bv8[data.Length * 2](_ => 0);
      forall k | 0 <= k < data.Length {
        bigger[k] := data[k];
      }
      data := bigger;
    }

    method Append(bytes: seq<bv8>)
      requires offset + |bytes| <= data.Length
      modifies this`offset, data
      ensures offset == old(offset) + |bytes|
      ensures data[..offset] == old(data[..offset]) + bytes
    {
      forall k | 0 <= k < |bytes| {
        data[offset + k] := bytes[k];
      }
      offset := offset + |bytes|;
    }

    /** The caller's own change to a page. Nothing makes the caller log the page first. */
    method WritePage(id: nat, contents: Page)
      requires Valid() && id < |pages|
      modifies this`pages
      ensures Valid() && Now() == Called(old(Now()), Write(id), contents)
    {
      pages := pages[id := contents];
    }

    /** The log part of jdbx_checkpoint: the offset is reset and the whole region cleared. */
    method TakeCheckpoint()
      requires Valid()
      modifies this`offset, this`records, this`base, data
      ensures Valid() && Empty(Now())
      ensures forall contents :: Now() == Called(old(Now()), Checkpoint, contents)
      ensures forall k :: 0 <= k < data.Length ==> data[k] == 0
    {
      offset := 0;
      forall k | 0 <= k < data.Length {
        data[k] := 0;
      }
      records, base := [], pages;
    }
  }
}
