/**
 The mmap implementation of src/ert/libc/mman.c, which manages the whole enclave heap.

 The heap is an array of 64-bit words.  Its first pages hold the bitmap, all others are data pages.
 Addresses are byte addresses.  PageSpec.dfy says what the allocator promises.
 */
module PageAllocator {
  import opened Bitset
  import opened Common
  import opened PageSpec

  const PAGE_SIZE: nat := 4096
  const WORD_BYTES: nat := 8
  const PAGE_WORDS: nat := 512
  const CHAR_BIT: nat := 8
  const ADDRESS_SPACE: nat := 0x1_0000_0000_0000_0000

  /** oe_round_up_to_page_size on a 64-bit size_t: lengths in the last page of the address space wrap to 0. */
  function RoundUp(n: nat): (r: nat)
    ensures r % PAGE_SIZE == 0
    ensures n + PAGE_SIZE <= ADDRESS_SPACE ==> n <= r < n + PAGE_SIZE
    ensures n < ADDRESS_SPACE < n + PAGE_SIZE ==> r == 0
  {
    (n + PAGE_SIZE - 1) % ADDRESS_SPACE / PAGE_SIZE * PAGE_SIZE
  }

  /** The number of bytes _init reserves for the bitmap of a heap of fullSize bytes. */
  function BitmapSize(fullSize: nat): nat {
    RoundUp(fullSize / (CHAR_BIT * PAGE_SIZE))
  }

  /** The bitmap is smaller than the heap and has a bit for each data page. */
  predicate SplitWorks(fullSize: nat) {
    && BitmapSize(fullSize) < fullSize
    && (fullSize - BitmapSize(fullSize)) / PAGE_SIZE <= CHAR_BIT * BitmapSize(fullSize)
  }

  /** The bitmap has one page for each 32768 pages of the heap, and one more for a rest of at least 8 pages. */
  lemma BitmapPages(pages: nat)
    requires pages * PAGE_SIZE + PAGE_SIZE <= ADDRESS_SPACE
    ensures BitmapSize(pages * PAGE_SIZE) == (pages / 32768 + if pages % 32768 >= 8 then 1 else 0) * PAGE_SIZE
  {
    var k, r := pages / 32768, pages % 32768;
    assert pages * PAGE_SIZE / (CHAR_BIT * PAGE_SIZE) == pages / 8 == 4096 * k + r / 8;
    assert r / 8 < 4096;
  }

  /**
   The heap split gives every data page a bit exactly when the pages beyond a multiple of 32768 are
   at least 8, or no more than the bitmap pages that the full multiples get.
   */
  lemma HeapSplit(pages: nat)
    requires 0 < pages && pages * PAGE_SIZE + PAGE_SIZE <= ADDRESS_SPACE
    ensures SplitWorks(pages * PAGE_SIZE) <==> pages % 32768 >= 8 || pages % 32768 <= pages / 32768
  {
    BitmapPages(pages);
  }

  lemma HeapSplitMultipleOf8(pages: nat)
    requires 0 < pages && pages % 8 == 0 && pages * PAGE_SIZE + PAGE_SIZE <= ADDRESS_SPACE
    ensures SplitWorks(pages * PAGE_SIZE)
  {
    HeapSplit(pages);
  }

  /** A heap of 32770 pages gets a bitmap of one page, which is one bit short. */
  lemma HeapSplitFails()
    ensures !SplitWorks(32770 * PAGE_SIZE)
  {
    HeapSplit(32770);
  }

  /** The split works exactly if the bit of every data page lies in the bitmap and not in a data page. */
  lemma SplitMeans(pages: nat)
    requires 0 < pages && pages * PAGE_SIZE + PAGE_SIZE <= ADDRESS_SPACE
    ensures var full := pages * PAGE_SIZE;
      SplitWorks(full) <==>
        forall p: nat :: p < (full - BitmapSize(full)) / PAGE_SIZE ==> p / WORD_BITS < BitmapSize(full) / WORD_BYTES
  {
    HeapSplit(pages);
    var full := pages * PAGE_SIZE;
    var total, words := (full - BitmapSize(full)) / PAGE_SIZE, BitmapSize(full) / WORD_BYTES;
    assert BitmapSize(full) == WORD_BYTES * words;
    if total > WORD_BITS * words {
      assert (total - 1) / WORD_BITS >= words;
    }
  }

  /** A range of whole pages in terms of bytes and of pages. */
  lemma WholePages(base: nat, addr: nat, length: nat, total: nat)
    requires base % PAGE_SIZE == 0 && addr % PAGE_SIZE == 0 && length % PAGE_SIZE == 0 && base <= addr
    ensures addr == base + (addr - base) / PAGE_SIZE * PAGE_SIZE
    ensures addr + length <= base + PAGE_SIZE * total <==> (addr - base) / PAGE_SIZE + length / PAGE_SIZE <= total
  {
    assert addr == base + (addr - base) / PAGE_SIZE * PAGE_SIZE;
    assert length == length / PAGE_SIZE * PAGE_SIZE;
  }

  // ---------- the used pages in terms of bits ----------

  ghost function UsedIn(words: seq<bv64>, total: nat): set<nat>
    requires total <= WORD_BITS * |words|
  {
    set p: nat | p in Pages(0, total) && Get(words, p)
  }

  lemma FitsIsFreeRun(words: seq<bv64>, total: nat, pos: nat, count: nat)
    requires total <= WORD_BITS * |words|
    ensures Fits(UsedIn(words, total), total, pos, count) <==> FreeRun(words, total, pos, count)
  {
    var used := UsedIn(words, total);
    if FreeRun(words, total, pos, count) {
      forall p | p in Pages(pos, count) ensures p !in used {
        assert !Get(words, p);
      }
    }
    if Fits(used, total, pos, count) {
      forall k: nat | pos <= k < pos + count ensures !Get(words, k) {
        assert k in Pages(pos, count);
      }
    }
  }

  lemma FirstFitIsLowestFit(words: seq<bv64>, total: nat, count: nat, r: nat)
    requires total <= WORD_BITS * |words| && IsFirstFit(words, total, count, r)
    ensures LowestFit(UsedIn(words, total), total, count) == if r == SIZE_MAX then None else Some(r)
  {
    forall pos: nat ensures
      Fits(UsedIn(words, total), total, pos, count) <==> FreeRun(words, total, pos, count)
    {
      FitsIsFreeRun(words, total, pos, count);
    }
    LowestFitUnique(UsedIn(words, total), total, count, if r == SIZE_MAX then None else Some(r));
  }

  lemma UsedAfterUpdate(was: seq<bv64>, now: seq<bv64>, total: nat, pos: nat, count: nat, value: bool)
    requires total <= WORD_BITS * |was| && pos + count <= total
    requires Updated(was, now, pos, pos + count, value)
    ensures UsedIn(now, total) ==
      if value then UsedIn(was, total) + Pages(pos, count) else UsedIn(was, total) - Pages(pos, count)
  {
  }

  /** The used pages depend on the bitmap words only. */
  lemma UsedInBitmap(was: seq<bv64>, now: seq<bv64>, total: nat, bitmapWords: nat)
    requires total <= WORD_BITS * bitmapWords && bitmapWords <= |was| == |now|
    requires forall w: nat :: w < bitmapWords ==> was[w] == now[w]
    ensures UsedIn(was, total) == UsedIn(now, total)
  {
    forall p: nat | p < total ensures Get(was, p) == Get(now, p) {
      assert p / WORD_BITS < bitmapWords;
    }
  }

  lemma NothingUsed(words: seq<bv64>, total: nat, bitmapWords: nat)
    requires total <= WORD_BITS * bitmapWords && bitmapWords <= |words|
    requires forall w: nat :: w < bitmapWords ==> words[w] == 0
    ensures UsedIn(words, total) == {}
  {
    forall p: nat | p < total ensures !Get(words, p) {
      assert p / WORD_BITS < bitmapWords;
      ZeroWord(words[p / WORD_BITS]);
    }
  }

  /** memset(..., 0, ...) of whole words. */
  method ZeroWords(words: array<bv64>, from: nat, count: nat)
    requires from + count <= words.Length
    modifies words
    ensures forall w: nat :: from <= w < from + count ==> words[w] == 0
    ensures forall w: nat :: w < words.Length && !(from <= w < from + count) ==> words[w] == old(words[w])
  {
    forall w | from <= w < from + count {
      words[w] := 0;
    }
  }

  // ---------- the allocator ----------

  datatype Errno = EINVAL | ENOMEM | ENOSYS

  /** WildWrite: the source sets bits or clears bytes outside of the heap. */
  datatype MmapResult = Mapped(addr: nat) | Failed(errno: Errno) | WildWrite

  /** Done is a result of 0. */
  datatype Status = Done | Error(errno: Errno) | WildWrite

  class Heap {
    const heap: array<bv64>
    const heapBase: nat
    var base: nat   // 0 until the first mmap
    var size: nat

    function FullSize(): nat {
      WORD_BYTES * heap.Length
    }

    ghost predicate Valid()
      reads this
    {
      && 0 < heapBase && heapBase % PAGE_SIZE == 0
      && heap.Length % PAGE_WORDS == 0
      && heapBase + FullSize() < ADDRESS_SPACE
      && (base == 0 ==> size == 0)
      && (base != 0 ==>
        && base == heapBase + BitmapSize(FullSize())
        && size == FullSize() - BitmapSize(FullSize()))
    }

    /** The heap is one of those for which the split gives a bit to each data page. */
    predicate Works() {
      SplitWorks(FullSize())
    }

    function Total(): nat
      reads this
    {
      size / PAGE_SIZE
    }

    function BitmapWords(): nat {
      BitmapSize(FullSize()) / WORD_BYTES
    }

    /** The index of the first word of the byte address addr. */
    function WordOf(addr: nat): nat
      requires heapBase <= addr
    {
      (addr - heapBase) / WORD_BYTES
    }

    lemma Layout()
      requires Valid()
      ensures WORD_BYTES * BitmapWords() == BitmapSize(FullSize())
      ensures BitmapWords() <= heap.Length && Total() <= heap.Length
      ensures Works() ==> BitmapWords() < heap.Length && Total() <= WORD_BITS * BitmapWords()
      ensures base != 0 ==> base % PAGE_SIZE == 0 && size == PAGE_SIZE * Total()
      ensures base != 0 ==> heap.Length == BitmapWords() + PAGE_WORDS * Total()
      ensures base != 0 ==> forall pos: nat :: WordOf(base + pos * PAGE_SIZE) == BitmapWords() + PAGE_WORDS * pos
    {
    }

    lemma PageRange(addr: nat, length: nat)
      requires Valid() && base != 0 && InHeap(addr, length)
      requires addr % PAGE_SIZE == 0 && length % PAGE_SIZE == 0
      ensures addr == base + ToPos(addr) * PAGE_SIZE
      ensures ToPos(addr) + length / PAGE_SIZE <= Total()
    {
      WholeHeap();
      WholePages(base, addr, length, Total());
    }

    lemma WholeHeap()
      requires Valid()
      ensures base != 0 ==> base % PAGE_SIZE == 0 && size == PAGE_SIZE * Total()
    {
      Layout();
    }

    /** The two range checks in terms of pages. */
    lemma ChecksInPages(addr: nat, length: nat)
      requires Valid() && addr % PAGE_SIZE == 0 && length % PAGE_SIZE == 0
      ensures LengthInRange(length) <==> 0 < length / PAGE_SIZE < Total()
      ensures LengthInRange(length) ==>
        (InHeap(addr, length) <==> base <= addr && ToPos(addr) + length / PAGE_SIZE <= Total())
    {
      WholeHeap();
      if LengthInRange(length) && base <= addr {
        WholePages(base, addr, length, Total());
      }
    }

    /** The pages in use, numbered from the start of the data area. */
    ghost function Used(): set<nat>
      requires Valid()
      reads this, heap
    {
      Layout();
      UsedIn(heap[..], Total())
    }

    constructor (heap: array<bv64>, heapBase: nat)
      requires 0 < heapBase && heapBase % PAGE_SIZE == 0 && heap.Length % PAGE_WORDS == 0
      requires heapBase + WORD_BYTES * heap.Length < ADDRESS_SPACE
      ensures Valid() && base == 0 && Used() == {}
      ensures this.heap == heap && this.heapBase == heapBase
    {
      this.heap, this.heapBase := heap, heapBase;
      base, size := 0, 0;
    }

    /** Data words outside count pages from pos on are as they were. */
    twostate predicate OtherDataUnchanged(pos: nat, count: nat)
      reads this, heap
    {
      forall w: nat :: BitmapWords() <= w < heap.Length ==>
        (BitmapWords() + PAGE_WORDS * pos <= w < BitmapWords() + PAGE_WORDS * (pos + count)) || heap[w] == old(heap[w])
    }

    ghost predicate ZeroFilled(pos: nat, count: nat)
      reads this, heap
    {
      forall w: nat :: BitmapWords() + PAGE_WORDS * pos <= w < BitmapWords() + PAGE_WORDS * (pos + count) ==>
        w < heap.Length && heap[w] == 0
    }

    method Init()
      requires Valid() && base == 0
      modifies this, heap
      ensures Valid() && base != 0
      ensures forall w: nat :: w < BitmapWords() ==> w < heap.Length && heap[w] == 0
      ensures OtherDataUnchanged(0, 0)
      ensures Works() ==> Used() == {}
    {
      var fullSize := FullSize();
      var bitmapSize := RoundUp(fullSize / (CHAR_BIT * PAGE_SIZE));
      base := heapBase + bitmapSize;
      size := fullSize - bitmapSize;
      Layout();
      ZeroWords(heap, 0, bitmapSize / WORD_BYTES);
      if Works() {
        NothingUsed(heap[..], Total(), BitmapWords());
      }
    }

    predicate LengthInRange(length: nat)
      reads this
    {
      0 < length < size
    }

    /** The check of the source on 64-bit addresses. */
    predicate AddrInRange(addr: nat, length: nat)
      reads this
    {
      base <= addr && (addr + length) % ADDRESS_SPACE <= base + size
    }

    predicate InHeap(addr: nat, length: nat)
      reads this
    {
      base <= addr && addr + length <= base + size
    }

    predicate Wraps(addr: nat, length: nat) {
      addr + length >= ADDRESS_SPACE
    }

    /** For a length that passed its own check, the address check is right exactly if the end does not wrap. */
    lemma RangeCheckExact(addr: nat, length: nat)
      requires Valid() && addr < ADDRESS_SPACE && LengthInRange(length)
      ensures (AddrInRange(addr, length) <==> InHeap(addr, length)) <==> !Wraps(addr, length)
      ensures Wraps(addr, length) ==> AddrInRange(addr, length) && !InHeap(addr, length)
    {
    }

    function ToPos(addr: nat): nat
      requires base <= addr
      reads this
    {
      (addr - base) / PAGE_SIZE
    }

    /** Clears count data pages from pos on; the bitmap in the same heap is out of reach. */
    method ZeroPages(pos: nat, count: nat)
      requires Valid() && Works() && base != 0 && pos + count <= Total()
      modifies heap
      ensures Used() == old(Used())
      ensures ZeroFilled(pos, count) && OtherDataUnchanged(pos, count)
    {
      Layout();
      ghost var was := heap[..];
      ZeroWords(heap, WordOf(base + pos * PAGE_SIZE), PAGE_WORDS * count);
      UsedInBitmap(was, heap[..], Total(), BitmapWords());
    }

    /** Marks count pages from pos on as used and clears them. */
    method Reserve(pos: nat, count: nat)
      requires Valid() && Works() && base != 0 && pos + count <= Total()
      modifies heap
      ensures Used() == old(Used()) + Pages(pos, count)
      ensures ZeroFilled(pos, count) && OtherDataUnchanged(pos, count)
    {
      Layout();
      ghost var was := heap[..];
      SetRange(heap, pos, count);
      UsedAfterUpdate(was, heap[..], Total(), pos, count, true);
      ghost var marked := heap[..];
      assert forall w: nat :: BitmapWords() <= w < heap.Length ==> marked[w] == was[w];
      ZeroPages(pos, count);
    }

    /** The caller has obtained count cleared pages from pos on, and nothing else changed. */
    twostate predicate Obtained(r: MmapResult, pos: nat, count: nat)
      requires old(Valid()) && Valid()
      reads this, heap
    {
      && r == Mapped(base + pos * PAGE_SIZE)
      && pos + count <= Total()
      && Used() == old(Used()) + Pages(pos, count)
      && ZeroFilled(pos, count) && OtherDataUnchanged(pos, count)
    }

    twostate predicate Refused(r: MmapResult, errno: Errno)
      requires old(Valid()) && Valid()
      reads this, heap
    {
      r == Failed(errno) && Used() == old(Used()) && OtherDataUnchanged(0, 0)
    }

    method Map(length: nat) returns (r: MmapResult)
      requires Valid() && Works() && base != 0 && length % PAGE_SIZE == 0 && LengthInRange(length)
      modifies heap
      ensures match LowestFit(old(Used()), Total(), length / PAGE_SIZE)
        case None => Refused(r, ENOMEM)
        case Some(pos) => Obtained(r, pos, length / PAGE_SIZE)
    {
      Layout();
      var count := length / PAGE_SIZE;
      var pos := FindUnsetRange(heap, size / PAGE_SIZE, count);
      FirstFitIsLowestFit(heap[..], Total(), count, pos);
      LowestFitIsLowest(Used(), Total(), count, 0);
      if pos == SIZE_MAX {
        return Failed(ENOMEM);
      }
      Reserve(pos, count);
      return Mapped(base + pos * PAGE_SIZE);
    }

    method MapFixed(addr: nat, length: nat) returns (r: MmapResult)
      requires Valid() && Works() && base != 0 && addr % PAGE_SIZE == 0 && length % PAGE_SIZE == 0
      requires addr < ADDRESS_SPACE && LengthInRange(length)
      modifies heap
      ensures if Wraps(addr, length) then r == MmapResult.WildWrite
        else if InHeap(addr, length) then r == Mapped(addr) && Obtained(r, ToPos(addr), length / PAGE_SIZE)
        else Refused(r, ENOMEM)
    {
      RangeCheckExact(addr, length);
      if !AddrInRange(addr, length) {
        return Failed(ENOMEM);
      }
      if Wraps(addr, length) {
        return MmapResult.WildWrite;
      }
      // MAP_FIXED discards overlapped parts of existing mappings
      PageRange(addr, length);
      Reserve(ToPos(addr), length / PAGE_SIZE);
      return Mapped(addr);
    }

    /** The first page that a request with valid arguments obtains, unless its end wraps. */
    ghost function Grant(used: set<nat>, addr: nat, length: nat, fixed: bool): (r: Option<nat>)
      reads this
    {
      if !LengthInRange(length) then None
      else if !fixed then LowestFit(used, Total(), length / PAGE_SIZE)
      else if InHeap(addr, length) then Some(ToPos(addr))
      else None
    }

    predicate InvalidArgs(addr: nat, length: nat, fixed: bool) {
      length == 0 || (addr == 0) != !fixed || addr % PAGE_SIZE != 0
    }

    predicate Unsupported(anon: bool, fd: int, offset: int) {
      offset != 0 || (fd != -1 && !anon)
    }

    /** A MAP_FIXED request that passes both range checks although its end wraps. */
    predicate WildRequest(addr: nat, length: nat, fixed: bool)
      reads this
    {
      fixed && LengthInRange(length) && Wraps(addr, length)
    }

    /** The part of ert_mmap that runs under the lock. */
    method MapLocked(addr: nat, length: nat, fixed: bool) returns (r: MmapResult)
      requires Valid() && Works() && base != 0 && addr % PAGE_SIZE == 0 && length % PAGE_SIZE == 0
      requires addr < ADDRESS_SPACE
      modifies heap
      ensures WildRequest(addr, length, fixed) ==> r == MmapResult.WildWrite
      ensures !WildRequest(addr, length, fixed) ==>
        match Grant(old(Used()), addr, length, fixed)
        case None => Refused(r, ENOMEM)
        case Some(pos) => Obtained(r, pos, length / PAGE_SIZE)
    {
      if !LengthInRange(length) {
        return Failed(ENOMEM);
      }
      if fixed {
        r := MapFixed(addr, length);
      } else {
        r := Map(length);
      }
    }

    /** fixed and anon are the flags MAP_FIXED and MAP_ANON. */
    method Mmap(addr: nat, length: nat, fixed: bool, anon: bool, fd: int, offset: int) returns (r: MmapResult)
      requires Valid() && Works() && addr < ADDRESS_SPACE && length < ADDRESS_SPACE
      modifies this, heap
      ensures Valid()
      ensures InvalidArgs(addr, length, fixed) ==> Refused(r, EINVAL)
      ensures !InvalidArgs(addr, length, fixed) && Unsupported(anon, fd, offset) ==> Refused(r, ENOSYS)
      ensures !InvalidArgs(addr, length, fixed) && !Unsupported(anon, fd, offset) ==>
        base != 0 &&
        if WildRequest(addr, RoundUp(length), fixed) then r == MmapResult.WildWrite
        else
          match Grant(old(Used()), addr, RoundUp(length), fixed)
          case None => Refused(r, ENOMEM)
          case Some(pos) => Obtained(r, pos, RoundUp(length) / PAGE_SIZE)
      // A request is granted exactly if it leaves a page over and its pages are there.
      ensures r.Mapped? ==> !InvalidArgs(addr, length, fixed) && !Unsupported(anon, fd, offset)
      ensures !InvalidArgs(addr, length, fixed) && !Unsupported(anon, fd, offset) && !fixed ==>
        var count := RoundUp(length) / PAGE_SIZE;
        r.Mapped? <==> 0 < count < Total() && exists pos: nat :: Fits(old(Used()), Total(), pos, count)
      ensures !InvalidArgs(addr, length, fixed) && !Unsupported(anon, fd, offset) && fixed ==>
        var count := RoundUp(length) / PAGE_SIZE;
        && (r == MmapResult.WildWrite <==> 0 < count < Total() && addr + RoundUp(length) >= ADDRESS_SPACE)
        && (addr + RoundUp(length) < ADDRESS_SPACE ==>
          (r.Mapped? <==> 0 < count < Total() && base <= addr && ToPos(addr) + count <= Total()))
      // Every call that obtains pages is one step of a run in the sense of PageSpec.
      ensures r.Mapped? ==> base <= addr || !fixed
      ensures r.Mapped? ==> Used() == Step(old(Used()), Total(),
        if fixed then Fixed(ToPos(addr), RoundUp(length) / PAGE_SIZE) else Request.Map(RoundUp(length) / PAGE_SIZE))
    {
      // check for invalid args
      if length == 0 || (addr == 0) != !fixed || addr % PAGE_SIZE != 0 {
        return Failed(EINVAL);
      }

      // check for unsupported args
      if offset != 0 || (fd != -1 && !anon) {
        return Failed(ENOSYS);
      }

      if base == 0 {
        Init();
      }
      ghost var used := Used();
      r := MapLocked(addr, RoundUp(length), fixed);
      ChecksInPages(addr, RoundUp(length));
      LowestFitIsLowest(used, Total(), RoundUp(length) / PAGE_SIZE, 0);
    }

    method Munmap(addr: nat, length: nat) returns (r: Status)
      requires Valid() && Works() && addr < ADDRESS_SPACE && length < ADDRESS_SPACE
      modifies heap
      ensures var count := RoundUp(length) / PAGE_SIZE;
        && (r == Status.WildWrite <==>
          addr % PAGE_SIZE == 0 && 0 < count < Total() && addr + RoundUp(length) >= ADDRESS_SPACE)
        && (r == Done <==>
          addr % PAGE_SIZE == 0 && 0 < count < Total() && base <= addr && ToPos(addr) + count <= Total())
      ensures r.Error? ==> r.errno == EINVAL
      ensures r != Status.WildWrite ==> OtherDataUnchanged(0, 0)
      ensures r == Done ==> Used() == Step(old(Used()), Total(), Unmap(ToPos(addr), RoundUp(length) / PAGE_SIZE))
      ensures r.Error? ==> Used() == old(Used())
    {
      var rounded := RoundUp(length);
      if addr % PAGE_SIZE == 0 {
        ChecksInPages(addr, rounded);
      }
      r := Error(EINVAL);
      if LengthInRange(rounded) && AddrInRange(addr, rounded) && addr % PAGE_SIZE == 0 {
        RangeCheckExact(addr, rounded);
        if Wraps(addr, rounded) {
          return Status.WildWrite;
        }
        ResetPages(addr, rounded);
        r := Done;
      } else if LengthInRange(rounded) {
        RangeCheckExact(addr, rounded);
      }
    }

    method ResetPages(addr: nat, length: nat)
      requires Valid() && Works() && base != 0 && InHeap(addr, length)
      requires addr % PAGE_SIZE == 0 && length % PAGE_SIZE == 0
      modifies heap
      ensures Used() == old(Used()) - Pages(ToPos(addr), length / PAGE_SIZE)
      ensures OtherDataUnchanged(0, 0)
    {
      Layout();
      PageRange(addr, length);
      ghost var was := heap[..];
      ResetRange(heap, ToPos(addr), length / PAGE_SIZE);
      UsedAfterUpdate(was, heap[..], Total(), ToPos(addr), length / PAGE_SIZE, false);
      ghost var now := heap[..];
      assert forall w: nat :: BitmapWords() <= w < heap.Length ==> now[w] == was[w];
    }

    /** dontneed tells whether the advice is MADV_DONTNEED. */
    method Madvise(addr: nat, length: nat, dontneed: bool) returns (r: Status)
      requires Valid() && Works() && addr < ADDRESS_SPACE && length < ADDRESS_SPACE
      modifies heap
      ensures r == Error(EINVAL) <==> addr % PAGE_SIZE != 0
      ensures addr % PAGE_SIZE == 0 && (length == 0 || !dontneed) ==> r == Done
      ensures addr % PAGE_SIZE == 0 && length != 0 && dontneed ==>
        var count := RoundUp(length) / PAGE_SIZE;
        && (r == Status.WildWrite <==> 0 < count < Total() && addr + RoundUp(length) >= ADDRESS_SPACE)
        && (r == Done <==> 0 < count < Total() && base <= addr && ToPos(addr) + count <= Total())
        && (r.Error? ==> r.errno == ENOMEM)
      ensures r == Done && length != 0 && dontneed ==>
        && ZeroFilled(ToPos(addr), RoundUp(length) / PAGE_SIZE)
        && OtherDataUnchanged(ToPos(addr), RoundUp(length) / PAGE_SIZE)
      ensures r.Error? || length == 0 || !dontneed ==> OtherDataUnchanged(0, 0)
      ensures r != Status.WildWrite ==> Used() == old(Used())
    {
      if addr % PAGE_SIZE != 0 {
        return Error(EINVAL);
      }
      if length == 0 || !dontneed {
        return Done;
      }
      r := Error(ENOMEM);
      var rounded := RoundUp(length);
      ChecksInPages(addr, rounded);
      if LengthInRange(rounded) {
        RangeCheckExact(addr, rounded);
      }
      if LengthInRange(rounded) && AddrInRange(addr, rounded) {
        if Wraps(addr, rounded) {
          return Status.WildWrite;
        }
        PageRange(addr, rounded);
        ZeroPages(ToPos(addr), rounded / PAGE_SIZE);
        r := Done;
      }
    }
  }
}
