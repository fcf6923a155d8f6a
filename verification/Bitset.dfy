/**
 The word-level bitset of src/ert/common/bitset.c.

 A bitset is an array of 64-bit words.  Bit k of the bitset is bit k % 64 of word k / 64.
 The range updates and searches work on masks and whole words; their contracts speak of single bits.
 */
module Bitset {

  const WORD_BITS := 64
  const SIZE_MAX: nat := 0xFFFF_FFFF_FFFF_FFFF
  const ALL_ONES: bv64 := 0xFFFF_FFFF_FFFF_FFFF

  // ---------- bits of one word ----------

  /** A shift amount below the word width, as a bit-vector.  See IdxIsIdentity. */
  function Idx(n: nat): bv6 {
    if n == 0 then 0 else Idx(n - 1) + 1
  }

  predicate BvBit(w: bv64, i: bv6) {
    (w >> i) & 1 == 1
  }

  predicate Bit(w: bv64, i: nat) {
    BvBit(w, Idx(i))
  }

  lemma BvSuccessor(a: bv6)
    requires a as nat < 63
    ensures (a + 1) as nat == a as nat + 1
  {
  }

  lemma BvOrder(a: bv6, b: bv6)
    ensures a <= b <==> a as nat <= b as nat
  {
  }

  lemma BvComplement(a: bv6)
    ensures (63 - a) as nat == 63 - a as nat
  {
  }

  lemma {:induction false} IdxIsIdentity(n: nat)
    requires n < WORD_BITS
    ensures Idx(n) as nat == n
  {
    if n > 0 {
      IdxIsIdentity(n - 1);
      BvSuccessor(Idx(n - 1));
    }
  }

  lemma IdxOrder(a: nat, b: nat)
    requires a < WORD_BITS && b < WORD_BITS
    ensures Idx(a) <= Idx(b) <==> a <= b
  {
    IdxIsIdentity(a);
    IdxIsIdentity(b);
    BvOrder(Idx(a), Idx(b));
  }

  /** The C operator << with a shift below the word width; a larger shift is undefined in C. */
  function ShiftLeft(w: bv64, n: nat): bv64
    requires n < WORD_BITS
  {
    w << Idx(n)
  }

  /** The C operator >> on unsigned words, with a shift below the word width. */
  function ShiftRight(w: bv64, n: nat): bv64
    requires n < WORD_BITS
  {
    w >> Idx(n)
  }

  lemma BvHighMask(s: bv6, i: bv6)
    ensures BvBit(ALL_ONES << s, i) <==> s <= i
  {
  }

  lemma BvLowMask(s: bv6, i: bv6)
    ensures BvBit(ALL_ONES >> s, i) <==> i <= 63 - s
  {
  }

  lemma BvOr(a: bv64, b: bv64, i: bv6)
    ensures BvBit(a | b, i) <==> BvBit(a, i) || BvBit(b, i)
  {
  }

  lemma BvAnd(a: bv64, b: bv64, i: bv6)
    ensures BvBit(a & b, i) <==> BvBit(a, i) && BvBit(b, i)
  {
  }

  lemma BvAndNot(a: bv64, b: bv64, i: bv6)
    ensures BvBit(a & !b, i) <==> BvBit(a, i) && !BvBit(b, i)
  {
  }

  lemma BvXor(a: bv64, invert: bv64, i: bv6)
    requires invert == 0 || invert == ALL_ONES
    ensures BvBit(a ^ invert, i) <==> (BvBit(a, i) <==> invert == 0)
  {
  }

  lemma OrBit(a: bv64, b: bv64, i: nat)
    ensures Bit(a | b, i) <==> Bit(a, i) || Bit(b, i)
  {
    BvOr(a, b, Idx(i));
  }

  lemma AndBit(a: bv64, b: bv64, i: nat)
    ensures Bit(a & b, i) <==> Bit(a, i) && Bit(b, i)
  {
    BvAnd(a, b, Idx(i));
  }

  lemma AndNotBit(a: bv64, b: bv64, i: nat)
    ensures Bit(a & !b, i) <==> Bit(a, i) && !Bit(b, i)
  {
    BvAndNot(a, b, Idx(i));
  }

  lemma XorBit(a: bv64, invert: bv64, i: nat)
    requires invert == 0 || invert == ALL_ONES
    ensures Bit(a ^ invert, i) <==> (Bit(a, i) <==> invert == 0)
  {
    BvXor(a, invert, Idx(i));
  }

  lemma HighMask(s: nat, i: nat)
    requires s < WORD_BITS && i < WORD_BITS
    ensures Bit(ShiftLeft(ALL_ONES, s), i) <==> s <= i
  {
    BvHighMask(Idx(s), Idx(i));
    IdxOrder(s, i);
  }

  lemma LowMask(s: nat, i: nat)
    requires s < WORD_BITS && i < WORD_BITS
    ensures Bit(ShiftRight(ALL_ONES, s), i) <==> i < WORD_BITS - s
  {
    BvLowMask(Idx(s), Idx(i));
    BvOrder(Idx(i), 63 - Idx(s));
    BvComplement(Idx(s));
    IdxIsIdentity(s);
    IdxIsIdentity(i);
  }

  lemma BvDropBit(w: bv64, k: bv6)
    requires k < 63 && w >> (k + 1) == 0 && !BvBit(w, k)
    ensures w >> k == 0
  {
  }

  lemma BvTopBit(w: bv64)
    requires !BvBit(w, 63)
    ensures w >> (63 as bv6) == 0
  {
  }

  lemma {:induction false} NoHighBits(w: bv64, k: nat)
    requires k < WORD_BITS
    requires forall i: nat :: k <= i < WORD_BITS ==> !Bit(w, i)
    ensures w >> Idx(k) == 0
    decreases WORD_BITS - k
  {
    IdxIsIdentity(k);
    BvOrder(Idx(k), 62);
    assert !Bit(w, k);
    if k == 63 {
      BvOrder(Idx(k), 63);
      BvOrder(63, Idx(k));
      BvTopBit(w);
    } else {
      NoHighBits(w, k + 1);
      BvDropBit(w, Idx(k));
    }
  }

  lemma BvShiftZero(w: bv64)
    ensures w >> (0 as bv6) == w
    ensures w << (0 as bv6) == w
  {
  }

  lemma BvZeroWord(i: bv6)
    ensures !BvBit(0, i)
  {
  }

  /** A word is zero exactly when none of its 64 bits is set. */
  lemma ZeroWord(w: bv64)
    ensures w == 0 <==> forall i: nat :: i < WORD_BITS ==> !Bit(w, i)
  {
    if w == 0 {
      forall i: nat | i < WORD_BITS ensures !Bit(w, i) {
        BvZeroWord(Idx(i));
      }
    }
    if forall i: nat :: i < WORD_BITS ==> !Bit(w, i) {
      NoHighBits(w, 0);
      BvShiftZero(w);
    }
  }

  /** The builtin count-trailing-zeros: the index of the lowest set bit. */
  function CountTrailingZeros(w: bv64): (r: nat)
    requires w != 0
    ensures r < WORD_BITS && Bit(w, r)
    ensures forall i: nat :: i < r ==> !Bit(w, i)
  {
    ZeroWord(w);
    LowestBitFrom(w, 0)
  }

  function LowestBitFrom(w: bv64, from: nat): (r: nat)
    requires from <= WORD_BITS
    requires exists i: nat :: from <= i < WORD_BITS && Bit(w, i)
    ensures from <= r < WORD_BITS && Bit(w, r)
    ensures forall i: nat :: from <= i < r ==> !Bit(w, i)
    decreases WORD_BITS - from
  {
    if Bit(w, from) then from else LowestBitFrom(w, from + 1)
  }

  // ---------- bits of a bitset ----------

  /** Bit k of the bitset held in words. */
  predicate Get(words: seq<bv64>, k: nat)
    requires k < WORD_BITS * |words|
  {
    Bit(words[k / WORD_BITS], k % WORD_BITS)
  }

  /** now differs from was exactly in that the bits in [pos, end) have the value set. */
  ghost predicate Updated(was: seq<bv64>, now: seq<bv64>, pos: nat, end: nat, value: bool) {
    && |now| == |was|
    && forall k: nat :: k < WORD_BITS * |was| ==>
      Get(now, k) == if pos <= k < end then value else Get(was, k)
  }

  /** now and was hold the same word wherever no bit of the word lies in [pos, end). */
  ghost predicate UntouchedOutside(was: seq<bv64>, now: seq<bv64>, pos: nat, end: nat) {
    && |now| == |was|
    && forall w: nat :: w < |was| && (WORD_BITS * (w + 1) <= pos || end <= WORD_BITS * w) ==> now[w] == was[w]
  }

  /** now differs from was exactly in that its bits lo up to hi have the value set. */
  ghost predicate Replaced(was: bv64, now: bv64, lo: nat, hi: nat, value: bool) {
    forall i: nat :: i < WORD_BITS ==> Bit(now, i) == if lo <= i < hi then value else Bit(was, i)
  }

  /** mask selects the bits lo up to hi of a word. */
  ghost predicate Selects(mask: bv64, lo: nat, hi: nat) {
    forall i: nat :: i < WORD_BITS ==> (Bit(mask, i) <==> lo <= i < hi)
  }

  lemma FullMask()
    ensures Selects(ALL_ONES, 0, WORD_BITS)
  {
    forall i: nat | i < WORD_BITS ensures Bit(ALL_ONES, i) {
      HighMask(0, i);
      BvShiftZero(ALL_ONES);
    }
  }

  /** The C expression UINTPTR_MAX << s. */
  method MaskFrom(s: nat) returns (mask: bv64)
    requires s < WORD_BITS
    ensures Selects(mask, s, WORD_BITS)
  {
    mask := ShiftLeft(ALL_ONES, s);
    forall i: nat | i < WORD_BITS ensures Bit(mask, i) <==> s <= i {
      HighMask(s, i);
    }
  }

  /** The C expression mask & (UINTPTR_MAX >> s); the shift s stays below the word width. */
  method Truncate(mask: bv64, s: nat, ghost lo: nat) returns (r: bv64)
    requires s < WORD_BITS && Selects(mask, lo, WORD_BITS)
    ensures Selects(r, lo, WORD_BITS - s)
  {
    var low := ShiftRight(ALL_ONES, s);
    r := mask & low;
    forall i: nat | i < WORD_BITS ensures Bit(r, i) <==> lo <= i < WORD_BITS - s {
      LowMask(s, i);
      AndBit(mask, low, i);
    }
  }

  /** The C expression w | mask. */
  method OrMask(w: bv64, mask: bv64, ghost lo: nat, ghost hi: nat) returns (r: bv64)
    requires Selects(mask, lo, hi)
    ensures Replaced(w, r, lo, hi, true)
  {
    r := w | mask;
    forall i: nat | i < WORD_BITS ensures Bit(r, i) == (lo <= i < hi || Bit(w, i)) {
      OrBit(w, mask, i);
    }
  }

  /** The C expression w & ~mask. */
  method AndNotMask(w: bv64, mask: bv64, ghost lo: nat, ghost hi: nat) returns (r: bv64)
    requires Selects(mask, lo, hi)
    ensures Replaced(w, r, lo, hi, false)
  {
    r := w & !mask;
    forall i: nat | i < WORD_BITS ensures Bit(r, i) == (!(lo <= i < hi) && Bit(w, i)) {
      AndNotBit(w, mask, i);
    }
  }

  /** The C expression w ^ invert. */
  method Xor(w: bv64, invert: bv64) returns (r: bv64)
    requires invert == 0 || invert == ALL_ONES
    ensures forall i: nat :: i < WORD_BITS ==> (Bit(r, i) <==> (Bit(w, i) <==> invert == 0))
  {
    r := w ^ invert;
    forall i: nat | i < WORD_BITS ensures Bit(r, i) <==> (Bit(w, i) <==> invert == 0) {
      XorBit(w, invert, i);
    }
  }

  /** The C expression w & mask, where mask selects the bits from lo on. */
  method AndMask(w: bv64, mask: bv64, ghost lo: nat) returns (r: bv64)
    requires Selects(mask, lo, WORD_BITS)
    ensures forall i: nat :: i < WORD_BITS ==> (Bit(r, i) <==> lo <= i && Bit(w, i))
  {
    r := w & mask;
    forall i: nat | i < WORD_BITS ensures Bit(r, i) <==> lo <= i && Bit(w, i) {
      AndBit(w, mask, i);
    }
  }

  /** Replacing word p changes the bitset as it changes the bits of that word. */
  lemma WordUpdated(was: seq<bv64>, p: nat, word: bv64, lo: nat, hi: nat, value: bool)
    requires p < |was| && hi <= WORD_BITS
    requires Replaced(was[p], word, lo, hi, value)
    ensures Updated(was, was[p := word], WORD_BITS * p + lo, WORD_BITS * p + hi, value)
  {
    var now := was[p := word];
    forall k: nat | k < WORD_BITS * |was|
      ensures Get(now, k) == if WORD_BITS * p + lo <= k < WORD_BITS * p + hi then value else Get(was, k)
    {
      var i := k % WORD_BITS;
      assert k == WORD_BITS * (k / WORD_BITS) + i;
      if k / WORD_BITS == p {
        assert Bit(word, i) == if lo <= i < hi then value else Bit(was[p], i);
      }
    }
  }

  lemma UpdatedTwice(a: seq<bv64>, b: seq<bv64>, c: seq<bv64>, pos: nat, mid: nat, end: nat, value: bool)
    requires Updated(a, b, pos, mid, value) && Updated(b, c, mid, end, value) && pos <= mid <= end
    ensures Updated(a, c, pos, end, value)
  {
    forall k: nat | k < WORD_BITS * |a|
      ensures Get(c, k) == if pos <= k < end then value else Get(a, k)
    {
      assert Get(b, k) == if pos <= k < mid then value else Get(a, k);
    }
  }

  /** A rest that ends inside the word of done is non-empty and does not fill the word. */
  lemma LastWord(done: nat, remaining: nat)
    requires 0 < remaining < WORD_BITS - done % WORD_BITS
    ensures (done + remaining) % WORD_BITS == done % WORD_BITS + remaining
    ensures (done + remaining) / WORD_BITS == done / WORD_BITS
  {
  }

  // ---------- range updates ----------

  method SetRange(bitset: array<bv64>, pos: nat, count: nat)
    requires pos + count <= WORD_BITS * bitset.Length
    modifies bitset
    ensures Updated(old(bitset[..]), bitset[..], pos, pos + count, true)
    ensures UntouchedOutside(old(bitset[..]), bitset[..], pos, pos + count)
  {
    ghost var was := bitset[..];
    var p := pos / WORD_BITS;
    var remaining := count;

    // handle first word
    var bitsPerWord := WORD_BITS - pos % WORD_BITS;
    var mask := MaskFrom(pos % WORD_BITS);
    ghost var done := pos;

    while remaining >= bitsPerWord
      invariant 0 <= remaining <= count && done == pos + count - remaining
      invariant p == done / WORD_BITS && bitsPerWord == WORD_BITS - done % WORD_BITS
      invariant Selects(mask, done % WORD_BITS, WORD_BITS)
      invariant Updated(was, bitset[..], pos, done, true)
      invariant UntouchedOutside(was, bitset[..], pos, pos + count)
    {
      ghost var before := bitset[..];
      var word := OrMask(bitset[p], mask, done % WORD_BITS, WORD_BITS);
      WordUpdated(before, p, word, done % WORD_BITS, WORD_BITS, true);
      bitset[p] := word;
      assert bitset[..] == before[p := word];
      UpdatedTwice(was, before, bitset[..], pos, done, WORD_BITS * (p + 1), true);
      remaining := remaining - bitsPerWord;
      done := done + bitsPerWord;
      bitsPerWord := WORD_BITS;
      mask := ALL_ONES;
      FullMask();
      p := p + 1;
    }

    if remaining == 0 {
      return;
    }

    // handle last word
    ghost var lo := done % WORD_BITS;
    LastWord(done, remaining);
    mask := Truncate(mask, WORD_BITS - (pos + count) % WORD_BITS, lo);
    ghost var before := bitset[..];
    var word := OrMask(bitset[p], mask, lo, (pos + count) % WORD_BITS);
    WordUpdated(before, p, word, lo, (pos + count) % WORD_BITS, true);
    bitset[p] := word;
    assert bitset[..] == before[p := word];
    UpdatedTwice(was, before, bitset[..], pos, done, pos + count, true);
  }

  method ResetRange(bitset: array<bv64>, pos: nat, count: nat)
    requires pos + count <= WORD_BITS * bitset.Length
    modifies bitset
    ensures Updated(old(bitset[..]), bitset[..], pos, pos + count, false)
    ensures UntouchedOutside(old(bitset[..]), bitset[..], pos, pos + count)
  {
    ghost var was := bitset[..];
    var p := pos / WORD_BITS;
    var remaining := count;

    // handle first word
    var bitsPerWord := WORD_BITS - pos % WORD_BITS;
    var mask := MaskFrom(pos % WORD_BITS);
    ghost var done := pos;

    while remaining >= bitsPerWord
      invariant 0 <= remaining <= count && done == pos + count - remaining
      invariant p == done / WORD_BITS && bitsPerWord == WORD_BITS - done % WORD_BITS
      invariant Selects(mask, done % WORD_BITS, WORD_BITS)
      invariant Updated(was, bitset[..], pos, done, false)
      invariant UntouchedOutside(was, bitset[..], pos, pos + count)
    {
      ghost var before := bitset[..];
      var word := AndNotMask(bitset[p], mask, done % WORD_BITS, WORD_BITS);
      WordUpdated(before, p, word, done % WORD_BITS, WORD_BITS, false);
      bitset[p] := word;
      assert bitset[..] == before[p := word];
      UpdatedTwice(was, before, bitset[..], pos, done, WORD_BITS * (p + 1), false);
      remaining := remaining - bitsPerWord;
      done := done + bitsPerWord;
      bitsPerWord := WORD_BITS;
      mask := ALL_ONES;
      FullMask();
      p := p + 1;
    }

    if remaining == 0 {
      return;
    }

    // handle last word
    ghost var lo := done % WORD_BITS;
    LastWord(done, remaining);
    mask := Truncate(mask, WORD_BITS - (pos + count) % WORD_BITS, lo);
    ghost var before := bitset[..];
    var word := AndNotMask(bitset[p], mask, lo, (pos + count) % WORD_BITS);
    WordUpdated(before, p, word, lo, (pos + count) % WORD_BITS, false);
    bitset[p] := word;
    assert bitset[..] == before[p := word];
    UpdatedTwice(was, before, bitset[..], pos, done, pos + count, false);
  }

  // ---------- searches ----------

  /** No bit in [start, end) has the value. */
  ghost predicate NoneWanted(words: seq<bv64>, start: nat, end: nat, value: bool)
    requires end <= WORD_BITS * |words|
  {
    forall k: nat :: start <= k < end ==> Get(words, k) != value
  }

  /** r is the first position at or after pos whose bit has the value, or size if there is none. */
  ghost predicate IsNextBit(words: seq<bv64>, size: nat, pos: nat, value: bool, r: nat)
    requires size <= WORD_BITS * |words|
  {
    && r <= size
    && (pos < size ==> pos <= r)
    && (pos >= size ==> r == size)
    && NoneWanted(words, pos, r, value)
    && (r < size ==> Get(words, r) == value)
  }

  /** The set bits of scanned are the bits with the value at or after start in the word that begins at pos. */
  ghost predicate Scanned(words: seq<bv64>, start: nat, pos: nat, value: bool, scanned: bv64)
    requires pos + WORD_BITS <= WORD_BITS * |words|
  {
    forall i: nat :: i < WORD_BITS ==> (Bit(scanned, i) <==> start <= pos + i && Get(words, pos + i) == value)
  }

  lemma ScanWord(words: seq<bv64>, start: nat, pos: nat, value: bool, scanned: bv64, lo: nat)
    requires pos % WORD_BITS == 0 && pos + WORD_BITS <= WORD_BITS * |words|
    requires if start < pos then lo == 0 else start == pos + lo
    requires forall i: nat :: i < WORD_BITS ==>
      (Bit(scanned, i) <==> lo <= i && Bit(words[pos / WORD_BITS], i) == value)
    ensures Scanned(words, start, pos, value, scanned)
  {
    forall i: nat | i < WORD_BITS
      ensures Bit(scanned, i) <==> start <= pos + i && Get(words, pos + i) == value
    {
      assert (pos + i) / WORD_BITS == pos / WORD_BITS && (pos + i) % WORD_BITS == i;
    }
  }

  /** If the lowest n bits of the scanned word at pos are clear, no position below pos + n has the value. */
  lemma SkipClearBits(words: seq<bv64>, start: nat, pos: nat, word: bv64, n: nat, value: bool)
    requires pos + WORD_BITS <= WORD_BITS * |words| && n <= WORD_BITS
    requires NoneWanted(words, start, pos, value) && Scanned(words, start, pos, value, word)
    requires forall i: nat :: i < n ==> !Bit(word, i)
    ensures NoneWanted(words, start, pos + n, value)
    ensures n < WORD_BITS && Bit(word, n) ==> start <= pos + n && Get(words, pos + n) == value
  {
    forall k: nat | start <= k < pos + n ensures Get(words, k) != value {
      if pos <= k {
        assert !Bit(word, k - pos);
        assert pos + (k - pos) == k;
      }
    }
  }

  lemma SkipZeroWord(words: seq<bv64>, start: nat, pos: nat, word: bv64, value: bool)
    requires pos + WORD_BITS <= WORD_BITS * |words| && word == 0
    requires NoneWanted(words, start, pos, value) && Scanned(words, start, pos, value, word)
    ensures NoneWanted(words, start, pos + WORD_BITS, value)
  {
    ZeroWord(word);
    SkipClearBits(words, start, pos, word, WORD_BITS, value);
  }

  /** The first hit is the result, unless it lies beyond the end of the bitset. */
  lemma HitIsNextBit(words: seq<bv64>, size: nat, start: nat, value: bool, hit: nat)
    requires size <= WORD_BITS * |words| && start < size && start <= hit < WORD_BITS * |words|
    requires NoneWanted(words, start, hit, value) && Get(words, hit) == value
    ensures IsNextBit(words, size, start, value, if hit >= size then size else hit)
  {
  }

  /** The offset of the first set bit of a scanned word. */
  method FirstHit(ghost words: seq<bv64>, ghost size: nat, ghost start: nat, ghost pos: nat, word: bv64,
      ghost value: bool)
    returns (n: nat)
    requires size <= WORD_BITS * |words| && start < size
    requires pos + WORD_BITS <= WORD_BITS * |words| && word != 0
    requires NoneWanted(words, start, pos, value) && Scanned(words, start, pos, value, word)
    ensures IsNextBit(words, size, start, value, if pos + n >= size then size else pos + n)
  {
    n := CountTrailingZeros(word);
    SkipClearBits(words, start, pos, word, n, value);
    HitIsNextBit(words, size, start, value, pos + n);
  }

  /** The inverted word that holds position start, without the bits below start. */
  method FirstWord(bitset: array<bv64>, start: nat, invert: bv64) returns (word: bv64)
    requires start < WORD_BITS * bitset.Length && (invert == 0 || invert == ALL_ONES)
    ensures Scanned(bitset[..], start, start - start % WORD_BITS, invert == 0, word)
  {
    word := Xor(bitset[start / WORD_BITS], invert);
    var mask := MaskFrom(start % WORD_BITS);
    word := AndMask(word, mask, start % WORD_BITS);
    ScanWord(bitset[..], start, start - start % WORD_BITS, invert == 0, word, start % WORD_BITS);
  }

  /** The inverted word that begins at position pos. */
  method NextWord(bitset: array<bv64>, pos: nat, invert: bv64, ghost start: nat) returns (word: bv64)
    requires pos < WORD_BITS * bitset.Length && (invert == 0 || invert == ALL_ONES)
    requires start < pos && pos % WORD_BITS == 0
    ensures Scanned(bitset[..], start, pos, invert == 0, word)
  {
    word := Xor(bitset[pos / WORD_BITS], invert);
    ScanWord(bitset[..], start, pos, invert == 0, word, 0);
  }

  /** A position that is a multiple of the word width starts a whole word of the bitset. */
  lemma WholeWord(pos: nat, length: nat)
    requires pos % WORD_BITS == 0 && pos < WORD_BITS * length
    ensures pos + WORD_BITS <= WORD_BITS * length && (pos + WORD_BITS) % WORD_BITS == 0
  {
  }

  lemma WordStart(start: nat)
    ensures start - start % WORD_BITS >= 0 && (start - start % WORD_BITS) % WORD_BITS == 0
  {
  }

  /** The loop of _find_next_bit: moves on to the first scanned word with a set bit, if there is one. */
  method SkipZeroWords(bitset: array<bv64>, bitsetSize: nat, start: nat, first: nat, firstWord: bv64, invert: bv64)
    returns (found: bool, pos: nat, word: bv64)
    requires bitsetSize <= WORD_BITS * bitset.Length && (invert == 0 || invert == ALL_ONES)
    requires first % WORD_BITS == 0 && first <= start < bitsetSize
    requires first + WORD_BITS <= WORD_BITS * bitset.Length && start < first + WORD_BITS
    requires Scanned(bitset[..], start, first, invert == 0, firstWord)
    ensures !found ==> NoneWanted(bitset[..], start, bitsetSize, invert == 0)
    ensures found ==> word != 0 && pos + WORD_BITS <= WORD_BITS * bitset.Length
    ensures found ==> NoneWanted(bitset[..], start, pos, invert == 0)
    ensures found ==> Scanned(bitset[..], start, pos, invert == 0, word)
  {
    ghost var words := bitset[..];
    pos, word := first, firstWord;
    while word == 0
      invariant pos % WORD_BITS == 0 && pos < bitsetSize && start < pos + WORD_BITS <= WORD_BITS * bitset.Length
      invariant NoneWanted(words, start, pos, invert == 0) && Scanned(words, start, pos, invert == 0, word)
      decreases bitsetSize - pos
    {
      SkipZeroWord(words, start, pos, word, invert == 0);
      WholeWord(pos, bitset.Length);
      pos := pos + WORD_BITS;
      if pos >= bitsetSize {
        return false, pos, word;
      }
      WholeWord(pos, bitset.Length);
      word := NextWord(bitset, pos, invert, start);
    }
    return true, pos, word;
  }

  /** invert is 0 to search for a 1 bit and all ones to search for a 0 bit. */
  method FindNextBit(bitset: array<bv64>, bitsetSize: nat, start: nat, invert: bv64) returns (r: nat)
    requires bitsetSize <= WORD_BITS * bitset.Length
    requires invert == 0 || invert == ALL_ONES
    ensures IsNextBit(bitset[..], bitsetSize, start, invert == 0, r)
  {
    if start >= bitsetSize {
      return bitsetSize;
    }

    // handle first word
    var word := FirstWord(bitset, start, invert);
    var pos := start - start % WORD_BITS;
    WordStart(start);
    WholeWord(pos, bitset.Length);

    var found;
    found, pos, word := SkipZeroWords(bitset, bitsetSize, start, pos, word, invert);
    if !found {
      return bitsetSize;
    }

    // find first bit in word
    var n := FirstHit(bitset[..], bitsetSize, start, pos, word, invert == 0);
    pos := pos + n;
    if pos >= bitsetSize {
      return bitsetSize;
    }
    return pos;
  }

  /** All count bits from p on lie inside the bitset and are 0. */
  ghost predicate FreeRun(words: seq<bv64>, size: nat, p: nat, count: nat)
    requires size <= WORD_BITS * |words|
  {
    p + count <= size && forall k: nat :: p <= k < p + count ==> !Get(words, k)
  }

  /** r is the position of the first run of count 0 bits, or SIZE_MAX exactly when there is none. */
  ghost predicate IsFirstFit(words: seq<bv64>, size: nat, count: nat, r: nat)
    requires size <= WORD_BITS * |words|
  {
    if r == SIZE_MAX
    then forall p: nat :: !FreeRun(words, size, p, count)
    else FreeRun(words, size, r, count) && forall p: nat :: p < r ==> !FreeRun(words, size, p, count)
  }

  /** With 1 bits on [i, pos0) and a 1 bit at pos1 < pos0 + count, no run starts in [i, pos1]. */
  lemma BlockedRuns(words: seq<bv64>, size: nat, count: nat, i: nat, pos0: nat, pos1: nat)
    requires size <= WORD_BITS * |words| && 0 < count
    requires IsNextBit(words, size, i, false, pos0) && IsNextBit(words, size, pos0, true, pos1)
    requires i <= pos0 <= pos1 < size && pos1 < pos0 + count
    ensures forall p: nat :: i <= p <= pos1 ==> !FreeRun(words, size, p, count)
  {
    forall p: nat | i <= p <= pos1 && p + count <= size ensures !FreeRun(words, size, p, count) {
      if p < pos0 {
        assert Get(words, p);
      } else {
        assert Get(words, pos1);
      }
    }
  }

  lemma EarlierRunsBlocked(words: seq<bv64>, size: nat, count: nat, i: nat, pos0: nat)
    requires size <= WORD_BITS * |words| && 0 < count
    requires IsNextBit(words, size, i, false, pos0)
    ensures forall p: nat :: i <= p < pos0 ==> !FreeRun(words, size, p, count)
  {
    forall p: nat | i <= p < pos0 && p + count <= size ensures !FreeRun(words, size, p, count) {
      assert Get(words, p);
    }
  }

  /** With 1 bits on [i, pos0) and too little room after pos0, no run starts at or after i. */
  lemma NoRoomLeft(words: seq<bv64>, size: nat, count: nat, i: nat, pos0: nat)
    requires size <= WORD_BITS * |words| && 0 < count
    requires IsNextBit(words, size, i, false, pos0) && pos0 + count > size
    ensures forall p: nat :: i <= p ==> !FreeRun(words, size, p, count)
  {
    forall p: nat | i <= p && p + count <= size ensures !FreeRun(words, size, p, count) {
      assert Get(words, p);
    }
  }

  method FindUnsetRange(bitset: array<bv64>, bitsetSize: nat, count: nat) returns (r: nat)
    requires bitsetSize <= WORD_BITS * bitset.Length
    requires bitsetSize <= SIZE_MAX && 0 < count <= SIZE_MAX
    ensures bitsetSize + count <= SIZE_MAX ==> IsFirstFit(bitset[..], bitsetSize, count, r)
    // In a full bitset the sum pos0 + count wraps around exactly when bitsetSize + count does, and the
    // search then reports a run that does not exist.  So no weaker bound makes it right for all contents.
    ensures (forall k: nat :: k < bitsetSize ==> Get(bitset[..], k)) ==>
      r == if bitsetSize + count <= SIZE_MAX then SIZE_MAX else bitsetSize
  {
    ghost var words := bitset[..];
    var i := 0;
    while true
      invariant i <= bitsetSize
      invariant bitsetSize + count <= SIZE_MAX ==> forall p: nat :: p < i ==> !FreeRun(words, bitsetSize, p, count)
      invariant (forall k: nat :: k < bitsetSize ==> Get(words, k)) ==> i == 0
      decreases bitsetSize - i
    {
      // find next 0 bit
      var pos0 := FindNextBit(bitset, bitsetSize, i, ALL_ONES);
      var end := (pos0 + count) % (SIZE_MAX + 1);
      if end > bitsetSize {
        if bitsetSize + count <= SIZE_MAX {
          NoRoomLeft(words, bitsetSize, count, i, pos0);
        }
        return SIZE_MAX;
      }

      // find next 1 bit
      var pos1 := FindNextBit(bitset, bitsetSize, pos0, 0);
      if pos1 >= end {
        if bitsetSize + count <= SIZE_MAX {
          assert FreeRun(words, bitsetSize, pos0, count) by {
            assert forall k: nat :: pos0 <= k < pos0 + count ==> !Get(words, k);
          }
          EarlierRunsBlocked(words, bitsetSize, count, i, pos0);
        }
        return pos0;
      }
      BlockedRuns(words, bitsetSize, count, i, pos0, pos1);
      i := pos1 + 1;
    }
  }

  /** What an overflowing search of a full bitset reports is wrong, unless it happens to look like a failure. */
  lemma OverflowIsWrong(words: seq<bv64>, size: nat, count: nat)
    requires size <= WORD_BITS * |words| && size <= SIZE_MAX && 0 < count <= SIZE_MAX
    requires forall k: nat :: k < size ==> Get(words, k)
    ensures IsFirstFit(words, size, count, if size + count <= SIZE_MAX then SIZE_MAX else size) <==>
      size + count <= SIZE_MAX || size == SIZE_MAX
  {
    forall p: nat | p + count <= size ensures !FreeRun(words, size, p, count) {
      assert Get(words, p);
    }
  }

  /** found tells whether the source stores to its out-parameter and returns a position other than SIZE_MAX. */
  method FindSetRange(bitset: array<bv64>, bitsetSize: nat, pos: nat) returns (found: bool, r: nat, count: nat)
    requires bitsetSize <= WORD_BITS * bitset.Length && bitsetSize <= SIZE_MAX
    ensures !found ==> r == SIZE_MAX && NoneWanted(bitset[..], pos, bitsetSize, true)
    ensures found ==> pos <= r < r + count <= bitsetSize && NoneWanted(bitset[..], pos, r, true)
    ensures found ==> NoneWanted(bitset[..], r, r + count, false)
    ensures found && r + count < bitsetSize ==> !Get(bitset[..], r + count)
  {
    // find next 1 bit
    var pos0 := FindNextBit(bitset, bitsetSize, pos, 0);
    if pos0 == bitsetSize {
      return false, SIZE_MAX, 0;
    }

    // find next 0 bit
    var pos1 := FindNextBit(bitset, bitsetSize, pos0, ALL_ONES);
    return true, pos0, pos1 - pos0;
  }
}
