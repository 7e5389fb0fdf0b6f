/**
  The 128 size bins of free chunks and the bitmap that says which bins are occupied.
 */
module Bins {
  import opened Bits
  import opened Chunks
  import opened Rings

  const NUM_BINS: nat := 128
  const NUM_SMALL_BINS: nat := 64
  const MAX_SMALL_BIN: nat := NUM_SMALL_BINS - 1

  /** BinIndex, from the position of the leading bit of the size. */
  function BinIndex(size: nat): (i: nat)
    requires size <= MAX_SIZE
  {
    if size < 1024 then size / 16
    else if size >= 262144 then 127
    else
      MediumBits(size);
      var bits := 28 - Clz(size);
      bits * 8 + Shr(size, bits)
  }

  /** BinIndex2, the cascade of thresholds. */
  function BinIndex2(size: nat): (i: nat) {
    if size < 1024 then size / 16
    else if size < 2048 then 56 + size / 128
    else if size < 4096 then 64 + size / 256
    else if size < 8192 then 72 + size / 512
    else if size < 16384 then 80 + size / 1024
    else if size < 32768 then 88 + size / 2048
    else if size < 65536 then 96 + size / 4096
    else if size < 131072 then 104 + size / 8192
    else if size < 262144 then 112 + size / 16384
    else 127
  }

  lemma MediumBits(size: nat)
    requires 1024 <= size < 262144
    ensures 7 <= 28 - Clz(size) <= 14
  {
    Powers();
    LeadingBit(size, if size < 2048 then 10 else if size < 4096 then 11 else if size < 8192 then 12
                     else if size < 16384 then 13 else if size < 32768 then 14 else if size < 65536 then 15
                     else if size < 131072 then 16 else 17);
  }

  lemma LeadingBit(size: nat, k: nat)
    requires size < WORD_LIMIT
    requires Pow2(k) <= size < Pow2(k + 1)
    ensures Clz(size) as int == 31 - k
  {
    NumBitsBound(size, k);
    NumBitsBound(size, k + 1);
  }

  lemma {:induction false} ShrIsDivision(w: nat, k: nat, d: nat)
    requires d == Pow2(k)
    ensures Shr(w, k) == w / d
    decreases k
  {
    if k > 0 {
      var e := Pow2(k - 1);
      ShrIsDivision(w / 2, k - 1, e);
      HalfDivide(w, e);
    }
  }

  lemma Powers()
    ensures Pow2(7) == 128 && Pow2(8) == 256 && Pow2(9) == 512 && Pow2(10) == 1024 && Pow2(11) == 2048
    ensures Pow2(12) == 4096 && Pow2(13) == 8192 && Pow2(14) == 16384 && Pow2(15) == 32768
    ensures Pow2(16) == 65536 && Pow2(17) == 131072 && Pow2(18) == 262144
  {
  }

  lemma MediumIndex(size: nat, k: nat, d: nat)
    requires 1024 <= size < 262144 && k >= 4
    requires Pow2(k) <= size < Pow2(k + 1) && d == Pow2(k - 3)
    ensures BinIndex(size) == 8 * (k - 3) + size / d
  {
    LeadingBit(size, k);
    ShrIsDivision(size, k - 3, d);
  }

  /** The bit trick and the cascade give the same bin for every size. */
  lemma BinIndexIsCascade(size: nat)
    requires size <= MAX_SIZE
    ensures BinIndex(size) == BinIndex2(size)
  {
    Powers();
    if size < 1024 || size >= 262144 {
    } else if size < 16384 {
      if size < 2048 {
        MediumIndex(size, 10, 128);
      } else if size < 4096 {
        MediumIndex(size, 11, 256);
      } else if size < 8192 {
        MediumIndex(size, 12, 512);
      } else {
        MediumIndex(size, 13, 1024);
      }
    } else if size < 32768 {
      MediumIndex(size, 14, 2048);
    } else if size < 65536 {
      MediumIndex(size, 15, 4096);
    } else if size < 131072 {
      MediumIndex(size, 16, 8192);
    } else {
      MediumIndex(size, 17, 16384);
    }
  }

  /** Bins grow with the size. */
  lemma BinIndexMonotone(s: nat, t: nat)
    requires s <= t <= MAX_SIZE
    ensures BinIndex(s) <= BinIndex(t) < NUM_BINS
  {
    BinIndexIsCascade(s);
    BinIndexIsCascade(t);
    CascadeRange(s);
    CascadeRange(t);
  }

  /** Each step of the cascade covers eight bins (the first one 64). */
  lemma CascadeRange(s: nat)
    ensures s < 1024 ==> BinIndex2(s) == s / 16 < 64
    ensures 1024 <= s < 2048 ==> 64 <= BinIndex2(s) < 72
    ensures 2048 <= s < 4096 ==> 72 <= BinIndex2(s) < 80
    ensures 4096 <= s < 8192 ==> 80 <= BinIndex2(s) < 88
    ensures 8192 <= s < 16384 ==> 88 <= BinIndex2(s) < 96
    ensures 16384 <= s < 32768 ==> 96 <= BinIndex2(s) < 104
    ensures 32768 <= s < 65536 ==> 104 <= BinIndex2(s) < 112
    ensures 65536 <= s < 131072 ==> 112 <= BinIndex2(s) < 120
    ensures 131072 <= s < 262144 ==> 120 <= BinIndex2(s) < 128
    ensures 262144 <= s ==> BinIndex2(s) == 127
  {
  }

  // ---- the bitmap ----

  type Blocks = b: seq<nat> | |b| == 4 && forall w :: 0 <= w < 4 ==> b[w] < WORD_LIMIT
    witness [0, 0, 0, 0]

  predicate Flag(blocks: Blocks, i: nat)
    requires i < NUM_BINS
  {
    Bit(blocks[i / 32], i % 32)
  }

  /** MarkBinBlock */
  function Mark(blocks: Blocks, i: nat): (b: Blocks)
    requires i < NUM_BINS
  {
    PowerBound(i % 32);
    OrBound32(blocks[i / 32], Pow2(i % 32));
    blocks[i / 32 := Or(blocks[i / 32], Pow2(i % 32))]
  }

  /** ClearBinBlock */
  function Clear(blocks: Blocks, i: nat): (b: Blocks)
    requires i < NUM_BINS
  {
    NotBound(Pow2(i % 32));
    AndBound32(blocks[i / 32], Not(Pow2(i % 32), WORD_BITS));
    blocks[i / 32 := And(blocks[i / 32], Not(Pow2(i % 32), WORD_BITS))]
  }

  lemma PowerBound(k: nat)
    requires k < WORD_BITS
    ensures Pow2(k) < WORD_LIMIT
  {
    WordLimit();
    Pow2Increases(k, WORD_BITS);
  }

  lemma {:induction false} Pow2Increases(j: nat, k: nat)
    requires j < k
    ensures Pow2(j) < Pow2(k)
    decreases k
  {
    if j < k - 1 { Pow2Increases(j, k - 1); }
  }

  lemma OrBound32(w: nat, v: nat)
    requires w < WORD_LIMIT && v < WORD_LIMIT
    ensures Or(w, v) < WORD_LIMIT
  {
    WordLimit();
    OrBound(w, v, WORD_BITS);
  }

  lemma AndBound32(w: nat, v: nat)
    requires v < WORD_LIMIT
    ensures And(w, v) < WORD_LIMIT
  {
    WordLimit();
    AndBound(w, v, WORD_BITS);
  }

  lemma NotBound(w: nat)
    ensures Not(w, WORD_BITS) < WORD_LIMIT
  {
    WordLimit();
    NotWidth(w, WORD_BITS);
  }

  lemma {:induction false} NotWidth(w: nat, n: nat)
    ensures Not(w, n) < Pow2(n)
    decreases n
  {
    if n > 0 { NotWidth(w / 2, n - 1); }
  }

  lemma MarkFlag(blocks: Blocks, i: nat, j: nat)
    requires i < NUM_BINS && j < NUM_BINS
    ensures Flag(Mark(blocks, i), j) <==> j == i || Flag(blocks, j)
  {
    OrBit(blocks[i / 32], Pow2(i % 32), j % 32);
    Pow2Bit(i % 32, j % 32);
  }

  lemma ClearFlag(blocks: Blocks, i: nat, j: nat)
    requires i < NUM_BINS && j < NUM_BINS
    ensures Flag(Clear(blocks, i), j) <==> j != i && Flag(blocks, j)
  {
    AndBit(blocks[i / 32], Not(Pow2(i % 32), WORD_BITS), j % 32);
    NotBit(Pow2(i % 32), WORD_BITS, j % 32);
    Pow2Bit(i % 32, j % 32);
  }

  lemma EmptyFlags(j: nat)
    requires j < NUM_BINS
    ensures !Flag([0, 0, 0, 0], j)
  {
    ZeroBit(j % 32);
  }

  /** The flags from lo on are clear up to hi. */
  ghost predicate ClearRange(blocks: Blocks, lo: nat, hi: int)
  {
    forall i: nat {:trigger Flag(blocks, i)} :: lo <= i < hi && i < NUM_BINS ==> !Flag(blocks, i)
  }

  /** If the word has no bit from k up to n, no bin from there up to there is flagged. */
  lemma WordRange(blocks: Blocks, word: nat, k: nat, n: nat)
    requires word < 4 && n <= WORD_BITS
    requires forall j: nat :: k <= j < n ==> !Bit(blocks[word], j)
    ensures ClearRange(blocks, 32 * word + k, 32 * word + n)
  {
    forall i: nat | 32 * word + k <= i < 32 * word + n ensures !Flag(blocks, i) {
      assert i / 32 == word && i % 32 == i - 32 * word;
    }
  }

  /** The least bit at or above k of a word that has one there. */
  lemma LeastFrom(blocks: Blocks, word: nat, k: nat, m: nat)
    requires word < 4 && k < WORD_BITS && 0 < m < WORD_LIMIT
    requires forall j: nat :: j < WORD_BITS ==> (Bit(m, j) <==> j >= k && Bit(blocks[word], j))
    ensures k <= Ctz(m) < WORD_BITS && Flag(blocks, 32 * word + Ctz(m))
    ensures ClearRange(blocks, 32 * word + k, 32 * word + Ctz(m))
  {
    hide Bit, Ctz, ClearRange;
    CtzIsLeastBit(m);
    WordRange(blocks, word, k, Ctz(m));
    DivideUnique(32 * word + Ctz(m), 32, word, Ctz(m));
  }

  /** The least occupied bin at or above start, or -1. */
  method NextFullBin(blocks: Blocks, start: nat) returns (index: int)
    ensures index == -1 || start <= index < NUM_BINS
    ensures index >= 0 ==> Flag(blocks, index) && ClearRange(blocks, start, index)
    ensures index == -1 ==> ClearRange(blocks, start, NUM_BINS)
  {
    hide Bit, And, Not, Pow2, Ctz, Flag;
    if start >= 128 { return -1; }
    var word, bitPosition := start / 32, start % 32;
    var bitValue := Pow2(bitPosition);
    var binBits := blocks[word];
    AtLeastPow2(binBits, bitPosition);
    if binBits >= bitValue {
      HighBits(binBits, bitPosition);
      AndBound32(Not(bitValue - 1, WORD_BITS), binBits);
      binBits := And(Not(bitValue - 1, WORD_BITS), binBits);
      LeastFrom(blocks, word, bitPosition, binBits);
    } else {
      WordRange(blocks, word, bitPosition, 32);
      word := word + 1;
      while word < 4 && blocks[word] == 0
        invariant word <= 4 && start < 32 * word
        invariant ClearRange(blocks, start, 32 * word)
      {
        forall j: nat ensures !Bit(blocks[word], j) { ZeroBit(j); }
        WordRange(blocks, word, 0, 32);
        word := word + 1;
      }
      if word == 4 { return -1; }
      binBits := blocks[word];
      LeastFrom(blocks, word, 0, binBits);
    }
    bitPosition := Ctz(binBits);
    return 32 * word + bitPosition;
  }

  /** `~(bitValue - 1) & binBits` keeps exactly the bits at or above the position. */
  lemma HighBits(w: nat, k: nat)
    requires k < WORD_BITS && Pow2(k) <= w < WORD_LIMIT
    ensures var m := And(Not(Pow2(k) - 1, WORD_BITS), w);
            m > 0 && forall j: nat :: j < WORD_BITS ==> (Bit(m, j) <==> j >= k && Bit(w, j))
  {
    var m := And(Not(Pow2(k) - 1, WORD_BITS), w);
    forall j: nat | j < WORD_BITS ensures Bit(m, j) <==> j >= k && Bit(w, j) {
      AndBit(Not(Pow2(k) - 1, WORD_BITS), w, j);
      NotBit(Pow2(k) - 1, WORD_BITS, j);
      MaskBit(k, j);
    }
    AtLeastPow2(w, k);
    var j: nat :| j >= k && Bit(w, j);
    WordLimit();
    BitBound(w, WORD_BITS, j);
    ZeroBit(j);
  }

  // ---- the bins ----

  /** Bin anchors live below every chunk address. */
  function Anchor(i: nat): Address { i - NUM_BINS }

  /** The ring of bin i: its anchor, then its chunks. */
  ghost function Cyc(bins: seq<seq<Address>>, i: nat): seq<Address>
    requires i < |bins|
  {
    [Anchor(i)] + bins[i]
  }

  /** The bin a chunk belongs to. */
  function BinOf(tags: Tags, c: Address): (i: nat) {
    if Size(tags, c) <= MAX_SIZE then BinIndex(Size(tags, c)) else NUM_BINS
  }

  /** Exactly the chunks of `free` are linked into the bins, each into the bin of its size, largest first. */
  ghost predicate BinsHold(m: Links, tags: Tags, bins: seq<seq<Address>>, free: set<Address>) {
    && |bins| == NUM_BINS
    && (forall i :: 0 <= i < NUM_BINS ==> BinOk(m, tags, bins, free, i))
    && (forall c {:trigger Binned(tags, bins, c)} :: c in free ==> Binned(tags, bins, c))
  }

  ghost predicate BinOk(m: Links, tags: Tags, bins: seq<seq<Address>>, free: set<Address>, i: nat)
    requires i < |bins|
  {
    && Ring(m, Cyc(bins, i))
    && (forall k :: 0 <= k < |bins[i]| ==> bins[i][k] in free && BinOf(tags, bins[i][k]) == i)
    && Descending(tags, bins[i])
  }

  ghost predicate Binned(tags: Tags, bins: seq<seq<Address>>, c: Address) {
    && c > 0 && c in tags && Size(tags, c) % ALIGN == 0 && Size(tags, c) <= MAX_SIZE
    && BinOf(tags, c) < |bins| && c in bins[BinOf(tags, c)]
  }

  ghost predicate Descending(tags: Tags, s: seq<Address>) {
    forall k, l :: 0 <= k < l < |s| ==> Size(tags, s[k]) >= Size(tags, s[l])
  }

  /** Each bit says whether its bin is occupied. */
  ghost predicate FlagsOk(blocks: Blocks, bins: seq<seq<Address>>) {
    && |bins| == NUM_BINS
    && forall i: nat {:trigger Flag(blocks, i)} :: i < NUM_BINS ==> (Flag(blocks, i) <==> bins[i] != [])
  }

  lemma BinOfBound(tags: Tags, c: Address)
    requires Size(tags, c) <= MAX_SIZE
    ensures BinOf(tags, c) == BinIndex(Size(tags, c)) < NUM_BINS
  {
    BinIndexMonotone(Size(tags, c), Size(tags, c));
  }

  /** Position k of its bin is one where chunk c keeps the order. */
  ghost predicate Insertable(tags: Tags, bins: seq<seq<Address>>, c: Address, k: nat) {
    && c > 0 && c in tags && Size(tags, c) % ALIGN == 0 && Size(tags, c) <= MAX_SIZE
    && BinOf(tags, c) < |bins| == NUM_BINS && k <= |bins[BinOf(tags, c)]|
    && var bin := bins[BinOf(tags, c)];
       && (forall l :: 0 <= l < k ==> Size(tags, bin[l]) >= Size(tags, c))
       && (forall l :: k <= l < |bin| ==> Size(tags, bin[l]) <= Size(tags, c))
  }

  ghost function BinsWith(tags: Tags, bins: seq<seq<Address>>, c: Address, k: nat): seq<seq<Address>>
    requires Insertable(tags, bins, c, k)
  {
    var i := BinOf(tags, c);
    bins[i := InsertAt(bins[i], k, c)]
  }

  /** The node before position k of bin i, and the node at it. */
  ghost function NodeBefore(bins: seq<seq<Address>>, i: nat, k: nat): Address
    requires i < |bins| && k <= |bins[i]|
  {
    if k == 0 then Anchor(i) else bins[i][k - 1]
  }

  ghost function NodeAt(bins: seq<seq<Address>>, i: nat, k: nat): Address
    requires i < |bins| && k <= |bins[i]|
  {
    if k == |bins[i]| then Anchor(i) else bins[i][k]
  }

  /** Linking a chunk in at a position that keeps the order adds it to the bins. */
  lemma BinInsert(m: Links, tags: Tags, bins: seq<seq<Address>>, free: set<Address>, c: Address, k: nat)
    requires BinsHold(m, tags, bins, free) && c !in free && Insertable(tags, bins, c, k)
    ensures var i := BinOf(tags, c);
            var p, n := NodeBefore(bins, i, k), NodeAt(bins, i, k);
            && p in m && n in m && m[p].next == n && m[n].prev == p && c != p && c != n
            && BinsHold(Spliced(m, c, p, n), tags, BinsWith(tags, bins, c, k), free + {c})
  {
    hide BinOf, Size;
    var i := BinOf(tags, c);
    InsertOwn(m, tags, bins, free, c, k);
    var m', bins' := Spliced(m, c, NodeBefore(bins, i, k), NodeAt(bins, i, k)), BinsWith(tags, bins, c, k);
    forall j | 0 <= j < NUM_BINS ensures BinOk(m', tags, bins', free + {c}, j) {
      if j != i { InsertOther(m, tags, bins, free, c, k, j); }
    }
    forall d | d in free + {c} ensures Binned(tags, bins', d) {
      if d != c {
        assert Binned(tags, bins, d);
        if BinOf(tags, d) == i {  }
      } else {
        assert bins'[i][k] == c;
      }
    }
  }

  lemma InsertOwn(m: Links, tags: Tags, bins: seq<seq<Address>>, free: set<Address>, c: Address, k: nat)
    requires BinsHold(m, tags, bins, free) && c !in free && Insertable(tags, bins, c, k)
    ensures var i := BinOf(tags, c);
            var p, n := NodeBefore(bins, i, k), NodeAt(bins, i, k);
            && p in m && n in m && m[p].next == n && m[n].prev == p && c != p && c != n
            && p in Cyc(bins, i) && n in Cyc(bins, i)
            && BinOk(Spliced(m, c, p, n), tags, BinsWith(tags, bins, c, k), free + {c}, i)
  {
    hide BinOf, Size, Spliced;
    var i := BinOf(tags, c);
    InsertRing(m, tags, bins, free, c, k);
    assert BinOk(m, tags, bins, free, i);
    var bin' := BinsWith(tags, bins, c, k)[i];
    forall l | 0 <= l < |bin'| ensures bin'[l] in free + {c} && BinOf(tags, bin'[l]) == i {
      assert l != k ==> bin'[l] == bins[i][if l < k then l else l - 1];
    }
  }

  lemma InsertRing(m: Links, tags: Tags, bins: seq<seq<Address>>, free: set<Address>, c: Address, k: nat)
    requires BinsHold(m, tags, bins, free) && c !in free && Insertable(tags, bins, c, k)
    ensures var i := BinOf(tags, c);
            var p, n := NodeBefore(bins, i, k), NodeAt(bins, i, k);
            && p in m && n in m && m[p].next == n && m[n].prev == p && c != p && c != n
            && p in Cyc(bins, i) && n in Cyc(bins, i)
            && Ring(Spliced(m, c, p, n), Cyc(BinsWith(tags, bins, c, k), i))
  {
    hide BinOf, Size, Spliced, Descending;
    var i := BinOf(tags, c);
    var cyc := Cyc(bins, i);
    assert BinOk(m, tags, bins, free, i);
    var n := if k + 1 == |cyc| then 0 else k + 1;
    assert cyc[k] == NodeBefore(bins, i, k) && cyc[n] == NodeAt(bins, i, k);
    assert c !in cyc by { BinMember(m, tags, bins, free, i, c); }
    SpliceRing(m, cyc, k + 1, c);
    assert Cyc(BinsWith(tags, bins, c, k), i) == InsertAt(cyc, k + 1, c);
  }

  lemma BinMember(m: Links, tags: Tags, bins: seq<seq<Address>>, free: set<Address>, i: nat, x: Address)
    requires BinsHold(m, tags, bins, free) && i < NUM_BINS
    ensures x in bins[i] ==> x in free && BinOf(tags, x) == i && x > 0
  {
    hide BinOf, Size, Descending;
    assert BinOk(m, tags, bins, free, i);
    if x in bins[i] {
      assert Binned(tags, bins, x);
    }
  }

  lemma InsertOther(m: Links, tags: Tags, bins: seq<seq<Address>>, free: set<Address>, c: Address, k: nat, j: nat)
    requires BinsHold(m, tags, bins, free) && c !in free && Insertable(tags, bins, c, k)
    requires j < NUM_BINS && j != BinOf(tags, c)
    ensures var i := BinOf(tags, c);
            var p, n := NodeBefore(bins, i, k), NodeAt(bins, i, k);
            && p in m && n in m && BinOk(Spliced(m, c, p, n), tags, BinsWith(tags, bins, c, k), free + {c}, j)
  {
    hide BinOf, Size;
    var i := BinOf(tags, c);
    InsertOwn(m, tags, bins, free, c, k);
    assert BinOk(m, tags, bins, free, j);
    OtherRing(m, Spliced(m, c, NodeBefore(bins, i, k), NodeAt(bins, i, k)), tags, bins, free, i, j, c);
    assert Cyc(BinsWith(tags, bins, c, k), j) == Cyc(bins, j);
  }

  /** Changing links of the nodes of bin i, and of c, leaves the ring of another bin alone. */
  lemma OtherRing(m: Links, m': Links, tags: Tags, bins: seq<seq<Address>>, free: set<Address>,
                  i: nat, j: nat, c: Address)
    requires BinsHold(m, tags, bins, free) && i < NUM_BINS && j < NUM_BINS && i != j
    requires c > 0 && (c in free ==> BinOf(tags, c) == i)
    requires forall x :: x in m && x != c && x !in Cyc(bins, i) ==> x in m' && m'[x] == m[x]
    ensures Ring(m', Cyc(bins, j))
  {
    hide BinOf, Size;
    assert BinOk(m, tags, bins, free, j) && BinOk(m, tags, bins, free, i);
    var cyc := Cyc(bins, j);
    forall x | x in cyc ensures x in m' && (x in m ==> m'[x] == m[x]) {
      var l :| 0 <= l < |cyc| && cyc[l] == x;
      assert Linked(m, cyc, l);
      BinMember(m, tags, bins, free, i, x);
      BinMember(m, tags, bins, free, j, x);
    }
    RingFrame(m, m', cyc);
  }

  ghost function BinsWithout(bins: seq<seq<Address>>, i: nat, k: nat): seq<seq<Address>>
    requires i < |bins| && k < |bins[i]|
  {
    bins[i := RemoveAt(bins[i], k)]
  }

  /** Taking a chunk out of its ring takes it out of the bins. */
  lemma BinRemove(m: Links, tags: Tags, bins: seq<seq<Address>>, free: set<Address>, c: Address, k: nat)
    requires BinsHold(m, tags, bins, free) && c in free
    requires BinOf(tags, c) < NUM_BINS && k < |bins[BinOf(tags, c)]| && bins[BinOf(tags, c)][k] == c
    ensures c in m && m[c].prev in m && m[c].next in m
    ensures BinsHold(Bypassed(m, c), tags, BinsWithout(bins, BinOf(tags, c), k), free - {c})
  {
    hide BinOf, Size;
    var i := BinOf(tags, c);
    RemoveOwn(m, tags, bins, free, c, k);
    var m', bins' := Bypassed(m, c), BinsWithout(bins, i, k);
    forall j | 0 <= j < NUM_BINS ensures BinOk(m', tags, bins', free - {c}, j) {
      if j != i { RemoveOther(m, tags, bins, free, c, k, j); }
    }
    forall d | d in free - {c} ensures Binned(tags, bins', d) {
      assert Binned(tags, bins, d);
      if BinOf(tags, d) == i {  }
    }
  }

  lemma RemoveOwn(m: Links, tags: Tags, bins: seq<seq<Address>>, free: set<Address>, c: Address, k: nat)
    requires BinsHold(m, tags, bins, free) && c in free
    requires BinOf(tags, c) < NUM_BINS && k < |bins[BinOf(tags, c)]| && bins[BinOf(tags, c)][k] == c
    ensures c in m && m[c].prev in m && m[c].next in m
    ensures var i := BinOf(tags, c);
            && m[c].prev in Cyc(bins, i) && m[c].next in Cyc(bins, i)
            && BinOk(Bypassed(m, c), tags, BinsWithout(bins, i, k), free - {c}, i)
  {
    hide BinOf, Size;
    var i := BinOf(tags, c);
    var cyc := Cyc(bins, i);
    assert BinOk(m, tags, bins, free, i);
    CycWithout(bins, i, k);
    BypassRing(m, cyc, k + 1);
    assert Linked(m, cyc, k + 1);
    BinWithoutOk(tags, bins[i], free, i, k);
  }

  lemma CycWithout(bins: seq<seq<Address>>, i: nat, k: nat)
    requires i < |bins| && k < |bins[i]|
    ensures Cyc(bins, i)[k + 1] == bins[i][k]
    ensures Cyc(BinsWithout(bins, i, k), i) == RemoveAt(Cyc(bins, i), k + 1)
    ensures Distinct(Cyc(bins, i)) ==> Distinct(bins[i])
  {
    assert bins[i] == Cyc(bins, i)[1..];
  }

  lemma BinWithoutOk(tags: Tags, bin: seq<Address>, free: set<Address>, i: nat, k: nat)
    requires k < |bin| && Distinct(bin) && Descending(tags, bin)
    requires forall l :: 0 <= l < |bin| ==> bin[l] in free && BinOf(tags, bin[l]) == i
    ensures var bin' := RemoveAt(bin, k);
            && Descending(tags, bin')
            && forall l :: 0 <= l < |bin'| ==> bin'[l] in free - {bin[k]} && BinOf(tags, bin'[l]) == i
  {
    hide BinOf, Size;
    var bin' := RemoveAt(bin, k);
    forall l | 0 <= l < |bin'| ensures bin'[l] in free - {bin[k]} && BinOf(tags, bin'[l]) == i {
      assert bin'[l] == bin[if l < k then l else l + 1];
    }
  }

  lemma RemoveOther(m: Links, tags: Tags, bins: seq<seq<Address>>, free: set<Address>, c: Address, k: nat, j: nat)
    requires BinsHold(m, tags, bins, free) && c in free
    requires BinOf(tags, c) < NUM_BINS && k < |bins[BinOf(tags, c)]| && bins[BinOf(tags, c)][k] == c
    requires j < NUM_BINS && j != BinOf(tags, c)
    ensures c in m && m[c].prev in m && m[c].next in m
    ensures BinOk(Bypassed(m, c), tags, BinsWithout(bins, BinOf(tags, c), k), free - {c}, j)
  {
    hide BinOf, Size;
    var i := BinOf(tags, c);
    RemoveOwn(m, tags, bins, free, c, k);
    assert BinOk(m, tags, bins, free, j) && Binned(tags, bins, c);
    assert Cyc(bins, i)[k + 1] == c;
    OtherRing(m, Bypassed(m, c), tags, bins, free, i, j, c);
    assert Cyc(BinsWithout(bins, i, k), j) == Cyc(bins, j);
    var bin := BinsWithout(bins, i, k)[j];
    forall l | 0 <= l < |bin| ensures bin[l] in free - {c} && BinOf(tags, bin[l]) == j {
      BinMember(m, tags, bins, free, j, bin[l]);
    }
  }

  /** The bins only look at the sizes of the chunks they hold. */
  lemma BinsFrame(m: Links, tags: Tags, tags': Tags, bins: seq<seq<Address>>, free: set<Address>)
    requires BinsHold(m, tags, bins, free)
    requires SameWords(tags, tags', free)
    ensures BinsHold(m, tags', bins, free)
  {
    forall i | 0 <= i < NUM_BINS ensures BinOk(m, tags', bins, free, i) {
      assert BinOk(m, tags, bins, free, i);
      forall k | 0 <= k < |bins[i]|
        ensures Word(tags', bins[i][k]) == Word(tags, bins[i][k])
      {
        assert Binned(tags, bins, bins[i][k]);
      }
    }
    forall c | c in free ensures Binned(tags', bins, c) {
      assert Binned(tags, bins, c);
    }
  }

  /** The chunks of a small bin all have the one size of that bin. */
  lemma SmallBinSize(tags: Tags, c: Address)
    requires Size(tags, c) % ALIGN == 0 && Size(tags, c) <= MAX_SIZE && BinOf(tags, c) < NUM_SMALL_BINS
    ensures Size(tags, c) == 16 * BinOf(tags, c)
  {
    BinIndexIsCascade(Size(tags, c));
    CascadeRange(Size(tags, c));
  }

  /** `(int)x`: the low 32 bits, read as a signed number. */
  function Int32(x: int): int {
    var u := x % WORD_LIMIT;
    if u < WORD_LIMIT / 2 then u else u - WORD_LIMIT
  }

  lemma Int32Exact(x: int)
    requires -0x8000_0000 <= x < 0x8000_0000
    ensures Int32(x) == x
  {
    if x < 0 { assert x % WORD_LIMIT == x + WORD_LIMIT; }
  }

  /** c is the smallest chunk of `free` that has at least the given size. */
  ghost predicate BestFit(tags: Tags, free: set<Address>, size: nat, c: Address) {
    && c in free && Size(tags, c) >= size
    && forall d :: d in free && Size(tags, d) >= size ==> Size(tags, c) <= Size(tags, d)
  }

  ghost predicate NoneFits(tags: Tags, free: set<Address>, size: nat) {
    forall d :: d in free ==> Size(tags, d) < size
  }

  /** Every chunk of the bins below index is too small. */
  ghost predicate TooSmallBelow(tags: Tags, free: set<Address>, size: nat, index: int) {
    forall d :: d in free && BinOf(tags, d) < index ==> Size(tags, d) < size
  }

  lemma BelowOwnBin(m: Links, tags: Tags, bins: seq<seq<Address>>, free: set<Address>, size: nat)
    requires BinsHold(m, tags, bins, free) && size <= MAX_SIZE
    ensures TooSmallBelow(tags, free, size, BinIndex(size))
  {
    forall d | d in free && BinOf(tags, d) < BinIndex(size) ensures Size(tags, d) < size {
      assert Binned(tags, bins, d);
      if size <= Size(tags, d) { BinIndexMonotone(size, Size(tags, d)); }
    }
  }

  /** In the first bin that has a fit, the last chunk from the tail that fits is the best fit of all. */
  lemma FirstFitIsBest(m: Links, tags: Tags, bins: seq<seq<Address>>, free: set<Address>, size: nat, i: nat, k: nat)
    requires BinsHold(m, tags, bins, free) && i < NUM_BINS && k < |bins[i]|
    requires TooSmallBelow(tags, free, size, i) && Size(tags, bins[i][k]) >= size
    requires forall l :: k < l < |bins[i]| ==> Size(tags, bins[i][l]) < size
    ensures BestFit(tags, free, size, bins[i][k])
  {
    assert BinOk(m, tags, bins, free, i);
    var c := bins[i][k];
    assert Binned(tags, bins, c);
    forall d | d in free && Size(tags, d) >= size ensures Size(tags, c) <= Size(tags, d) {
      assert Binned(tags, bins, d);
      if BinOf(tags, d) == i {
        var l :| 0 <= l < |bins[i]| && bins[i][l] == d;
        assert l <= k;
      } else if Size(tags, d) < Size(tags, c) {
        BinIndexMonotone(Size(tags, d), Size(tags, c));
      }
    }
  }

  /** When no chunk of bin i fits either, the next bin may be looked at. */
  lemma NoFitIn(m: Links, tags: Tags, bins: seq<seq<Address>>, free: set<Address>, size: nat, i: nat)
    requires BinsHold(m, tags, bins, free) && i < NUM_BINS && TooSmallBelow(tags, free, size, i)
    requires forall l :: 0 <= l < |bins[i]| ==> Size(tags, bins[i][l]) < size
    ensures TooSmallBelow(tags, free, size, i + 1)
  {
    forall d | d in free && BinOf(tags, d) < i + 1 ensures Size(tags, d) < size {
      assert Binned(tags, bins, d);
    }
  }

  /** Empty bins may be skipped. */
  lemma SkipEmpty(m: Links, tags: Tags, blocks: Blocks, bins: seq<seq<Address>>, free: set<Address>, size: nat,
                  lo: nat, hi: nat)
    requires BinsHold(m, tags, bins, free) && FlagsOk(blocks, bins) && TooSmallBelow(tags, free, size, lo)
    requires ClearRange(blocks, lo, hi) && hi <= NUM_BINS
    ensures TooSmallBelow(tags, free, size, hi)
  {
    forall d | d in free && BinOf(tags, d) < hi ensures Size(tags, d) < size {
      assert Binned(tags, bins, d);
      assert Flag(blocks, BinOf(tags, d));
    }
  }

  /** A chunk may go in front of a small or empty bin. */
  lemma FrontInsertable(m: Links, tags: Tags, bins: seq<seq<Address>>, free: set<Address>, c: Address)
    requires BinsHold(m, tags, bins, free) && c > 0 && c in tags
    requires Size(tags, c) % ALIGN == 0 && Size(tags, c) <= MAX_SIZE && BinOf(tags, c) < NUM_BINS
    requires BinOf(tags, c) < NUM_SMALL_BINS || bins[BinOf(tags, c)] == []
    ensures Insertable(tags, bins, c, 0)
  {
    var i := BinOf(tags, c);
    assert BinOk(m, tags, bins, free, i);
    forall l | 0 <= l < |bins[i]| ensures Size(tags, bins[i][l]) <= Size(tags, c) {
      assert Binned(tags, bins, bins[i][l]);
      SmallBinSize(tags, bins[i][l]);
      SmallBinSize(tags, c);
    }
  }

  /** Or behind all the larger chunks of its bin. */
  lemma OrderInsertable(m: Links, tags: Tags, bins: seq<seq<Address>>, free: set<Address>, c: Address, k: nat)
    requires BinsHold(m, tags, bins, free) && c > 0 && c in tags
    requires Size(tags, c) % ALIGN == 0 && Size(tags, c) <= MAX_SIZE && BinOf(tags, c) < NUM_BINS
    requires k <= |bins[BinOf(tags, c)]|
    requires forall l :: 0 <= l < k ==> Size(tags, bins[BinOf(tags, c)][l]) > Size(tags, c)
    requires k < |bins[BinOf(tags, c)]| ==> Size(tags, bins[BinOf(tags, c)][k]) <= Size(tags, c)
    ensures Insertable(tags, bins, c, k)
  {
    hide BinOf, Size;
    assert BinOk(m, tags, bins, free, BinOf(tags, c));
  }

  /** The pointers of the nodes of a bin, by position. */
  lemma BinPointers(m: Links, tags: Tags, bins: seq<seq<Address>>, free: set<Address>, i: nat, k: nat)
    requires BinsHold(m, tags, bins, free) && i < NUM_BINS && k <= |bins[i]|
    ensures NodeBefore(bins, i, k) in m && m[NodeBefore(bins, i, k)].next == NodeAt(bins, i, k)
    ensures NodeAt(bins, i, k) in m && m[NodeAt(bins, i, k)].prev == NodeBefore(bins, i, k)
    ensures k < |bins[i]| ==> bins[i][k] != Anchor(i) && bins[i][k] in free && bins[i][k] in tags
  {
    hide BinOf, Size, Descending;
    var cyc := Cyc(bins, i);
    assert BinOk(m, tags, bins, free, i);
    assert Linked(m, cyc, k) && Linked(m, cyc, After(cyc, k));
    assert cyc[k] == NodeBefore(bins, i, k) && cyc[After(cyc, k)] == NodeAt(bins, i, k);
    if k < |bins[i]| { assert Binned(tags, bins, bins[i][k]); }
  }

  /** The flags after a chunk was linked in, whether its bit was set anew or was set already. */
  lemma FlagsWith(blocks: Blocks, blocks': Blocks, tags: Tags, bins: seq<seq<Address>>, c: Address, k: nat)
    requires FlagsOk(blocks, bins) && Insertable(tags, bins, c, k)
    requires blocks' == Mark(blocks, BinOf(tags, c)) || (blocks' == blocks && bins[BinOf(tags, c)] != [])
    ensures FlagsOk(blocks', BinsWith(tags, bins, c, k))
  {
    hide BinOf, Size, Mark, Flag;
    var i := BinOf(tags, c);
    var bins' := BinsWith(tags, bins, c, k);
    forall j: nat | j < NUM_BINS ensures Flag(blocks', j) <==> bins'[j] != [] {
      MarkFlag(blocks, i, j);
      assert Flag(blocks, j) <==> bins[j] != [];
    }
  }

  /** The flags after a chunk was taken out, with its bit cleared if the bin is now empty. */
  lemma FlagsWithout(blocks: Blocks, blocks': Blocks, bins: seq<seq<Address>>, i: nat, k: nat)
    requires FlagsOk(blocks, bins) && i < NUM_BINS && k < |bins[i]|
    requires blocks' == if BinsWithout(bins, i, k)[i] == [] then Clear(blocks, i) else blocks
    ensures FlagsOk(blocks', BinsWithout(bins, i, k))
  {
    hide Clear, Flag;
    var bins' := BinsWithout(bins, i, k);
    forall j: nat | j < NUM_BINS ensures Flag(blocks', j) <==> bins'[j] != [] {
      ClearFlag(blocks, i, j);
      assert Flag(blocks, j) <==> bins[j] != [];
    }
  }

  /** Where a free chunk sits. */
  lemma PositionOf(m: Links, tags: Tags, bins: seq<seq<Address>>, free: set<Address>, c: Address) returns (k: nat)
    requires BinsHold(m, tags, bins, free) && c in free
    ensures c > 0 && c in tags && Size(tags, c) % ALIGN == 0 && Size(tags, c) <= MAX_SIZE
    ensures BinOf(tags, c) == BinIndex(Size(tags, c)) < NUM_BINS
    ensures k < |bins[BinOf(tags, c)]| && bins[BinOf(tags, c)][k] == c
  {
    assert Binned(tags, bins, c);
    BinOfBound(tags, c);
    k :| k < |bins[BinOf(tags, c)]| && bins[BinOf(tags, c)][k] == c;
  }

  /** In the small bin of a size, or the next one, the last chunk is a best fit with next to no waste. */
  lemma SmallFit(m: Links, tags: Tags, bins: seq<seq<Address>>, free: set<Address>, size: nat, i: nat)
    requires BinsHold(m, tags, bins, free) && ChunkSize(size) && size <= MAX_SIZE
    requires i == BinIndex(size) || i == BinIndex(size) + 1
    requires BinIndex(size) < MAX_SMALL_BIN && bins[i] != [] && TooSmallBelow(tags, free, size, i)
    ensures var c := NodeBefore(bins, i, |bins[i]|);
            BestFit(tags, free, size, c) && Size(tags, c) < size + MIN_ALLOC_SIZE
  {
    var k := |bins[i]| - 1;
    assert BinOk(m, tags, bins, free, i);
    assert Binned(tags, bins, bins[i][k]);
    SmallBinSize(tags, bins[i][k]);
    BinIndexIsCascade(size);
    CascadeRange(size);
    FirstFitIsBest(m, tags, bins, free, size, i, k);
  }

  /** When all bins have been passed over, nothing fits. */
  lemma NothingFits(m: Links, tags: Tags, bins: seq<seq<Address>>, free: set<Address>, size: nat)
    requires BinsHold(m, tags, bins, free) && TooSmallBelow(tags, free, size, NUM_BINS)
    ensures NoneFits(tags, free, size)
  {
    forall d | d in free ensures Size(tags, d) < size {
      assert Binned(tags, bins, d);
    }
  }
}
