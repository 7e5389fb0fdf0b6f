/**
  Adding up chunk sizes: nothing is ever lost between free chunks, chunks in use, and areas.
 */
module Accounting {
  import opened Rings
  import opened Chunks
  import opened Bins
  import opened Bits

  /** The sizes of a set of chunks, added up. */
  ghost function Total(tags: Tags, s: set<Address>): (t: nat) {
    if exists c :: c in s then var c :| c in s; Size(tags, c) + Total(tags, s - {c}) else 0
  }

  lemma {:induction false} TotalWithout(tags: Tags, s: set<Address>, c: Address)
    requires c in s
    ensures Total(tags, s) == Size(tags, c) + Total(tags, s - {c})
    decreases s
  {
    var d :| d in s && Total(tags, s) == Size(tags, d) + Total(tags, s - {d});
    if d != c {
      TotalWithout(tags, s - {d}, c);
      TotalWithout(tags, s - {c}, d);
      assert s - {d} - {c} == s - {c} - {d};
    }
  }

  lemma {:induction false} TotalUnion(tags: Tags, s: set<Address>, t: set<Address>)
    requires s !! t
    ensures Total(tags, s + t) == Total(tags, s) + Total(tags, t)
    decreases s
  {
    if exists c :: c in s {
      var c :| c in s;
      TotalWithout(tags, s, c);
      TotalWithout(tags, s + t, c);
      assert s + t - {c} == (s - {c}) + t;
      TotalUnion(tags, s - {c}, t);
    } else {
      assert s + t == t;
    }
  }

  ghost function AreaTotal(areas: map<Address, nat>): (t: nat)
    decreases areas.Keys
  {
    if exists a :: a in areas then var a :| a in areas; areas[a] + AreaTotal(areas - {a}) else 0
  }

  /** The chunks of area a from address x on. */
  ghost function ChunksFrom(home: map<Address, Address>, a: Address, x: Address): set<Address> {
    set d | d in home && home[d] == a && d >= x
  }

  /** From any chunk on, the chunks of an area add up to what is left of it. */
  lemma {:induction false} TailTotal(h: nat, tags: Tags, home: map<Address, Address>, areas: map<Address, nat>, c: Address)
    requires Tiled(h, tags, home, areas) && c in home
    ensures home[c] in areas && Total(tags, ChunksFrom(home, home[c], c)) == home[c] + areas[home[c]] - c
    decreases if home[c] in areas then home[c] + areas[home[c]] - c else 0
  {
    NextOf(h, tags, home, areas, c);
    assert ChunkOk(tags, home, areas, c);
    var a, n := home[c], End(tags, c);
    var s := ChunksFrom(home, a, c);
    TotalWithout(tags, s, c);
    forall d | d in s ensures d == c || d >= n { ApartOf(h, tags, home, areas, c, d); }
    assert s - {c} == ChunksFrom(home, a, n);
    if n == a + areas[a] {
      forall d | d in home && home[d] == a ensures d < n { assert ChunkOk(tags, home, areas, d); }
      assert s - {c} == {};
    } else {
      TailTotal(h, tags, home, areas, n);
    }
  }

  /** The chunks of all areas together are as large as the areas. */
  lemma {:induction false} AllChunksTotal(h: nat, tags: Tags, home: map<Address, Address>, areas: map<Address, nat>,
                                          some: map<Address, nat>)
    requires Tiled(h, tags, home, areas) && forall a :: a in some ==> a in areas && some[a] == areas[a]
    ensures Total(tags, set d | d in home && home[d] in some) == AreaTotal(some)
    decreases some.Keys
  {
    var all := set d | d in home && home[d] in some;
    if exists a :: a in some {
      var a :| a in some && AreaTotal(some) == some[a] + AreaTotal(some - {a});
      var rest := set d | d in home && home[d] in (some - {a});
      AllChunksTotal(h, tags, home, areas, some - {a});
      assert AreaOk(tags, home, areas, a);
      TailTotal(h, tags, home, areas, a);
      forall d | d in home && home[d] == a ensures d >= a { assert ChunkOk(tags, home, areas, d); }
      assert all == ChunksFrom(home, a, a) + rest;
      TotalUnion(tags, ChunksFrom(home, a, a), rest);
    } else {
      assert all == {};
    }
  }

  /** Free chunks and chunks in use add up to the sizes of all areas. */
  lemma Conservation(h: nat, tags: Tags, home: map<Address, Address>, areas: map<Address, nat>)
    requires Tiled(h, tags, home, areas)
    ensures Total(tags, FreeChunks(tags, home)) + Total(tags, LiveChunks(tags, home)) == AreaTotal(areas)
  {
    AllChunksTotal(h, tags, home, areas, areas);
    forall d | d in home ensures home[d] in areas { assert ChunkOk(tags, home, areas, d); }
    assert (set d | d in home && home[d] in areas) == FreeChunks(tags, home) + LiveChunks(tags, home);
    TotalUnion(tags, FreeChunks(tags, home), LiveChunks(tags, home));
  }

  // ---- walking the bins ----

  /** The chunks met when the bins below i and the tail of bin i from position k on have been walked. */
  ghost function Walked(tags: Tags, bins: seq<seq<Address>>, free: set<Address>, i: nat, k: nat): set<Address>
    requires i < |bins| || (i == |bins| && k == 0)
  {
    set c | c in free && (BinOf(tags, c) < i || (i < |bins| && BinOf(tags, c) == i && InTail(bins[i], k, c)))
  }

  ghost predicate InTail(s: seq<Address>, k: nat, c: Address) {
    exists l :: k <= l < |s| && s[l] == c
  }

  lemma WalkBack(m: Links, tags: Tags, bins: seq<seq<Address>>, free: set<Address>, i: nat, k: nat)
    requires BinsHold(m, tags, bins, free) && i < NUM_BINS && 0 < k <= |bins[i]|
    ensures var c := bins[i][k - 1];
            Total(tags, Walked(tags, bins, free, i, k - 1)) == Size(tags, c) + Total(tags, Walked(tags, bins, free, i, k))
  {
    hide BinOf, Size;
    var c := bins[i][k - 1];
    assert BinOk(m, tags, bins, free, i);
    DistinctBin(m, bins, i);
    var before, after := Walked(tags, bins, free, i, k), Walked(tags, bins, free, i, k - 1);
    assert InTail(bins[i], k - 1, c);
    assert !InTail(bins[i], k, c);
    forall d | d in free && d != c ensures InTail(bins[i], k - 1, d) <==> InTail(bins[i], k, d) {
      if InTail(bins[i], k - 1, d) {
        var l :| k - 1 <= l < |bins[i]| && bins[i][l] == d;
        assert l >= k;
      }
    }
    assert after - {c} == before;
    TotalWithout(tags, after, c);
  }

  lemma DistinctBin(m: Links, bins: seq<seq<Address>>, i: nat)
    requires i < |bins| && Ring(m, Cyc(bins, i))
    ensures Distinct(bins[i])
  {
    var cyc := Cyc(bins, i);
    forall j, l | 0 <= j < l < |bins[i]| ensures bins[i][j] != bins[i][l] {
      assert cyc[j + 1] != cyc[l + 1];
    }
  }

  /** A bin that was walked to its front is done. */
  lemma WalkOn(m: Links, tags: Tags, bins: seq<seq<Address>>, free: set<Address>, i: nat)
    requires BinsHold(m, tags, bins, free) && i < NUM_BINS
    ensures Walked(tags, bins, free, i, 0) == Walked(tags, bins, free, i + 1, if i + 1 < NUM_BINS then |bins[i + 1]| else 0)
  {
    hide BinOf, Size;
    forall c | c in free && BinOf(tags, c) == i ensures InTail(bins[i], 0, c) {
      assert Binned(tags, bins, c);
    }
    if i + 1 < NUM_BINS {
      var next := bins[i + 1];
      assert forall c :: !InTail(next, |next|, c);
    }
  }

  /** Before the walk nothing has been met, after it everything. */
  lemma WalkEnds(m: Links, tags: Tags, bins: seq<seq<Address>>, free: set<Address>)
    requires BinsHold(m, tags, bins, free)
    ensures Walked(tags, bins, free, 0, |bins[0]|) == {} && Walked(tags, bins, free, NUM_BINS, 0) == free
  {
    hide BinOf, Size;
    var first := bins[0];
    assert forall c :: !InTail(first, |first|, c);
    forall c | c in free ensures BinOf(tags, c) < NUM_BINS { assert Binned(tags, bins, c); }
  }

  // ---- the largest free chunk ----

  ghost predicate IsLargest(tags: Tags, free: set<Address>, size: nat) {
    && (exists c :: c in free && Size(tags, c) == size)
    && (forall c :: c in free ==> Size(tags, c) <= size)
  }

  /** The maximum over the highest occupied bin is the maximum over all. */
  lemma TopBinHasLargest(m: Links, tags: Tags, bins: seq<seq<Address>>, free: set<Address>, i: nat, size: nat, k: nat)
    requires BinsHold(m, tags, bins, free) && i < NUM_BINS && k < |bins[i]| && Size(tags, bins[i][k]) == size
    requires forall j :: i < j < NUM_BINS ==> bins[j] == []
    requires forall l :: 0 <= l < |bins[i]| ==> Size(tags, bins[i][l]) <= size
    ensures IsLargest(tags, free, size)
  {
    assert BinOk(m, tags, bins, free, i);
    assert Binned(tags, bins, bins[i][k]);
    forall c | c in free ensures Size(tags, c) <= size {
      assert Binned(tags, bins, c);
      if size < Size(tags, c) { BinIndexMonotone(size, Size(tags, c)); }
    }
  }

  lemma TotalOfNone(tags: Tags)
    ensures Total(tags, {}) == 0
  {
  }

  /** With the words above it all zero, a word's top bit is the flag of the highest occupied bin. */
  lemma HighestBin(blocks: Blocks, bins: seq<seq<Address>>, word: nat)
    requires FlagsOk(blocks, bins) && word < 4 && (forall w :: word < w < 4 ==> blocks[w] == 0)
    requires blocks[word] == 0 ==> word == 0
    ensures var index := 32 * word + NumBits(blocks[word]) - 1;
            if blocks[word] == 0 then index == -1 && forall j :: 0 <= j < NUM_BINS ==> bins[j] == []
            else 0 <= index < NUM_BINS && bins[index] != [] && forall j :: index < j < NUM_BINS ==> bins[j] == []
  {
    hide Bit, NumBits, Pow2;
    WordLimit();
    NumBitsBound(blocks[word], WORD_BITS);
    var index := 32 * word + NumBits(blocks[word]) - 1;
    if blocks[word] != 0 {
      TopBit(blocks[word]);
      NumBitsPositive(blocks[word]);
      assert index / 32 == word && index % 32 == index - 32 * word;
      assert Flag(blocks, index);
    } else {
      NumBitsZero();
    }
    forall j: nat | index < j < NUM_BINS ensures bins[j] == [] {
      if j / 32 > word || blocks[word] == 0 { ZeroBit(j % 32); }
      assert !Flag(blocks, j);
    }
  }

  lemma NumBitsPositive(w: nat)
    requires w > 0
    ensures NumBits(w) > 0
  {
  }

  lemma NumBitsZero()
    ensures NumBits(0) == 0
  {
  }

  /** All bins are empty exactly when no chunk is free. */
  lemma NoBinsNoChunks(m: Links, tags: Tags, bins: seq<seq<Address>>, free: set<Address>)
    requires BinsHold(m, tags, bins, free)
    ensures (forall j :: 0 <= j < NUM_BINS ==> bins[j] == []) ==> forall c :: c !in free
    ensures (exists j :: 0 <= j < NUM_BINS && bins[j] != []) ==> exists c :: c in free
  {
    hide BinOf, Size;
    forall c | c in free ensures BinOf(tags, c) < NUM_BINS && bins[BinOf(tags, c)] != [] {
      assert Binned(tags, bins, c);
    }
    if exists j :: 0 <= j < NUM_BINS && bins[j] != [] {
      var j :| 0 <= j < NUM_BINS && bins[j] != [];
      assert BinOk(m, tags, bins, free, j);
      assert bins[j][0] in free;
    }
  }

  /** A free chunk's neighbours in its bin point back to it. */
  lemma FreeIsLinked(m: Links, tags: Tags, bins: seq<seq<Address>>, free: set<Address>, c: Address)
    requires BinsHold(m, tags, bins, free) && c in free
    ensures c in m && m[c].next in m && m[c].prev in m && m[m[c].next].prev == c && m[m[c].prev].next == c
  {
    hide BinOf, Size, BinsHold;
    var k := PositionOf(m, tags, bins, free, c);
    var i := BinOf(tags, c);
    BinPointers(m, tags, bins, free, i, k);
    BinPointers(m, tags, bins, free, i, k + 1);
  }

  // ---- walking an area ----

  lemma AreaFacts(h: nat, tags: Tags, home: map<Address, Address>, areas: map<Address, nat>, a: Address)
    requires Tiled(h, tags, home, areas) && a in areas
    ensures a in home && home[a] == a && InUse(PrevWord(tags, a))
  {
    assert AreaOk(tags, home, areas, a);
  }

  /** On a walk, the word 1 is met at the end of the area and only there. */
  lemma SentinelOrChunk(h: nat, tags: Tags, home: map<Address, Address>, areas: map<Address, nat>, a: Address, p: Address)
    requires Tiled(h, tags, home, areas) && a in areas
    requires (p in home && home[p] == a) || (p == a + areas[a] && Word(tags, p) == CHUNK_IN_USE)
    ensures Word(tags, p) == CHUNK_IN_USE ==> ChunksFrom(home, a, p) == {}
    ensures Word(tags, p) != CHUNK_IN_USE ==> p in home && home[p] == a
  {
    if p in home && home[p] == a { assert ChunkOk(tags, home, areas, p); }
    forall d | d in home && home[d] == a ensures d < a + areas[a] { assert ChunkOk(tags, home, areas, d); }
  }

  /** One step of the walk passes exactly one chunk. */
  lemma WalkOne(h: nat, tags: Tags, home: map<Address, Address>, areas: map<Address, nat>, a: Address, p: Address)
    requires Tiled(h, tags, home, areas) && a in areas && p in home && home[p] == a
    ensures var n := End(tags, p);
            && p < n <= a + areas[a] && a <= p
            && ((n in home && home[n] == a) || (n == a + areas[a] && Word(tags, n) == CHUNK_IN_USE))
            && ChunksFrom(home, a, p) == ChunksFrom(home, a, n) + {p}
  {
    NextOf(h, tags, home, areas, p);
    assert ChunkOk(tags, home, areas, p);
    forall d | d in home && d >= p ensures d == p || d >= End(tags, p) { ApartOf(h, tags, home, areas, p, d); }
  }
}
