/**
  The real-time memory pool: a boundary-tag allocator over areas obtained from outside.
 */
module AllocPools {
  import opened Rings
  import opened Chunks
  import opened Bits
  import opened Bins
  import opened PoolSteps
  import opened Accounting

  class AllocPool {
    /** sizeof(AllocChunk): four words, 16 bytes with 32-bit words and 32 bytes with 64-bit words. */
    const hdr: nat
    const areaInitSize: nat
    const areaMoreSize: nat
    /** mNext and mPrev of the chunk headers and of the bin anchors. */
    const list: LinkMemory
    /** mNext and mPrev of the area headers. */
    const areaList: LinkMemory
    /** mPrevSize and mSize of the chunk headers. */
    var tags: Tags
    /** mSize of the area headers. */
    var areaSize: map<Address, nat>
    var firstArea: Address
    var binBlocks: Blocks
    var bytes: Bytes

    ghost var home: map<Address, Address>
    ghost var areas: map<Address, nat>
    ghost var areaSeq: seq<Address>
    ghost var bins: seq<seq<Address>>

    ghost predicate Configured()
    {
      && (hdr == 16 || hdr == 32) && list != areaList
      && (areaInitSize == 0 || (ChunkSize(areaInitSize) && areaInitSize <= MAX_SIZE))
      && (areaMoreSize == 0 || (ChunkSize(areaMoreSize) && areaMoreSize <= MAX_SIZE))
    }

    /** The areas are tiled by chunks and linked to each other, whatever the bins hold. */
    ghost predicate Chunked()
      reads this, areaList
    {
      && Configured()
      && Tiled(hdr, tags, home, areas)
      && AreasLinked(hdr, areaList.at, areaSize, firstArea, areaSeq, areas)
    }

    /** The bins hold exactly the given chunks. */
    ghost predicate Binning(free: set<Address>)
      reads `tags, `bins, `binBlocks, list
    {
      && |bins| == NUM_BINS && BinsHold(list.at, tags, bins, free)
      && FlagsOk(binBlocks, bins)
    }

    /** The pool between two calls. */
    ghost predicate Valid()
      reads this, list, areaList
    {
      Chunked() && Coalesced(tags, home) && Binning(FreeChunks(tags, home))
    }

    ghost function Live(): set<Address>
      reads this
    {
      LiveChunks(tags, home)
    }

    /**
      The pool between two calls, but for some areas that are linked without being tiled, and for some strays in the
      bins that lie outside of all other areas.
     */
    ghost predicate SoundBut(ruined: set<Address>, strays: set<Address>)
      reads `tags, `home, `areas, `areaSize, `firstArea, `areaSeq, `bins, `binBlocks, list, areaList
    {
      && Configured() && Tiled(hdr, tags, home, areas - ruined) && Coalesced(tags, home)
      && AreasLinked(hdr, areaList.at, areaSize, firstArea, areaSeq, areas)
      && Binning(FreeChunks(tags, home) + strays)
      && forall s :: s in strays ==> Outside(areas - ruined, s)
    }

    lemma SoundButNothing()
      ensures Valid() <==> SoundBut({}, {})
    {
      hide Tiled, AreasLinked, Coalesced, Binning;
      assert areas - {} == areas && FreeChunks(tags, home) + {} == FreeChunks(tags, home);
    }

    /**
      An area was ruined when c, its first chunk, was put in use with this size. All the rest is sound, and the given
      chunks are live in it and as they were.
     */
    ghost predicate Broken(c: Address, size: nat, tags0: Tags, bytes0: Bytes, live: set<Address>)
      reads this, list, areaList
    {
      && SoundBut({c}, {c + size}) && c in areas && areas[c] == AreaFor(size) && LeavesShortTail(size)
      && Disjoint(hdr, areas - {c}, c, areas[c]) && Ruined(tags, c, areas[c])
      && Word(tags, c) == size + CHUNK_IN_USE
      && Live() == live && SameWords(tags0, tags, live) && PayloadsKept(hdr, tags0, bytes0, bytes, live)
    }

    lemma BrokenIsInvalid(c: Address, size: nat, tags0: Tags, bytes0: Bytes, live: set<Address>)
      requires Broken(c, size, tags0, bytes0, live)
      ensures !Valid()
      ensures forall home', areas' :: c in areas' && areas'[c] == AreaFor(size) ==> !Tiled(hdr, tags, home', areas')
    {
      hide Tiled, SoundBut, Ruined, SameWords, PayloadsKept;
      forall home', areas' | c in areas' && areas'[c] == AreaFor(size) ensures !Tiled(hdr, tags, home', areas') {
        RuinedIsUntiled(hdr, tags, c, AreaFor(size), home', areas');
      }
    }

    /** What an allocation has done, compared with the state before it. */
    ghost predicate Allocated(reqSize: nat, ptr: Address, tags0: Tags, bytes0: Bytes, live0: set<Address>)
      reads this
    {
      var c := ptr - hdr;
      && c in Live() && c !in live0 && Live() == live0 + {c} && ptr % ALIGN == 0 && ptr > 0
      && RequestToSize(hdr, reqSize) <= Size(tags, c) < RequestToSize(hdr, reqSize) + MIN_ALLOC_SIZE
      && SameWords(tags0, tags, live0)
      && PayloadsKept(hdr, tags0, bytes0, bytes, live0)
    }

    /** What freeing has done, compared with the state before it. */
    ghost predicate Freed(ptr: Address, tags0: Tags, bytes0: Bytes, live0: set<Address>)
      reads this
    {
      && Live() == live0 - {ptr - hdr}
      && SameWords(tags0, tags, Live())
      && PayloadsKept(hdr, tags0, bytes0, bytes, Live())
    }

    /**
      A pool over one initial area, which is one free chunk, or over none. When the first area is refused the code
      throws, and nobody gets to see the pool, which is empty then.
     */
    constructor (h: nat, initSize: nat, moreSize: nat, grant: nat)
      requires h == 16 || h == 32
      requires initSize == 0 || (ChunkSize(initSize) && initSize <= MAX_SIZE)
      requires moreSize == 0 || (ChunkSize(moreSize) && moreSize <= MAX_SIZE)
      ensures Valid() && fresh(list) && fresh(areaList)
      ensures hdr == h && areaInitSize == initSize && areaMoreSize == moreSize
      ensures areas == if initSize == 0 || grant == 0 then map[] else map[ChunkIn(h, grant) := initSize]
      ensures home.Keys == FreeChunks(tags, home) == areas.Keys
    {
      hdr, areaInitSize, areaMoreSize := h, initSize, moreSize;
      list := new LinkMemory();
      areaList := new LinkMemory();
      tags, areaSize, firstArea, binBlocks, bytes := map[], map[], 0, [0, 0, 0, 0], map[];
      home, areas, areaSeq, bins := map[], map[], [], [];
      new;
      InitBins();
      var _ := InitAlloc(grant);
    }

    /** The initial area, if the pool is to have one; not ok stands for the exception when it is refused. */
    method InitAlloc(grant: nat) returns (ok: bool)
      requires Chunked() && Binning({}) && home == map[] && areas == map[]
      modifies this`tags, this`areaSize, this`firstArea, this`binBlocks, this`bytes
      modifies this`home, this`areas, this`areaSeq, this`bins, list, areaList
      ensures Valid() && (ok <==> areaInitSize == 0 || grant > 0)
      ensures areas == if areaInitSize == 0 || !ok then map[] else map[ChunkIn(hdr, grant) := areaInitSize]
      ensures home.Keys == FreeChunks(tags, home) == areas.Keys
    {
      hide Tiled, AreasLinked, BinsHold, FlagsOk, PayloadsKept;
      ok := areaInitSize == 0 || grant > 0;
      if areaInitSize == 0 || grant == 0 {
        assert FreeChunks(tags, home) == {};
        return;
      }
      var area := NewArea(areaInitSize, grant);
      NoBins(old(tags));
      ChunkFacts(area + hdr);
      WordOfSize(areaInitSize);
      LinkFree(area + hdr, {});
      assert FreeChunks(tags, home) == {} + {area + hdr};
    }

    /** Empty bins stay so whatever the tags. */
    lemma NoBins(tags0: Tags)
      requires |bins| == NUM_BINS && BinsHold(list.at, tags0, bins, {}) && FlagsOk(binBlocks, bins)
      ensures Binning({})
    {
      BinsFrame(list.at, tags0, tags, bins, {});
    }

    /** What the tiling says of one chunk. */
    lemma ChunkFacts(c: Address)
      requires Chunked() && c in home
      ensures c > 0 && c in tags && ChunkSize(Size(tags, c)) && Size(tags, c) <= MAX_SIZE && c % ALIGN == 0
    {
      assert areas - {} == areas;
      PartFacts(c, {});
    }

    lemma PartFacts(c: Address, ruined: set<Address>)
      requires Configured() && Tiled(hdr, tags, home, areas - ruined) && c in home
      requires AreasLinked(hdr, areaList.at, areaSize, firstArea, areaSeq, areas)
      ensures c > 0 && c in tags && ChunkSize(Size(tags, c)) && Size(tags, c) <= MAX_SIZE && c % ALIGN == 0
    {
      assert ChunkOk(tags, home, areas - ruined, c);
      assert AreaOk(tags, home, areas - ruined, home[c]);
      assert HasHeader(hdr, areaSeq, home[c]);
      assert AreaListed(hdr, areaSize, areas, home[c] - hdr);
    }

    lemma UserPointer(c: Address)
      requires Chunked() && c in home
      ensures (c + hdr) % ALIGN == 0 && c + hdr > 0 && Size(tags, c) % ALIGN == 0 && ChunkSize(Size(tags, c))
      ensures Size(tags, c) <= MAX_SIZE
    {
      ChunkFacts(c);
    }

    /** All bins empty, all flags clear. */
    method InitBins()
      modifies list, this`binBlocks, this`bins
      ensures Binning({})
    {
      for i := 0 to NUM_BINS
        invariant forall j :: 0 <= j < i ==> Ring(list.at, [Anchor(j)])
      {
        ghost var before := list.at;
        list.BeEmpty(Anchor(i));
        forall j | 0 <= j < i ensures Ring(list.at, [Anchor(j)]) {
          assert Linked(before, [Anchor(j)], 0);
          RingFrame(before, list.at, [Anchor(j)]);
        }
      }
      binBlocks := [0, 0, 0, 0];
      bins := seq(NUM_BINS, _ => []);
      forall i | 0 <= i < NUM_BINS ensures BinOk(list.at, tags, bins, {}, i) {
        assert Cyc(bins, i) == [Anchor(i)];
      }
      forall i: nat | i < NUM_BINS ensures !Flag(binBlocks, i) { EmptyFlags(i); }
    }

    // ---- areas ----

    /** Puts an area into a block from outside, as one free chunk that is in no bin yet. */
    method NewArea(size: nat, grant: nat) returns (area: Address)
      requires Chunked() && ChunkSize(size) && size <= MAX_SIZE && FreshBlock(hdr, areas, grant, size)
      modifies areaList, this`tags, this`areaSize, this`firstArea, this`bytes, this`home, this`areas, this`areaSeq
      ensures Chunked() && area + hdr == ChunkIn(hdr, grant) && area + hdr !in old(home)
      ensures areas == old(areas)[area + hdr := size] && home == old(home)[area + hdr := area + hdr]
      ensures tags == PutWord(PutNeighbors(old(tags), area + hdr, size), area + hdr, size)
      ensures firstArea != 0 && Word(tags, area + hdr) == size
      ensures old(Coalesced(tags, home)) ==> Coalesced(tags, home)
      ensures FreeChunks(tags, home) == old(FreeChunks(tags, home)) + {area + hdr} && Live() == old(Live())
      ensures SameWords(old(tags), tags, old(home).Keys)
      ensures PayloadsKept(hdr, old(tags), old(bytes), bytes, old(home).Keys)
    {
      hide Tiled, AreasLinked, PutWord, PutNeighbors, PayloadsKept, Clobber, WholeArea, Word, SameWords, Coalesced,
        FreeChunks;
      WordOfSize(size);
      area := AlignUp(grant);
      NewAreaTiled(hdr, tags, home, areas, bytes, grant, size);
      LinkAreaHeader(area, size);
      tags := PutNeighbors(tags, area + hdr, size);
      SetSizeFree(area + hdr, size);
      home, areas := home[area + hdr := area + hdr], areas[area + hdr := size];
    }

    /** Links an area header in front of the ring of areas. */
    method LinkAreaHeader(area: Address, size: nat)
      requires list != areaList && AreasLinked(hdr, areaList.at, areaSize, firstArea, areaSeq, areas)
      requires area > 0 && area + hdr !in areas
      modifies areaList, this`areaSize, this`firstArea, this`areaSeq
      ensures AreasLinked(hdr, areaList.at, areaSize, firstArea, areaSeq, areas[area + hdr := size])
      ensures firstArea == area
    {
      hide AreasLinked, Spliced;
      LinkArea(hdr, areaList.at, areaSize, firstArea, areaSeq, areas, area, size);
      if firstArea != 0 {
        areaList.InsertBefore(area, firstArea);
      } else {
        areaList.BeEmpty(area);
      }
      firstArea, areaSize, areaSeq := area, areaSize[area := size], [area] + areaSeq;
    }

    // ---- boundary tags ----

    method SetSizeFree(c: Address, size: nat)
      requires SizeOf(size) == size && SizeOf(size + CHUNK_IN_USE) == size
      modifies this`tags, this`bytes
      ensures tags == PutWord(old(tags), c, size)
      ensures bytes == Clobber(hdr, Clobber(hdr, old(bytes), c), c + size)
    {
      tags := tags[c + size := Tag(size, Word(tags, c + size))];
      tags := tags[c := Tag(PrevWord(tags, c), size)];
      bytes := Clobber(hdr, Clobber(hdr, bytes, c), c + size);
    }

    method SetSizeInUse(c: Address, size: nat)
      requires SizeOf(size) == size && SizeOf(size + CHUNK_IN_USE) == size
      modifies this`tags, this`bytes
      ensures tags == PutWord(old(tags), c, size + CHUNK_IN_USE)
      ensures bytes == Clobber(hdr, Clobber(hdr, old(bytes), c), c + size)
    {
      var word := size + CHUNK_IN_USE;
      tags := tags[c + size := Tag(word, Word(tags, c + size))];
      tags := tags[c := Tag(PrevWord(tags, c), word)];
      bytes := Clobber(hdr, Clobber(hdr, bytes, c), c + size);
    }

    // ---- bins ----

    /** Links a chunk into the bin of its size, keeping that bin in descending order. */
    method LinkFree(c: Address, ghost free: set<Address>)
      requires list != areaList && Binning(free) && c !in free
      requires c > 0 && c in tags && Size(tags, c) % ALIGN == 0 && Size(tags, c) <= MAX_SIZE
      modifies list, this`binBlocks, this`bins
      ensures Binning(free + {c})
    {
      hide BinOf, BinIndex, Size, Mark, Spliced, Flag, BinsHold;
      var size := Size(tags, c);
      BinOfBound(tags, c);
      var index := BinIndex(size);
      var bin := Anchor(index);
      BinPointers(list.at, tags, bins, free, index, 0);
      ghost var k := 0;
      var empty := list.at[bin].next == bin;
      if index < NUM_SMALL_BINS || empty {
        BinPointers(list.at, tags, bins, free, index, |bins[index]|);
        FrontInsertable(list.at, tags, bins, free, c);
        BinInsert(list.at, tags, bins, free, c, 0);
        FlagsWith(binBlocks, Mark(binBlocks, index), tags, bins, c, 0);
        list.InsertAfter(c, bin);
        binBlocks := Mark(binBlocks, index);
      } else {
        var link := list.at[bin].next;
        while link != bin && size < Size(tags, link)
          invariant bins == old(bins) && binBlocks == old(binBlocks) && list.at == old(list.at)
          invariant k <= |bins[index]| && link == NodeAt(bins, index, k)
          invariant forall l :: 0 <= l < k ==> Size(tags, bins[index][l]) > size
          decreases |bins[index]| - k
        {
          BinPointers(list.at, tags, bins, free, index, k + 1);
          link := list.at[link].next;
          k := k + 1;
        }
        if k < |bins[index]| { BinPointers(list.at, tags, bins, free, index, k); }
        OrderInsertable(list.at, tags, bins, free, c, k);
        BinInsert(list.at, tags, bins, free, c, k);
        FlagsWith(binBlocks, binBlocks, tags, bins, c, k);
        list.InsertBefore(c, link);
      }
      bins := BinsWith(tags, bins, c, k);
    }

    /** Takes a free chunk out of its bin. */
    method UnlinkFree(c: Address, ghost free: set<Address>)
      requires list != areaList && Binning(free) && c in free
      modifies list, this`binBlocks, this`bins
      ensures Binning(free - {c})
    {
      hide BinOf, BinIndex, Size, Clear, Bypassed, Flag, BinsHold;
      ghost var k := PositionOf(list.at, tags, bins, free, c);
      BinRemove(list.at, tags, bins, free, c, k);
      list.RemoveLeaveDangling(c);
      var size := Size(tags, c);
      var index := BinIndex(size);
      ghost var bins' := BinsWithout(bins, index, k);
      BinPointers(list.at, tags, bins', free - {c}, index, 0);
      var bin := Anchor(index);
      FlagsWithout(binBlocks, if bins'[index] == [] then Clear(binBlocks, index) else binBlocks, bins, index, k);
      if list.at[bin].next == bin {
        binBlocks := Clear(binBlocks, index);
      }
      bins := bins';
    }

    // ---- allocation ----

    /** `(int)(candidate_size - size)` */
    method Remainder(c: Address, size: nat) returns (r: int)
      requires size <= MAX_SIZE && Size(tags, c) <= MAX_SIZE
      ensures r == Size(tags, c) - size
    {
      Int32Exact(Size(tags, c) - size);
      r := Int32(Size(tags, c) - size);
    }

    /** Walks a bin from its tail to the first chunk that is large enough; the anchor if there is none. */
    method ScanBin(index: nat, size: nat, ghost free: set<Address>) returns (candidate: Address, ghost k: nat)
      requires Binning(free) && size <= MAX_SIZE && index < NUM_BINS
      ensures k <= |bins[index]| && candidate == NodeBefore(bins, index, k) && (candidate == Anchor(index) <==> k == 0)
      ensures k > 0 ==> Size(tags, candidate) >= size && Size(tags, candidate) <= MAX_SIZE
      ensures forall l :: k <= l < |bins[index]| ==> Size(tags, bins[index][l]) < size
    {
      hide BinsHold, FlagsOk, Size;
      k := |bins[index]|;
      BinPointers(list.at, tags, bins, free, index, k);
      NotAnchor(index, k, free);
      candidate := list.at[Anchor(index)].prev;
      while candidate != Anchor(index)
        invariant k <= |bins[index]| && candidate == NodeBefore(bins, index, k)
        invariant candidate == Anchor(index) <==> k == 0
        invariant forall l :: k <= l < |bins[index]| ==> Size(tags, bins[index][l]) < size
        decreases k
      {
        BinPointers(list.at, tags, bins, free, index, k - 1);
        ghost var _ := PositionOf(list.at, tags, bins, free, candidate);
        var remainder := Remainder(candidate, size);
        if remainder >= 0 {
          return;
        }
        candidate := list.at[candidate].prev;
        k := k - 1;
        NotAnchor(index, k, free);
      }
    }

    lemma NotAnchor(index: nat, k: nat, free: set<Address>)
      requires Binning(free) && index < NUM_BINS && k <= |bins[index]|
      ensures NodeBefore(bins, index, k) == Anchor(index) <==> k == 0
    {
      if k > 0 { BinPointers(list.at, tags, bins, free, index, k - 1); }
    }

    /** Looks for the smallest free chunk that a chunk of the given size can be taken from. */
    method FindFit(size: nat, ghost free: set<Address>) returns (fit: Fit)
      requires Binning(free) && ChunkSize(size) && size <= MAX_SIZE
      ensures fit == NoFit ==> NoneFits(tags, free, size)
      ensures fit != NoFit ==> BestFit(tags, free, size, fit.chunk)
      ensures fit.Exact? ==> Size(tags, fit.chunk) < size + MIN_ALLOC_SIZE
      ensures fit.Bigger? ==> Size(tags, fit.chunk) >= size + MIN_ALLOC_SIZE
    {
      hide BinsHold, FlagsOk, Size, BinOf, BinIndex, TooSmallBelow, BestFit, NoneFits, Flag;
      var index: int := BinIndex(size);
      BelowOwnBin(list.at, tags, bins, free, size);
      BinIndexMonotone(size, size);
      var candidate: Address;
      if index < MAX_SMALL_BIN {
        var bin := Anchor(index);
        BinPointers(list.at, tags, bins, free, index, |bins[index]|);
        NotAnchor(index, |bins[index]|, free);
        candidate := list.at[bin].prev;
        if candidate == bin {
          NoFitIn(list.at, tags, bins, free, size, index);
          bin := Anchor(index + 1);
          BinPointers(list.at, tags, bins, free, index + 1, |bins[index + 1]|);
          NotAnchor(index + 1, |bins[index + 1]|, free);
          candidate := list.at[bin].prev;
          if candidate != bin {
            SmallFit(list.at, tags, bins, free, size, index + 1);
            return Exact(candidate);
          }
          NoFitIn(list.at, tags, bins, free, size, index + 1);
        } else {
          SmallFit(list.at, tags, bins, free, size, index);
          return Exact(candidate);
        }
        index := index + 2;
      } else {
        ghost var k;
        candidate, k := ScanBin(index, size, free);
        if candidate != Anchor(index) {
          FirstFitIsBest(list.at, tags, bins, free, size, index, k - 1);
          var remainder := Remainder(candidate, size);
          if remainder >= MIN_ALLOC_SIZE {
            index := index - 1;
          } else {
            return Exact(candidate);
          }
        } else {
          NoFitIn(list.at, tags, bins, free, size, index);
        }
        index := index + 1;
      }
      while true
        invariant 0 <= index <= NUM_BINS && TooSmallBelow(tags, free, size, index)
        decreases NUM_BINS - index
      {
        ghost var start := index;
        index := NextFullBin(binBlocks, index);
        SkipEmpty(list.at, tags, binBlocks, bins, free, size, start, if index < 0 then NUM_BINS else index);
        if index < 0 { break; }
        ghost var k;
        candidate, k := ScanBin(index, size, free);
        if candidate != Anchor(index) {
          FirstFitIsBest(list.at, tags, bins, free, size, index, k - 1);
          var remainder := Remainder(candidate, size);
          return if remainder >= MIN_ALLOC_SIZE then Bigger(candidate) else Exact(candidate);
        }
        NoFitIn(list.at, tags, bins, free, size, index);
        index := index + 1;
      }
      NothingFits(list.at, tags, bins, free, size);
      fit := NoFit;
    }

    /** Marks a chunk that is free, but in no bin any more, as in use. */
    method Take(c: Address)
      requires Chunked() && Coalesced(tags, home) && c in FreeChunks(tags, home)
      requires Binning(FreeChunks(tags, home) - {c})
      modifies this`tags, this`bytes
      ensures Valid() && Live() == old(Live()) + {c} && FreeChunks(tags, home) == old(FreeChunks(tags, home)) - {c}
      ensures Size(tags, c) == Size(old(tags), c)
      ensures SameWords(old(tags), tags, old(Live()))
      ensures PayloadsKept(hdr, old(tags), old(bytes), bytes, old(Live()))
    {
      hide Tiled, AreasLinked, BinsHold, FlagsOk, PayloadsKept, PutWord, Clobber, Coalesced;
      var size := Size(tags, c);
      ghost var free := FreeChunks(tags, home) - {c};
      OneChunk(hdr, tags, home, areas, c);
      JoinStep(hdr, tags, home, areas, bytes, c, size + CHUNK_IN_USE);
      SetSizeInUse(c, size);
      BinsFrame(list.at, old(tags), tags, bins, free);
      assert LiveChunks(old(tags), home) - {c} == old(Live());
      assert FreeChunks(tags, home) == free;
    }

    /** Splits a chunk that is free, but in no bin any more: its first part is put in use, the rest is freed. */
    method SplitTake(c: Address, size: nat, rest: nat)
      requires Chunked() && Coalesced(tags, home) && c in FreeChunks(tags, home)
      requires Binning(FreeChunks(tags, home) - {c})
      requires ChunkSize(size) && rest % ALIGN == 0 && size + rest == Size(tags, c)
      modifies this`tags, this`bytes, this`home, this`binBlocks, this`bins, list
      ensures tags == CutTags(old(tags), c, size + CHUNK_IN_USE, rest)
      ensures Binning(old(FreeChunks(tags, home)) - {c} + {c + size})
      ensures rest < MIN_ALLOC_SIZE ==> home == old(home) && bytes == RuinBytes(hdr, old(bytes), c, size, rest)
      ensures rest >= MIN_ALLOC_SIZE ==>
        && Valid() && Live() == old(Live()) + {c} && Size(tags, c) == size
        && FreeChunks(tags, home) == old(FreeChunks(tags, home)) - {c} + {c + size}
        && SameWords(old(tags), tags, old(Live()))
        && PayloadsKept(hdr, old(tags), old(bytes), bytes, old(Live()))
    {
      hide Tiled, AreasLinked, BinsHold, FlagsOk, PayloadsKept, PutWord, Clobber, Coalesced, CutTags, SameWords,
        FreeChunks,
        Cuttable, SizeOf, InUse;
      ghost var tags0, others := tags, FreeChunks(tags, home) - {c};
      SplitWords(hdr, tags, home, areas, c, size, rest);
      ChunkFacts(c);
      var remainder := c + size;
      SetSizeFree(remainder, rest);
      BinsFrame(list.at, tags0, tags, bins, others);
      ghost var tags1 := tags;
      LinkFree(remainder, others);
      SetSizeInUse(c, size);
      BinsFrame(list.at, tags1, tags, bins, others + {remainder});
      if rest >= MIN_ALLOC_SIZE {
        CutStep(hdr, tags0, home, areas, old(bytes), c, size + CHUNK_IN_USE, rest);
        KeptForFewer(hdr, tags0, tags, bytes, bytes, home.Keys - {c}, old(Live()));
        home := home[remainder := home[c]];
      }
    }

    /** The area that would be obtained for a chunk of this size. */
    function AreaFor(size: nat): nat {
      if areaMoreSize == 0 then areaInitSize else if size > areaMoreSize then size else areaMoreSize
    }

    /** A pool that cannot grow obtains an area only when it has none. */
    predicate MayGrow(size: nat)
      reads this
    {
      areaMoreSize != 0 || (firstArea == 0 && size <= areaInitSize)
    }

    /** An area of the usual size would be split, and what is left of it would be less than a chunk. */
    predicate LeavesShortTail(size: nat) {
      size <= AreaFor(size) < size + MIN_ALLOC_SIZE && (areaMoreSize == 0 || size <= areaMoreSize)
    }

    /** Nothing fits, and there will be an area that leaves too short a tail. */
    ghost predicate NeedsShortTail(size: nat, grant: nat)
      reads this
    {
      NoneFits(tags, FreeChunks(tags, home), size) && MayGrow(size) && grant != 0 && LeavesShortTail(size)
    }

    /** A pool of a fixed size can have its one area only; any other pool can have any area that it is granted. */
    ghost predicate CannotGrow(size: nat, grant: nat, areas0: map<Address, nat>) {
      grant == 0 || (areaMoreSize == 0 && (areas0 != map[] || size > areaInitSize))
    }

    /** The new area has the initial size, the usual size, or that of a larger request. */
    ghost function WithArea(size: nat, grant: nat, areas0: map<Address, nat>): map<Address, nat> {
      if areaMoreSize == 0 then areas0[ChunkIn(hdr, grant) := areaInitSize]
      else if size > areaMoreSize then areas0[ChunkIn(hdr, grant) := size]
      else areas0[ChunkIn(hdr, grant) := areaMoreSize]
    }

    /** The new area is taken whole, or what is left of it is large enough to be a chunk. */
    ghost predicate RestIsChunk(size: nat) {
      if areaMoreSize == 0 then size + 32 <= areaInitSize else size > areaMoreSize || size + 32 <= areaMoreSize
    }

    /** What comes of a request that no free chunk is large enough for. */
    ghost predicate Grown(size: nat, grant: nat, areas0: map<Address, nat>, r: Outcome)
      reads this, list, areaList
    {
      && (r.Thrown? <==> CannotGrow(size, grant, areas0))
      && (r.Ok? ==>
            && r.ptr == ChunkIn(hdr, grant) + hdr && ChunkIn(hdr, grant) !in areas0
            && areas == WithArea(size, grant, areas0) && (Valid() <==> RestIsChunk(size)))
    }

    lemma IsRefused(size: nat, grant: nat)
      requires CannotGrow(size, grant, areas)
      ensures Grown(size, grant, areas, Thrown)
    {
    }

    lemma IsGrown(size: nat, grant: nat, areas0: map<Address, nat>)
      requires ChunkIn(hdr, grant) !in areas0 && areas == areas0[ChunkIn(hdr, grant) := AreaFor(size)]
      requires !CannotGrow(size, grant, areas0) && (Valid() <==> !LeavesShortTail(size))
      ensures Grown(size, grant, areas0, Ok(ChunkIn(hdr, grant) + hdr))
    {
      hide Valid;
    }

    lemma NoAreas()
      requires Chunked()
      ensures firstArea == 0 <==> areas == map[]
    {
      hide Tiled, Ring;
      if areaSeq == [] {
        forall a: Address ensures a !in areas { assert a in areas ==> HasHeader(hdr, areaSeq, a); }
      } else {
        assert areaSeq[0] in areaSeq && AreaListed(hdr, areaSize, areas, areaSeq[0]);
        assert areaSeq[0] + hdr in areas;
      }
    }

    /** Gets a new area, whose one free chunk is in no bin yet. */
    method OpenArea(size: nat, grant: nat) returns (c: Address)
      requires Valid() && ChunkSize(size) && size <= MAX_SIZE && FreshBlock(hdr, areas, grant, size)
      modifies areaList, this`tags, this`areaSize, this`firstArea, this`bytes, this`home, this`areas, this`areaSeq
      ensures c == ChunkIn(hdr, grant) && areas == old(areas)[c := size] && c !in old(home)
      ensures areas - {c} == old(areas) && Disjoint(hdr, areas - {c}, c, size)
      ensures Chunked() && Coalesced(tags, home) && Binning(FreeChunks(tags, home) - {c})
      ensures c in FreeChunks(tags, home) && Size(tags, c) == size && Live() == old(Live())
      ensures SameWords(old(tags), tags, Live()) && PayloadsKept(hdr, old(tags), old(bytes), bytes, Live())
    {
      hide Tiled, AreasLinked, BinsHold, FlagsOk, PayloadsKept, SameWords, Coalesced, FreshBlock, AlignUp,
        PutWord, PutNeighbors, Word, SizeOf, InUse;
      ghost var free, tags0, bytes0 := FreeChunks(tags, home), tags, bytes;
      FreshIsDisjoint(hdr, areas, grant, size);
      var area := NewArea(size, grant);
      c := area + hdr;
      WordOfSize(size);
      KeptForFewer(hdr, tags0, tags, bytes0, bytes, old(home).Keys, free);
      KeptForFewer(hdr, tags0, tags, bytes0, bytes, old(home).Keys, Live());
      BinsFrame(list.at, tags0, tags, bins, free);
      assert FreeChunks(tags, home) - {c} == free;
    }

    /** Gets a new area and takes a chunk of the given size from its front. */
    method Grow(size: nat, grant: nat) returns (c: Address)
      requires Valid() && ChunkSize(size) && size <= MAX_SIZE && MayGrow(size)
      requires grant > 0 && FreshBlock(hdr, areas, grant, AreaFor(size))
      modifies this`tags, this`areaSize, this`firstArea, this`binBlocks, this`bytes
      modifies this`home, this`areas, this`areaSeq, this`bins, list, areaList
      ensures c == ChunkIn(hdr, grant) && areas == old(areas)[c := AreaFor(size)] && c !in old(home)
      ensures c !in old(areas) && (Valid() <==> !LeavesShortTail(size))
      ensures LeavesShortTail(size) ==> Broken(c, size, old(tags), old(bytes), old(Live()))
      ensures !LeavesShortTail(size) ==>
                && Valid() && Live() == old(Live()) + {c} && size == Size(tags, c)
                && SameWords(old(tags), tags, old(Live())) && PayloadsKept(hdr, old(tags), old(bytes), bytes, old(Live()))
    {
      hide Tiled, AreasLinked, BinsHold, FlagsOk, PayloadsKept, SameWords, Coalesced, CutTags, FreshBlock, AlignUp,
        PutWord, Word, SizeOf, LiveChunks, Ruined, Outside, Disjoint, RuinBytes;
      c := OpenArea(AreaFor(size), grant);
      ghost var tags1, bytes1, home1 := tags, bytes, home;
      if areaMoreSize != 0 && size > areaMoreSize {
        Take(c);
      } else {
        var rest := Remainder(c, size);
        SplitTake(c, size, rest);
        if LeavesShortTail(size) {
          RuinStep(hdr, tags1, home1, areas, bytes1, c, size, rest);
          home := home - {c};
        }
      }
      SameTwice(old(tags), tags1, tags, old(Live()));
      KeptTwice(hdr, old(tags), tags1, old(bytes), bytes1, bytes, old(Live()));
      if LeavesShortTail(size) { BrokenIsInvalid(c, size, old(tags), old(bytes), old(Live())); }
    }

    /** A request for just what an area of the usual size holds leaves no tail at all. */
    lemma ShortTailExample()
      requires Configured() && areaMoreSize >= 2 * hdr
      ensures var size := RequestToSize(hdr, areaMoreSize - hdr);
              && LeavesShortTail(size) && MayGrow(size)
              && (FreeChunks(tags, home) == {} ==> NoneFits(tags, FreeChunks(tags, home), size))
    {
    }

    /** In any sound pool without free chunks that request leaves an unsound pool. */
    method AllocShortTail(grant: nat) returns (r: Outcome)
      requires Valid() && areaMoreSize >= 2 * hdr && FreeChunks(tags, home) == {}
      requires grant != 0 && FreshBlock(hdr, areas, grant, areaMoreSize)
      modifies this`tags, this`areaSize, this`firstArea, this`binBlocks, this`bytes
      modifies this`home, this`areas, this`areaSeq, this`bins, list, areaList
      ensures r.Ok? && !Valid()
    {
      hide Tiled, AreasLinked, BinsHold, FlagsOk, Coalesced, FreshBlock;
      ShortTailExample();
      r := Alloc(areaMoreSize - hdr, grant);
    }

    method Alloc(reqSize: nat, grant: nat) returns (r: Outcome)
      requires Valid() && RequestToSize(hdr, reqSize) <= MAX_SIZE
      requires grant != 0 ==> FreshBlock(hdr, areas, grant, AreaFor(RequestToSize(hdr, reqSize)))
      modifies this`tags, this`areaSize, this`firstArea, this`binBlocks, this`bytes
      modifies this`home, this`areas, this`areaSeq, this`bins, list, areaList
      // it throws exactly when no free chunk is large enough and no area can be had
      ensures var size := RequestToSize(hdr, reqSize);
              r.Thrown? <==> old(NoneFits(tags, FreeChunks(tags, home), size)) && (!old(MayGrow(size)) || grant == 0)
      ensures r.Thrown? ==> Valid() && tags == old(tags) && home == old(home) && areas == old(areas) && bytes == old(bytes)
      // otherwise the pool is sound again, unless it had to grow by an area that leaves too short a tail
      ensures var size := RequestToSize(hdr, reqSize);
              r.Ok? ==> (Valid() <==> !(old(NoneFits(tags, FreeChunks(tags, home), size)) && LeavesShortTail(size)))
      ensures r.Ok? && !Valid() ==>
                var a, g := ChunkIn(hdr, grant), AreaFor(RequestToSize(hdr, reqSize));
                forall home', areas' :: a in areas' && areas'[a] == g ==> !Tiled(hdr, tags, home', areas')
      // in that case all but the new area is sound, and the blocks in it are as before
      ensures r.Ok? && !Valid() ==>
                var a := ChunkIn(hdr, grant);
                r.ptr == a + hdr && areas == old(areas)[a := AreaFor(RequestToSize(hdr, reqSize))]
                && Broken(a, RequestToSize(hdr, reqSize), old(tags), old(bytes), old(Live()))
      // one more block is live, aligned, large enough and with little waste; all others are as before
      ensures r.Ok? && Valid() ==> Allocated(reqSize, r.ptr, old(tags), old(bytes), old(Live()))
      // it is the best fit among the free chunks, or the front of a new area when there was no fit
      ensures var size := RequestToSize(hdr, reqSize);
              r.Ok? && Valid() ==>
                if old(NoneFits(tags, FreeChunks(tags, home), size))
                then areas == old(areas)[ChunkIn(hdr, grant) := AreaFor(size)] && r.ptr == ChunkIn(hdr, grant) + hdr
                else areas == old(areas) && BestFit(old(tags), old(FreeChunks(tags, home)), size, r.ptr - hdr)
      // which area that is, and when there is none
      ensures var size := RequestToSize(hdr, reqSize);
              old(NoneFits(tags, FreeChunks(tags, home), size)) ==> Grown(size, grant, old(areas), r)
      // a free chunk that leaves at least 32 bytes is split
      ensures var size := RequestToSize(hdr, reqSize);
              !old(NoneFits(tags, FreeChunks(tags, home), size)) ==>
                && r.Ok? && Valid() && areas == old(areas)
                && var had := Size(old(tags), r.ptr - hdr);
                   Size(tags, r.ptr - hdr) == if had >= size + 32 then size else had
    {
      hide Tiled, AreasLinked, BinsHold, FlagsOk, PayloadsKept, SameWords, Coalesced, NoneFits, BestFit, CutTags,
        FreshBlock, AlignUp, Size, ChunkSize, PutWord, Broken, Grown, WithArea, RestIsChunk;
      NoAreas();
      var size := RequestToSize(hdr, reqSize);
      ghost var free := FreeChunks(tags, home);
      var fit := FindFit(size, free);
      FitIsNotNothing(tags, free, size);
      match fit {
      case Exact(candidate) =>
        UnlinkFree(candidate, free);
        Take(candidate);
        r := Ok(candidate + hdr);
      case Bigger(candidate) =>
        UnlinkFree(candidate, free);
        UserPointer(candidate);
        var rest := Remainder(candidate, size);
        SplitTake(candidate, size, rest);
        r := Ok(candidate + hdr);
      case NoFit =>
        if !MayGrow(size) || grant == 0 {
          IsRefused(size, grant);
          return Thrown;
        }
        var candidate := Grow(size, grant);
        if LeavesShortTail(size) { BrokenIsInvalid(candidate, size, old(tags), old(bytes), old(Live())); }
        r := Ok(candidate + hdr);
        IsGrown(size, grant, old(areas));
      }
      if r.Ok? && Valid() { UserPointer(r.ptr - hdr); }
    }

    // ---- freeing ----

    /** Hands an area back that is one single free chunk, which is in no bin. */
    method FreeArea(chunk: Address, ghost ruined: set<Address>)
      requires Configured() && Tiled(hdr, tags, home, areas - ruined)
      requires AreasLinked(hdr, areaList.at, areaSize, firstArea, areaSeq, areas)
      requires chunk in home && chunk == home[chunk]
      requires chunk in areas - ruined && End(tags, chunk) == chunk + areas[chunk]
      requires !InUse(Word(tags, chunk))
      modifies areaList, this`firstArea, this`areaSeq, this`home, this`areas
      ensures Tiled(hdr, tags, home, areas - ruined)
      ensures AreasLinked(hdr, areaList.at, areaSize, firstArea, areaSeq, areas)
      ensures areas == old(areas) - {chunk} && home == old(home) - {chunk}
      ensures FreeChunks(tags, home) == old(FreeChunks(tags, home)) - {chunk} && Live() == old(Live())
      ensures old(Coalesced(tags, home)) ==> Coalesced(tags, home)
    {
      hide Tiled, AreasLinked, Bypassed, Word, InUse;
      var area := chunk - hdr;
      ghost var k := AreaPosition(chunk);
      RemoveArea(hdr, tags, home, areas - ruined, chunk);
      assert areas - ruined - {chunk} == areas - {chunk} - ruined;
      UnlinkArea(hdr, areaList.at, areaSize, firstArea, areaSeq, areas, k);
      if areaList.at[area].next == area {
        firstArea := 0;
      } else {
        firstArea := areaList.at[area].next;
        areaList.RemoveLeaveDangling(area);
      }
      areaSeq := RingWithout(areaSeq, k);
      home, areas := home - {chunk}, areas - {chunk};
    }

    lemma AreaPosition(a: Address) returns (k: nat)
      requires AreasLinked(hdr, areaList.at, areaSize, firstArea, areaSeq, areas) && a in areas
      ensures k < |areaSeq| && areaSeq[k] == a - hdr
    {
      assert HasHeader(hdr, areaSeq, a);
      k :| 0 <= k < |areaSeq| && areaSeq[k] == a - hdr;
    }

    /** Takes the free neighbours of a chunk in use out of their bins, to be merged with it. */
    method UnlinkNeighbors(c: Address, ghost ruined: set<Address>, ghost strays: set<Address>)
      returns (chunk: Address, size: nat)
      requires SoundBut(ruined, strays) && c in Live()
      modifies this`binBlocks, this`bins, list
      ensures chunk == MergedStart(tags, c) && size == MergedEnd(tags, c) - chunk
      ensures Binning(FreeChunks(tags, home) - Merging(tags, c) + strays)
    {
      hide Tiled, AreasLinked, BinsHold, FlagsOk, Coalesced, FreeChunks, Word, PrevWord, InUse, SizeOf, Outside;
      ghost var free := FreeChunks(tags, home) + strays;
      MergeLeft(hdr, tags, home, areas - ruined, c);
      MergeRight(hdr, tags, home, areas - ruined, c);
      PartStep(hdr, tags, home, areas - ruined, bytes, c, strays);
      FreeIsHome(tags, home);
      chunk := c;
      size := Size(tags, chunk);
      if !InUse(PrevWord(tags, chunk)) {
        var prevSize := SizeOf(PrevWord(tags, chunk));
        chunk := chunk - prevSize;
        size := size + prevSize;
        UnlinkFree(chunk, free);
        free := free - {chunk};
      }
      var next := chunk + size;
      if !InUse(Word(tags, next)) {
        size := size + Size(tags, next);
        UnlinkFree(next, free);
        free := free - {next};
      }
      assert free == FreeChunks(tags, home) - Merging(tags, c) + strays;
    }

    method Free(ptr: Address)
      requires Valid() && (ptr != 0 ==> ptr - hdr in Live())
      modifies this`tags, this`firstArea, this`binBlocks, this`bytes
      modifies this`home, this`areas, this`areaSeq, this`bins, list, areaList
      ensures Valid()
      ensures ptr == 0 ==> tags == old(tags) && home == old(home) && areas == old(areas) && bytes == old(bytes)
      // the block is no longer live; all other blocks are as before
      ensures ptr != 0 ==> Freed(ptr, old(tags), old(bytes), old(Live()))
      ensures ptr != 0 ==>
                bytes == Clobber(hdr, Clobber(hdr, old(bytes), MergedStart(old(tags), ptr - hdr)), MergedEnd(old(tags), ptr - hdr))
      // its area goes back if the pool can grow and nothing else was in use in it
      ensures ptr != 0 ==>
                areas == if areaMoreSize != 0 && old(OnlyLive(tags, home, ptr - hdr))
                         then old(areas) - {old(home)[ptr - hdr]} else old(areas)
    {
      hide Tiled, AreasLinked, BinsHold, FlagsOk, PayloadsKept, SameWords, Coalesced, SoundBut, Valid, Freed, SameOutside,
        Clobber, OnlyLive, MergedStart, MergedEnd, LiveChunks, FreeChunks;
      if ptr == 0 { return; }
      SoundButNothing();
      FreeChunk(ptr - hdr, {}, {});
      SoundButNothing();
    }

    /** Frees a chunk of the sound part of the pool; what lies outside of that is not touched. */
    method FreeChunk(c: Address, ghost ruined: set<Address>, ghost strays: set<Address>)
      requires SoundBut(ruined, strays) && c in Live()
      modifies this`tags, this`firstArea, this`binBlocks, this`bytes
      modifies this`home, this`areas, this`areaSeq, this`bins, list, areaList
      ensures SoundBut(ruined, strays) && Freed(c + hdr, old(tags), old(bytes), old(Live()))
      ensures bytes == Clobber(hdr, Clobber(hdr, old(bytes), MergedStart(old(tags), c)), MergedEnd(old(tags), c))
      ensures c in old(home)
      ensures areas == if areaMoreSize != 0 && old(OnlyLive(tags, home, c)) then old(areas) - {old(home)[c]} else old(areas)
      ensures old(home)[c] !in ruined && SameOutside(old(tags), tags, old(areas) - ruined)
    {
      hide Tiled, AreasLinked, BinsHold, FlagsOk, PayloadsKept, SameWords, Coalesced, PutWord, Merging, Outside,
        SameOutside, Clobber, OnlyLive, Joined, MergedStart, MergedEnd, LiveChunks, FreeChunks, Word, PrevWord, InUse,
        SizeOf;
      ghost var tags0, sound := tags, areas - ruined;
      ChunkOfLive(tags, home, c);
      FreeStep(hdr, tags, home, sound, bytes, c);
      MergesAll(hdr, tags, home, sound, c);
      PartStep(hdr, tags, home, sound, bytes, c, strays);
      var chunk, size := UnlinkNeighbors(c, ruined, strays);
      ghost var others := FreeChunks(tags, home) - Merging(tags, c) + strays;
      WordOfSize(size);
      SetSizeFree(chunk, size);
      home := Joined(home, chunk, chunk + size);
      BinsFrame(list.at, tags0, tags, bins, others);
      IsAreaExactly(hdr, tags, home, sound, chunk);
      if areaMoreSize != 0 && PrevWord(tags, chunk) == CHUNK_IN_USE && Word(tags, End(tags, chunk)) == CHUNK_IN_USE {
        FreeArea(chunk, ruined);
        OutsideFewer(areas - ruined, sound, strays);
        assert FreeChunks(tags, home) + strays == others;
      } else {
        PartFacts(chunk, ruined);
        LinkFree(chunk, others);
        assert FreeChunks(tags, home) + strays == others + {chunk};
      }
    }

    // ---- freeing everything ----

    method SetNeighborsInUse(c: Address, size: nat)
      modifies this`tags, this`bytes
      ensures tags == PutNeighbors(old(tags), c, size)
      ensures bytes == Clobber(hdr, Clobber(hdr, old(bytes), c), c + size)
    {
      tags := PutNeighbors(tags, c, size);
      bytes := Clobber(hdr, Clobber(hdr, bytes, c), c + size);
    }

    /** Makes one area a single free chunk again, given that those of `done` already are. */
    method ResetOne(area: Address, ghost done: seq<Address>, ghost tags0: Tags, ghost home0: map<Address, Address>)
      requires Configured() && Tiled(hdr, tags0, home0, areas) && area > 0 && area !in done
      requires area in areaSize && area + hdr in areas && areas[area + hdr] == areaSize[area] && ChunkSize(areaSize[area])
      requires WholeChunks(hdr, tags, areas, done) && Binning(AreasOf(hdr, areas, done).Keys)
      modifies this`tags, this`binBlocks, this`bytes, this`bins, list
      ensures WholeChunks(hdr, tags, areas, done + [area]) && Binning(AreasOf(hdr, areas, done + [area]).Keys)
    {
      hide Tiled, BinsHold, FlagsOk, PutWord, PutNeighbors, Clobber, WholeChunks, AreasOf, SizeOf, Size;
      var size := areaSize[area];
      var chunk := area + hdr;
      WordOfSize(size);
      ghost var tags1 := tags;
      SetSizeFree(chunk, size);
      SetNeighborsInUse(chunk, size);
      ResetArea(hdr, tags0, home0, tags1, tags, areas, done, area);
      BinsFrame(list.at, tags1, tags, bins, AreasOf(hdr, areas, done).Keys);
      LinkFree(chunk, AreasOf(hdr, areas, done).Keys);
      assert AreasOf(hdr, areas, done + [area]).Keys == AreasOf(hdr, areas, done).Keys + {chunk};
    }

    /** Frees all blocks at once: each area becomes one free chunk, and no area is handed back. */
    method FreeAllInternal()
      requires Valid()
      modifies this`tags, this`binBlocks, this`bytes, this`home, this`bins, list
      ensures Valid() && areas == old(areas) && Live() == {}
      ensures FreeChunks(tags, home) == home.Keys == areas.Keys
      ensures forall a :: a in areas ==> Size(tags, a) == areas[a]
    {
      hide Tiled, AreasLinked, BinsHold, FlagsOk, WholeChunks, AreasOf, OwnHomes, Coalesced, FreeChunks, LiveChunks, Size;
      ghost var tags0, home0 := tags, home;
      FirstAreaOf(hdr, areaList.at, areaSize, firstArea, areaSeq, areas);
      InitBins();
      ghost var done := [];
      NoAreaDone(hdr, tags, areas);
      if firstArea != 0 {
        var area := firstArea;
        while true
          invariant Configured() && Tiled(hdr, tags0, home0, areas)
          invariant AreasLinked(hdr, areaList.at, areaSize, firstArea, areaSeq, areas) && |done| < |areaSeq|
          invariant done == areaSeq[..|done|] && area == areaSeq[|done|]
          invariant WholeChunks(hdr, tags, areas, done) && Binning(AreasOf(hdr, areas, done).Keys)
          decreases |areaSeq| - |done|
        {
          AreaAt(hdr, areaList.at, areaSize, firstArea, areaSeq, tags0, home0, areas, |done|);
          var next := areaList.at[area].next;
          ResetOne(area, done, tags0, home0);
          done := done + [area];
          area := next;
          if area == firstArea { break; }
        }
      }
      assert done == areaSeq;
      AllAreasDone(hdr, areaList.at, areaSize, firstArea, areaSeq, areas);
      home := OwnHomes(areas);
      WholeIsFree(hdr, tags, areas, done);
    }

    /** Hands all areas back. */
    method FreeAll() returns (returned: seq<Address>)
      requires Valid()
      modifies this`firstArea, this`binBlocks, this`home, this`areas, this`areaSeq, this`bins, list
      // each area is handed back exactly once
      ensures returned == old(areaSeq) && Distinct(returned)
      ensures Valid() && home == map[] && areas == map[] && Binning({})
    {
      hide Tiled, BinsHold, FlagsOk;
      returned := [];
      if firstArea != 0 {
        var area := firstArea;
        while true
          invariant firstArea == old(firstArea) && areaSeq == old(areaSeq) && tags == old(tags) && home == old(home)
          invariant areas == old(areas) && Chunked()
          invariant |returned| < |areaSeq| && returned == areaSeq[..|returned|] && area == areaSeq[|returned|]
          decreases |areaSeq| - |returned|
        {
          AreaAt(hdr, areaList.at, areaSize, firstArea, areaSeq, tags, home, areas, |returned|);
          var next := areaList.at[area].next;
          returned := returned + [area];
          area := next;
          if area == firstArea { break; }
        }
        firstArea := 0;
      }
      InitBins();
      home, areas, areaSeq := map[], map[], [];
      EmptyTiling(hdr, tags);
      assert FreeChunks(tags, home) == {};
    }

    /** Starts all over again. */
    method Reinit(grant: nat) returns (ok: bool)
      requires Valid()
      modifies this`tags, this`areaSize, this`firstArea, this`binBlocks, this`bytes
      modifies this`home, this`areas, this`areaSeq, this`bins, list, areaList
      ensures Valid() && Live() == {} && (ok <==> areaInitSize == 0 || grant > 0)
      ensures areas == if areaInitSize == 0 || !ok then map[] else map[ChunkIn(hdr, grant) := areaInitSize]
    {
      var _ := FreeAll();
      ok := InitAlloc(grant);
      assert forall c :: c in home ==> c in FreeChunks(tags, home);
    }

    // ---- reallocation ----

    /**
      Makes the run from lo to hi, which holds the chunk c and free chunks that are in no bin any more, into one
      chunk in use, and frees what there is too much of it.
     */
    method SplitTail(ghost c: Address, lo: Address, newSize: nat, size: nat)
      requires Chunked() && Coalesced(tags, home) && c in Live() && RunAround(tags, c, lo, lo + newSize)
      requires Binning(FreeChunks(tags, home) - Absorbed(tags, c, lo, lo + newSize))
      requires ChunkSize(size) && size <= newSize
      modifies this`tags, this`firstArea, this`binBlocks, this`bytes
      modifies this`home, this`areas, this`areaSeq, this`bins, list, areaList
      ensures Valid() && Live() == old(Live()) - {c} + {lo} && areas == old(areas)
      ensures Size(tags, lo) == if newSize - size >= MIN_ALLOC_SIZE then size else newSize
      ensures SameWords(old(tags), tags, old(Live()) - {c})
      ensures PayloadsKept(hdr, old(tags), old(bytes), bytes, old(Live()) - {c})
      ensures RunBytes(hdr, old(bytes), bytes, lo, newSize, size)
    {
      hide Tiled, AreasLinked, BinsHold, FlagsOk, PayloadsKept, SameWords, Coalesced, PutWord, Clobber,
        Joined, LiveChunks, FreeChunks, Word, InUse, SizeOf, Absorbed, MergedEnd, MergedStart, RunAround;
      ghost var tags0, bytes0, others := tags, bytes, Live() - {c};
      ghost var free := FreeChunks(tags, home) - Absorbed(tags, c, lo, lo + newSize);
      if newSize - size >= MIN_ALLOC_SIZE {
        var rest := newSize - size;
        var remainder := lo + size;
        RunCutStep(hdr, tags, home, areas, bytes, c, lo, size, rest);
        ChunkFacts(lo);
        WordOfSize(size);
        WordOfSize(rest);
        SetSizeInUse(remainder, rest);
        SetSizeInUse(lo, size);
        home := Joined(home, lo, lo + newSize)[remainder := home[lo]];
        BinsFrame(list.at, tags0, tags, bins, free);
        ghost var tags1, bytes1 := tags, bytes;
        assert remainder + hdr - hdr == remainder && Live() == others + {lo, remainder};
        Free(remainder + hdr);
        assert Live() == others + {lo, remainder} - {remainder} == others + {lo};
        SplitDone(hdr, tags0, tags1, tags, bytes0, bytes1, bytes, others, lo, Live());
        SplitBytes(hdr, bytes0, lo, size, rest, MergedEnd(tags1, remainder));
      } else {
        RunStep(hdr, tags, home, areas, bytes, c, lo, lo + newSize);
        WordOfSize(newSize);
        SetSizeInUse(lo, newSize);
        home := Joined(home, lo, lo + newSize);
        BinsFrame(list.at, tags0, tags, bins, free);
        WholeRunBytes(hdr, bytes0, lo, newSize, size);
      }
    }

    /** What reallocation has done, compared with the state before it. */
    ghost predicate Reallocated(size: nat, ptr: Address, ptr': Address, tags0: Tags, bytes0: Bytes, live0: set<Address>)
      reads this
    {
      var c, c' := ptr - hdr, ptr' - hdr;
      && c' in Live() && Live() == live0 - {c} + {c'} && ptr' % ALIGN == 0 && ptr' > 0
      && size <= Size(tags, c') < size + MIN_ALLOC_SIZE
      && SameWords(tags0, tags, live0 - {c})
      && PayloadsKept(hdr, tags0, bytes0, bytes, live0 - {c})
      && var n := (if Size(tags0, c) < Size(tags, c') then Size(tags0, c) else Size(tags, c')) - hdr;
         if ClobbersPayload(hdr, tags0, c, size) then LosesByte(bytes, ptr', n)
         else SameContents(bytes0, ptr, bytes, ptr', n)
    }

    /**
      Where a block is that did not have to move: where it was, if it is large enough or becomes so by what is free
      behind it, and otherwise at the start of what is free before it. What there is too much of it is split off if it is
      at least 32 bytes.
     */
    ghost predicate Resized(size: nat, ptr: Address, ptr': Address, tags0: Tags)
      reads `tags
    {
      var c := ptr - hdr;
      var lo := if Size(tags0, c) >= size || MergedEnd(tags0, c) - c >= size then c else MergedStart(tags0, c);
      var hi := if Size(tags0, c) >= size then End(tags0, c) else MergedEnd(tags0, c);
      ptr' == lo + hdr && Size(tags, lo) == if hi - lo >= size + 32 then size else hi - lo
    }

    /** Keeps a chunk where it is, with what it has taken in behind it. */
    method Stay(c: Address, newSize: nat, size: nat)
      requires Chunked() && Coalesced(tags, home) && c in Live() && RunAround(tags, c, c, c + newSize)
      requires Binning(FreeChunks(tags, home) - Absorbed(tags, c, c, c + newSize))
      requires ChunkSize(size) && size <= newSize
      modifies this`tags, this`firstArea, this`binBlocks, this`bytes
      modifies this`home, this`areas, this`areaSeq, this`bins, list, areaList
      ensures Valid() && areas == old(areas)
      ensures Size(tags, c) == if newSize >= size + 32 then size else newSize
      ensures Reallocated(size, c + hdr, c + hdr, old(tags), old(bytes), old(Live()))
    {
      hide Tiled, AreasLinked, BinsHold, FlagsOk, PayloadsKept, SameWords, Coalesced, LiveChunks, FreeChunks,
        SizeOf, InUse, Absorbed, SameContents, RunBytes, AlignUp, ChunkSize;
      ghost var bytes0, oldSize := bytes, Size(tags, c);
      ChunkOfLive(tags, home, c);
      ChunkFacts(c);
      NeverShrinks(hdr, tags, home, areas, c);
      SplitTail(c, c, newSize, size);
      StayedContents(hdr, bytes0, bytes, c, newSize, size, oldSize);
      ChunkOfLive(tags, home, c);
      UserPointer(c);
    }

    /** Moves a chunk back to the start of the free chunk before it. */
    method Shift(c: Address, prev: Address, newSize: nat, size: nat)
      requires Chunked() && Coalesced(tags, home) && c in Live()
      requires prev == MergedStart(tags, c) && prev + newSize == MergedEnd(tags, c) && prev < c
      requires Binning(FreeChunks(tags, home) - Absorbed(tags, c, prev, prev + newSize))
      requires ChunkSize(size) && Size(tags, c) < size <= newSize && MergedEnd(tags, c) - c < size
      modifies this`tags, this`firstArea, this`binBlocks, this`bytes
      modifies this`home, this`areas, this`areaSeq, this`bins, list, areaList
      ensures Valid() && areas == old(areas)
      ensures Size(tags, prev) == if newSize >= size + 32 then size else newSize
      ensures Reallocated(size, c + hdr, prev + hdr, old(tags), old(bytes), old(Live()))
    {
      hide Tiled, AreasLinked, BinsHold, FlagsOk, PayloadsKept, SameWords, Coalesced, LiveChunks, FreeChunks,
        SizeOf, InUse, Absorbed, SameContents, LosesByte, RunBytes, AlignUp, ChunkSize, MergedStart, MergedEnd;
      ghost var tags0, bytes0, others := tags, bytes, Live() - {c};
      var oldSize := Size(tags, c);
      ShiftDistance(hdr, tags, home, areas, c, size);
      SplitTail(c, prev, newSize, size);
      ghost var bytes1 := bytes;
      ShiftedContents(hdr, bytes0, bytes1, c, prev, newSize, size, oldSize);
      bytes := Moved(bytes, c + hdr, prev + hdr, oldSize - hdr);
      ChunkOfLive(tags, home, prev);
      ShiftKeeps(hdr, tags0, tags, home, areas, bytes0, bytes1, prev, c + hdr, oldSize - hdr, others);
      UserPointer(prev);
    }

    /** What a move to an area that it ruins has done: all but that area is sound, and the contents are kept. */
    ghost predicate MovedBroken(size: nat, ptr: Address, ptr': Address, tags0: Tags, bytes0: Bytes, live0: set<Address>)
      reads this, list, areaList
    {
      && Broken(ptr' - hdr, size, tags0, bytes0, live0 - {ptr - hdr})
      && SameContents(bytes0, ptr, bytes, ptr', Size(tags0, ptr - hdr) - hdr)
    }

    /**
      The areas after a move out of the area a: a new one if nothing fitted, and a is gone if the pool may grow and
      nothing is live in it any more.
     */
    ghost predicate MovedAreas(a: Address, none: bool, size: nat, grant: nat, areas0: map<Address, nat>)
      requires a in areas0
      reads this
    {
      var grown := if none then WithArea(size, grant, areas0) else areas0;
      areas == if areaMoreSize > 0 && (forall d :: d in Live() ==> d < a || a + areas0[a] <= d) then grown - {a} else grown
    }

    /** Allocates anew, copies, and frees. */
    method Move(c: Address, reqSize: nat, grant: nat) returns (r: Outcome)
      requires Valid() && RequestToSize(hdr, reqSize) <= MAX_SIZE && c in Live()
      requires grant != 0 ==> FreshBlock(hdr, areas, grant, AreaFor(RequestToSize(hdr, reqSize)))
      requires MustMove(tags, c, RequestToSize(hdr, reqSize))
      modifies this`tags, this`areaSize, this`firstArea, this`binBlocks, this`bytes
      modifies this`home, this`areas, this`areaSeq, this`bins, list, areaList
      ensures var size := RequestToSize(hdr, reqSize);
              r.Thrown? <==> old(NoneFits(tags, FreeChunks(tags, home), size)) && (!old(MayGrow(size)) || grant == 0)
      ensures r.Thrown? ==> Valid() && tags == old(tags) && home == old(home) && areas == old(areas) && bytes == old(bytes)
      ensures r.Ok? ==> (Valid() <==> !old(NeedsShortTail(RequestToSize(hdr, reqSize), grant)))
      ensures r.Ok? && Valid() ==>
                Reallocated(RequestToSize(hdr, reqSize), c + hdr, r.ptr, old(tags), old(bytes), old(Live()))
      ensures r.Ok? && !Valid() ==>
                && r.ptr == ChunkIn(hdr, grant) + hdr
                && MovedBroken(RequestToSize(hdr, reqSize), c + hdr, r.ptr, old(tags), old(bytes), old(Live()))
      // where it is moved to, and which areas are left
      ensures var size := RequestToSize(hdr, reqSize);
              if old(NoneFits(tags, FreeChunks(tags, home), size)) then
                && (r.Thrown? <==> CannotGrow(size, grant, old(areas)))
                && (r.Ok? ==> r.ptr == ChunkIn(hdr, grant) + hdr && (Valid() <==> RestIsChunk(size)))
              else
                r.Ok? && Valid() && BestFit(old(tags), old(FreeChunks(tags, home)), size, r.ptr - hdr)
      ensures c in old(home) && old(home)[c] in old(areas)
      ensures r.Ok? ==>
                var size := RequestToSize(hdr, reqSize);
                MovedAreas(old(home)[c], old(NoneFits(tags, FreeChunks(tags, home), size)), size, grant, old(areas))
    {
      hide Tiled, AreasLinked, BinsHold, FlagsOk, PayloadsKept, SameWords, Coalesced, LiveChunks, FreeChunks,
        SizeOf, InUse, SameContents, LosesByte, AlignUp, ChunkSize, MergedStart, MergedEnd, NoneFits, FreshBlock, BestFit,
        OnlyLive, Clobber, SoundBut, SameOutside, Ruined, Disjoint, Moved;
      ghost var tags0, bytes0, live0, size := tags, bytes, Live(), RequestToSize(hdr, reqSize);
      ghost var home0, areas0 := home, areas;
      var oldSize := Size(tags, c);
      ChunkOfLive(tags, home, c);
      ChunkFacts(c);
      ChunkInArea(hdr, tags, home, areas, c);
      ghost var short, sound := NeedsShortTail(size, grant), areas;
      r := Alloc(reqSize, grant);
      if r.Thrown? { return; }
      SoundButNothing();
      ghost var a: Address := if short then r.ptr - hdr else 0;
      if short { SoundPart({a}, {a + size}); } else { SoundPart({}, {}); }
      LeftInArea(hdr, tags0, home0, areas0, tags, home, areas - (if short then {a} else {}), c);
      CopyAndFree(c, r.ptr - hdr, oldSize, size, tags0, bytes0, live0);
    }

    /**
      Copies the payload of a chunk to the one that was allocated instead, and frees the old one, whether or not that
      allocation ruined its area.
     */
    method CopyAndFree(c: Address, c': Address, oldSize: nat, ghost size: nat, ghost tags0: Tags, ghost bytes0: Bytes,
                       ghost live0: set<Address>)
      requires c in live0 && hdr <= oldSize == Size(tags0, c) < size
      requires Valid() ==>
                 && c' !in live0 && Live() == live0 + {c'} && size <= Size(tags, c')
                 && SameWords(tags0, tags, live0) && PayloadsKept(hdr, tags0, bytes0, bytes, live0)
      requires !Valid() ==> Broken(c', size, tags0, bytes0, live0)
      modifies this`tags, this`firstArea, this`binBlocks, this`bytes
      modifies this`home, this`areas, this`areaSeq, this`bins, list, areaList
      ensures Valid() <==> old(Valid())
      ensures Valid() ==>
                && Live() == live0 - {c} + {c'} && Size(tags, c') == Size(old(tags), c')
                && SameWords(tags0, tags, live0 - {c}) && PayloadsKept(hdr, tags0, bytes0, bytes, live0 - {c})
                && SameContents(bytes0, c + hdr, bytes, c' + hdr, oldSize - hdr)
      ensures !Valid() ==> MovedBroken(size, c + hdr, c' + hdr, tags0, bytes0, live0)
      ensures Live() == old(Live()) - {c}
      ensures c in old(home)
      ensures areas == if areaMoreSize != 0 && old(OnlyLive(tags, home, c)) then old(areas) - {old(home)[c]} else old(areas)
    {
      hide Tiled, AreasLinked, BinsHold, FlagsOk, PayloadsKept, SameWords, Coalesced, LiveChunks, FreeChunks,
        SizeOf, InUse, SameContents, ChunkSize, MergedStart, MergedEnd, OnlyLive, Clobber, SoundBut, SameOutside, Ruined,
        Disjoint, Moved, Valid;
      SoundButNothing();
      ghost var tags1, bytes1, home1, areas1, short := tags, bytes, home, areas, !Valid();
      ghost var ruined: set<Address>, strays: set<Address> := if short then {c'} else {}, if short then {c' + size} else {};
      ghost var n := oldSize - hdr;
      SoundPart(ruined, strays);
      bytes := Moved(bytes, c + hdr, c' + hdr, oldSize - hdr);
      ghost var bytes2 := bytes;
      if short {
        CopyOutside(hdr, tags0, tags1, home1, areas1 - ruined, bytes0, bytes1, c, c', AreaFor(size), n);
      } else {
        CopyKeeps(hdr, tags0, tags1, home1, areas1 - ruined, bytes0, bytes1, live0, c, c', n);
      }
      FreeChunk(c, ruined, strays);
      SoundButNothing();
      if short {
        KeptForFewer(hdr, tags0, tags1, bytes0, bytes2, live0, live0 - {c});
        KeptTwice(hdr, tags0, tags1, bytes0, bytes2, bytes, live0 - {c});
        SameTwice(tags0, tags1, tags, live0 - {c});
        RuinStays(hdr, tags1, tags, areas1, areas, c', AreaFor(size));
        CopyStays(hdr, tags1, home1, areas1 - ruined, bytes0, bytes2, c + hdr, c, c', AreaFor(size), n);
        BrokenIsInvalid(c', size, tags0, bytes0, live0 - {c});
      } else {
        MoveDone(hdr, tags0, tags1, tags, bytes0, bytes1, bytes2, bytes, live0, c, c', n);
      }
    }

    lemma SoundPart(ruined: set<Address>, strays: set<Address>)
      requires SoundBut(ruined, strays)
      ensures Configured() && Tiled(hdr, tags, home, areas - ruined) && Coalesced(tags, home)
    {
    }

    method Realloc(ptr: Address, reqSize: nat, grant: nat) returns (r: Outcome)
      requires Valid() && RequestToSize(hdr, reqSize) <= MAX_SIZE && (ptr != 0 ==> ptr - hdr in Live())
      requires grant != 0 ==> FreshBlock(hdr, areas, grant, AreaFor(RequestToSize(hdr, reqSize)))
      modifies this`tags, this`areaSize, this`firstArea, this`binBlocks, this`bytes
      modifies this`home, this`areas, this`areaSeq, this`bins, list, areaList
      ensures var size := RequestToSize(hdr, reqSize);
              r.Thrown? <==> old((ptr == 0 || MustMove(tags, ptr - hdr, size)) && NoneFits(tags, FreeChunks(tags, home), size))
                             && (!old(MayGrow(size)) || grant == 0)
      ensures r.Thrown? ==> Valid() && tags == old(tags) && home == old(home) && areas == old(areas) && bytes == old(bytes)
      // without a block it is an allocation
      ensures var size := RequestToSize(hdr, reqSize);
              r.Ok? && ptr == 0 ==> (Valid() <==> !(old(NoneFits(tags, FreeChunks(tags, home), size)) && LeavesShortTail(size)))
      ensures r.Ok? && ptr == 0 && Valid() ==> Allocated(reqSize, r.ptr, old(tags), old(bytes), old(Live()))
      ensures var size := RequestToSize(hdr, reqSize);
              r.Ok? && ptr == 0 && Valid() ==>
                if old(NoneFits(tags, FreeChunks(tags, home), size))
                then areas == old(areas)[ChunkIn(hdr, grant) := AreaFor(size)] && r.ptr == ChunkIn(hdr, grant) + hdr
                else areas == old(areas) && BestFit(old(tags), old(FreeChunks(tags, home)), size, r.ptr - hdr)
      // with a block, the pool is sound again, unless the block had to move to a new area that leaves too short a tail
      ensures var size := RequestToSize(hdr, reqSize);
              r.Ok? && ptr != 0 ==> (Valid() <==> !old(MustMove(tags, ptr - hdr, size) && NeedsShortTail(size, grant)))
      ensures r.Ok? && ptr != 0 && Valid() ==>
                Reallocated(RequestToSize(hdr, reqSize), ptr, r.ptr, old(tags), old(bytes), old(Live()))
      ensures r.Ok? && ptr != 0 && !Valid() ==>
                && r.ptr == ChunkIn(hdr, grant) + hdr
                && MovedBroken(RequestToSize(hdr, reqSize), ptr, r.ptr, old(tags), old(bytes), old(Live()))
      // which areas there are, and where the block is
      ensures var size := RequestToSize(hdr, reqSize);
              ptr == 0 && old(NoneFits(tags, FreeChunks(tags, home), size)) ==> Grown(size, grant, old(areas), r)
      ensures ptr != 0 && !old(MustMove(tags, ptr - hdr, RequestToSize(hdr, reqSize))) ==>
                r.Ok? && areas == old(areas) && Resized(RequestToSize(hdr, reqSize), ptr, r.ptr, old(tags))
      ensures var size := RequestToSize(hdr, reqSize);
              ptr != 0 && old(MustMove(tags, ptr - hdr, size)) ==>
                if old(NoneFits(tags, FreeChunks(tags, home), size)) then
                  && (r.Thrown? <==> CannotGrow(size, grant, old(areas)))
                  && (r.Ok? ==> r.ptr == ChunkIn(hdr, grant) + hdr && (Valid() <==> RestIsChunk(size)))
                else
                  r.Ok? && Valid() && BestFit(old(tags), old(FreeChunks(tags, home)), size, r.ptr - hdr)
      ensures var size := RequestToSize(hdr, reqSize);
              ptr != 0 && r.Ok? && old(MustMove(tags, ptr - hdr, size)) ==>
                && ptr - hdr in old(home) && old(home)[ptr - hdr] in old(areas)
                && MovedAreas(old(home)[ptr - hdr], old(NoneFits(tags, FreeChunks(tags, home), size)), size, grant, old(areas))
    {
      hide Tiled, AreasLinked, BinsHold, FlagsOk, PayloadsKept, SameWords, Coalesced, NoneFits, FreshBlock, AlignUp,
        ChunkSize, Allocated, Reallocated, LiveChunks, FreeChunks, SizeOf, InUse, MergedStart, MergedEnd,
        ClobbersPayload, SameContents, LosesByte, BestFit, Broken, MovedBroken, Grown, WithArea, RestIsChunk, CannotGrow,
        MovedAreas;
      if ptr == 0 {
        r := Alloc(reqSize, grant);
        return;
      }
      var c := ptr - hdr;
      var oldSize := Size(tags, c);
      var size := RequestToSize(hdr, reqSize);
      Neighbors(hdr, tags, home, areas, c);
      var next, nextSize := c + oldSize, 0;
      if oldSize >= size {
        assert FreeChunks(tags, home) - Absorbed(tags, c, c, next) == FreeChunks(tags, home);
        Stay(c, oldSize, size);
        return Ok(ptr);
      }
      var nextFree := !InUse(Word(tags, next));
      if nextFree {
        nextSize := Size(tags, next);
        if nextSize + oldSize >= size {
          UnlinkFree(next, FreeChunks(tags, home));
          assert Absorbed(tags, c, c, next + nextSize) == {next};
          Stay(c, oldSize + nextSize, size);
          return Ok(ptr);
        }
      }
      var prev := c - SizeOf(PrevWord(tags, c));
      if !InUse(Word(tags, prev)) {
        var prevSize := Size(tags, prev);
        if nextFree && nextSize + prevSize + oldSize >= size {
          ghost var free := FreeChunks(tags, home);
          UnlinkFree(next, free);
          UnlinkFree(prev, free - {next});
          assert free - {next} - {prev} == free - Absorbed(tags, c, prev, next + nextSize);
          Shift(c, prev, oldSize + nextSize + prevSize, size);
          return Ok(prev + hdr);
        }
        if prevSize + oldSize >= size {
          UnlinkFree(prev, FreeChunks(tags, home));
          assert Absorbed(tags, c, prev, next) == {prev};
          Shift(c, prev, oldSize + prevSize, size);
          return Ok(prev + hdr);
        }
      }
      r := Move(c, reqSize, grant);
    }

    // ---- accounting ----

    /** Adds up the sizes of all chunks in the bins: they are all the free chunks, so the rest of the areas is in use. */
    method TotalFree() returns (total: nat)
      requires Valid()
      ensures total == Total(tags, FreeChunks(tags, home))
      ensures total + Total(tags, Live()) == AreaTotal(areas)
    {
      hide BinsHold, FlagsOk, Tiled, AreasLinked, Size, Walked, Total;
      ghost var free := FreeChunks(tags, home);
      WalkEnds(list.at, tags, bins, free);
      TotalOfNone(tags);
      total := 0;
      for i := 0 to NUM_BINS
        invariant total == Total(tags, Walked(tags, bins, free, i, if i < NUM_BINS then |bins[i]| else 0))
      {
        var bin := Anchor(i);
        ghost var k: nat := |bins[i]|;
        BinPointers(list.at, tags, bins, free, i, k);
        NotAnchor(i, k, free);
        var candidate := list.at[bin].prev;
        while candidate != bin
          invariant k <= |bins[i]| && candidate == NodeBefore(bins, i, k) && (candidate == bin <==> k == 0)
          invariant total == Total(tags, Walked(tags, bins, free, i, k))
          decreases k
        {
          BinPointers(list.at, tags, bins, free, i, k - 1);
          WalkBack(list.at, tags, bins, free, i, k);
          total := total + Size(tags, candidate);
          candidate := list.at[candidate].prev;
          k := k - 1;
          NotAnchor(i, k, free);
        }
        WalkOn(list.at, tags, bins, free, i);
      }
      Conservation(hdr, tags, home, areas);
    }

    /** The index computed from the top bit of the highest non-zero word of the bitmap. */
    method HighestFullBin() returns (index: int)
      requires |bins| == NUM_BINS && FlagsOk(binBlocks, bins)
      ensures -1 <= index < NUM_BINS && (index >= 0 ==> bins[index] != [])
      ensures forall j :: index < j < NUM_BINS ==> bins[j] == []
    {
      hide Flag, FlagsOk, NumBits;
      var word, i := 0, 3;
      while i >= 0
        invariant -1 <= i <= 3 && word == 0
        invariant forall w :: i < w < 4 ==> binBlocks[w] == 0
      {
        if binBlocks[i] != 0 {
          word := i;
          break;
        }
        i := i - 1;
      }
      HighestBin(binBlocks, bins, word);
      index := 32 * word + NumBits(binBlocks[word]) - 1;
    }

    /**
      The size of the largest free chunk, from the highest occupied bin. With no free chunk at all there is no such
      bin, and the bin that is looked at then lies outside of the pool's bins.
     */
    method LargestFreeChunk() returns (outside: bool, maxSize: nat)
      requires Valid()
      ensures outside <==> forall c :: c !in FreeChunks(tags, home)
      ensures !outside ==> IsLargest(tags, FreeChunks(tags, home), maxSize)
    {
      hide BinsHold, Tiled, AreasLinked, Size, Flag, FlagsOk, IsLargest, FreeChunks;
      ghost var free := FreeChunks(tags, home);
      var index := HighestFullBin();
      maxSize := 0;
      NoBinsNoChunks(list.at, tags, bins, free);
      if index < 0 { return true, 0; }
      outside := false;
      var bin := Anchor(index);
      ghost var k: nat, best: nat := |bins[index]|, 0;
      BinPointers(list.at, tags, bins, free, index, k);
      NotAnchor(index, k, free);
      var candidate := list.at[bin].prev;
      while candidate != bin
        invariant k <= |bins[index]| && candidate == NodeBefore(bins, index, k) && (candidate == bin <==> k == 0)
        invariant forall l :: k <= l < |bins[index]| ==> Size(tags, bins[index][l]) <= maxSize
        invariant k < |bins[index]| ==> best < |bins[index]| && Size(tags, bins[index][best]) == maxSize
        invariant k == |bins[index]| ==> maxSize == 0
        decreases k
      {
        BinPointers(list.at, tags, bins, free, index, k - 1);
        var candidateSize := Size(tags, candidate);
        if k == |bins[index]| || candidateSize > maxSize { best := k - 1; }
        maxSize := if candidateSize > maxSize then candidateSize else maxSize;
        candidate := list.at[candidate].prev;
        k := k - 1;
        NotAnchor(index, k, free);
      }
      TopBinHasLargest(list.at, tags, bins, free, index, maxSize, best);
    }

    // ---- the pool's own checks ----

    /** DoCheckChunk: both ends of a chunk carry the same word. */
    method CheckChunk(p: Address) returns (ok: bool)
      requires Chunked() && p in home
      ensures ok
    {
      NextOf(hdr, tags, home, areas, p);
      ok := Word(tags, p) == PrevWord(tags, End(tags, p));
    }

    /** DoCheckFreeChunk: aligned, fully coalesced, and properly linked. */
    method CheckFreeChunk(p: Address) returns (ok: bool)
      requires Valid() && p in FreeChunks(tags, home)
      ensures ok
    {
      hide BinsHold, FlagsOk, AreasLinked;
      var size := Size(tags, p);
      var tagsOk := CheckChunk(p);
      UserPointer(p);
      FreeHasUsedNext(hdr, tags, home, areas, p);
      FreeIsLinked(list.at, tags, bins, FreeChunks(tags, home), p);
      ok := tagsOk && !InUse(Word(tags, p)) && size >= MIN_ALLOC_SIZE && size % ALIGN == 0 && (p + hdr) % ALIGN == 0
         && InUse(PrevWord(tags, p)) && InUse(Word(tags, p + size))
         && list.at[list.at[p].next].prev == p && list.at[list.at[p].prev].next == p;
    }

    /** DoCheckInUseChunk: in use, and any free neighbour is sound. */
    method CheckInUseChunk(p: Address) returns (ok: bool)
      requires Valid() && p in Live()
      ensures ok
    {
      hide BinsHold, FlagsOk, AreasLinked, Tiled, Coalesced, SizeOf, MergedStart, MergedEnd;
      MergeLeft(hdr, tags, home, areas, p);
      MergeRight(hdr, tags, home, areas, p);
      ok := CheckChunk(p);
      ok := ok && InUse(Word(tags, p));
      if !InUse(PrevWord(tags, p)) {
        MergedStartOf(tags, p);
        var prev := p - SizeOf(PrevWord(tags, p));
        var prevOk := CheckFreeChunk(prev);
        ok := ok && End(tags, prev) == p && prevOk;
      }
      if !InUse(Word(tags, End(tags, p))) {
        var nextOk := CheckFreeChunk(End(tags, p));
        ok := ok && nextOk;
      }
    }

    /** DoCheckArea: the walk by sizes from the first chunk meets exactly the chunks of the area, all sound, and ends. */
    method CheckArea(area: Address) returns (ok: bool, ghost visited: set<Address>)
      requires Valid() && area + hdr in areas
      ensures ok && visited == ChunksFrom(home, area + hdr, area + hdr)
    {
      hide BinsHold, FlagsOk, AreasLinked, Coalesced;
      var p := area + hdr;
      ghost var a := p;
      AreaFacts(hdr, tags, home, areas, a);
      ok := InUse(PrevWord(tags, p));
      visited := {};
      while Word(tags, p) != CHUNK_IN_USE
        invariant ok && a in areas
        invariant (p in home && home[p] == a) || (p == a + areas[a] && Word(tags, p) == CHUNK_IN_USE)
        invariant visited == ChunksFrom(home, a, a) - ChunksFrom(home, a, p)
        decreases a + areas[a] - p
      {
        SentinelOrChunk(hdr, tags, home, areas, a, p);
        var chunkOk;
        if InUse(Word(tags, p)) {
          chunkOk := CheckInUseChunk(p);
        } else {
          chunkOk := CheckFreeChunk(p);
        }
        ok := ok && chunkOk;
        WalkOne(hdr, tags, home, areas, a, p);
        visited := visited + {p};
        p := End(tags, p);
      }
      SentinelOrChunk(hdr, tags, home, areas, a, p);
    }

    /** DoCheckBin: every chunk of a bin has the size of that bin, and is sound. */
    method CheckBin(index: nat) returns (ok: bool)
      requires Valid() && index < NUM_BINS
      ensures ok
    {
      hide BinsHold, FlagsOk, AreasLinked, Tiled, Coalesced, Size, BinOf, BinIndex;
      ghost var free, k := FreeChunks(tags, home), 0;
      ok := true;
      BinPointers(list.at, tags, bins, free, index, 0);
      var p := list.at[Anchor(index)].next;
      while p != Anchor(index)
        invariant ok && k <= |bins[index]| && p == NodeAt(bins, index, k)
        decreases |bins[index]| - k
      {
        BinPointers(list.at, tags, bins, free, index, k);
        BinMember(list.at, tags, bins, free, index, p);
        ghost var _ := PositionOf(list.at, tags, bins, free, p);
        var chunkOk := CheckFreeChunk(p);
        ok := ok && BinIndex(Size(tags, p)) == index && chunkOk;
        BinPointers(list.at, tags, bins, free, index, k + 1);
        p := list.at[p].next;
        k := k + 1;
      }
    }

    /** DoCheckPool: the checks of the whole pool, which every sound pool passes. */
    method CheckPool() returns (ok: bool)
      requires Valid()
      ensures ok
    {
      hide BinsHold, FlagsOk, Tiled, Coalesced;
      ok := true;
      if firstArea != 0 {
        var area := firstArea;
        ghost var k := 0;
        while true
          invariant ok && k < |areaSeq| && area == areaSeq[k]
          decreases |areaSeq| - k
        {
          AreaAt(hdr, areaList.at, areaSize, firstArea, areaSeq, tags, home, areas, k);
          var next := areaList.at[area].next;
          var areaOk, _ := CheckArea(area);
          ok := ok && areaOk;
          area := next;
          k := k + 1;
          if area == firstArea { break; }
        }
      }
      for i := 0 to NUM_BINS
        invariant ok
      {
        var binOk := CheckBin(i);
        ok := ok && binOk;
      }
    }
  }
}
