/**
  What each step of the memory pool does to headers, tiling, areas and the user's bytes, as lemmas about values.
 */
module PoolSteps {
  import opened Rings
  import opened Chunks
  import opened Bits
  import opened Bins

  /** What a call that may throw gives back. A null pointer is 0. */
  datatype Outcome = Ok(ptr: Address) | Thrown

  /** The result of the search for a chunk. */
  datatype Fit = Exact(chunk: Address) | Bigger(chunk: Address) | NoFit

  /** The user's bytes; an address under a chunk header holds none. */
  type Bytes = map<Address, int>

  /** Rounding up to the alignment: (x + kAlignMask) & ~kAlignMask. */
  function AlignUp(x: nat): (r: nat)
    ensures r % ALIGN == 0 && x <= r < x + ALIGN
  {
    (x + ALIGN - 1) - (x + ALIGN - 1) % ALIGN
  }

  /** Total chunk size for a request; h is the size of a header. */
  function RequestToSize(h: nat, reqSize: nat): (size: nat)
    ensures ChunkSize(size) && size >= reqSize + h
    ensures size == MIN_ALLOC_SIZE || size < reqSize + h + ALIGN
  {
    if reqSize + h <= MIN_ALLOC_SIZE then MIN_ALLOC_SIZE else AlignUp(reqSize + h)
  }

  lemma FitIsNotNothing(tags: Tags, free: set<Address>, size: nat)
    ensures forall c :: BestFit(tags, free, size, c) ==> !NoneFits(tags, free, size) && c in free && Size(tags, c) >= size
  {
  }

  // ---- headers and the user's bytes ----

  /** Writing the header at c leaves no user bytes under it. */
  function Clobber(h: nat, bytes: Bytes, c: Address): Bytes {
    map x | x in bytes && !(c <= x < c + h) :: bytes[x]
  }

  /** Bytes in [lo, hi) are the same before and after. */
  ghost predicate Kept(b: Bytes, b': Bytes, lo: Address, hi: Address) {
    forall x {:trigger x in b} {:trigger x in b'} :: lo <= x < hi ==> (x in b <==> x in b') && (x in b ==> b[x] == b'[x])
  }

  /** The payloads of the chunks in `live` are the same before and after. */
  ghost predicate PayloadsKept(h: nat, tags: Tags, b: Bytes, b': Bytes, live: set<Address>) {
    forall d {:trigger PayloadKept(h, tags, b, b', d)} :: d in live ==> PayloadKept(h, tags, b, b', d)
  }

  ghost predicate PayloadKept(h: nat, tags: Tags, b: Bytes, b': Bytes, d: Address) {
    Kept(b, b', d + h, End(tags, d))
  }

  lemma KeptTwice(h: nat, tags: Tags, tags': Tags, b0: Bytes, b1: Bytes, b2: Bytes, live: set<Address>)
    requires PayloadsKept(h, tags, b0, b1, live) && PayloadsKept(h, tags', b1, b2, live)
    requires SameWords(tags, tags', live)
    ensures PayloadsKept(h, tags, b0, b2, live)
  {
    forall d | d in live ensures PayloadKept(h, tags, b0, b2, d) {
      assert PayloadKept(h, tags, b0, b1, d) && PayloadKept(h, tags', b1, b2, d);
    }
  }

  lemma SameTwice(tags: Tags, tags': Tags, tags'': Tags, live: set<Address>)
    requires SameWords(tags, tags', live) && SameWords(tags', tags'', live)
    ensures SameWords(tags, tags'', live)
  {
  }

  lemma KeptForFewer(h: nat, tags: Tags, tags': Tags, b: Bytes, b': Bytes, live: set<Address>, fewer: set<Address>)
    requires fewer <= live
    ensures SameWords(tags, tags', live) ==> SameWords(tags, tags', fewer)
    ensures PayloadsKept(h, tags, b, b', live) ==> PayloadsKept(h, tags, b, b', fewer)
  {
    if PayloadsKept(h, tags, b, b', live) {
      forall d | d in fewer ensures PayloadKept(h, tags, b, b', d) { assert d in live; }
    }
  }

  /** Writing headers anywhere in a chunk or just behind it touches the payload of no other chunk. */
  lemma OtherPayloadKept(h: nat, tags: Tags, home: map<Address, Address>, areas: map<Address, nat>,
                         bytes: Bytes, c: Address, x: Address, d: Address)
    requires Tiled(h, tags, home, areas) && c in home && d in home && d != c && h <= MIN_ALLOC_SIZE
    requires c <= x <= End(tags, c)
    ensures PayloadKept(h, tags, bytes, Clobber(h, bytes, x), d)
  {
    ApartOf(h, tags, home, areas, c, d);
  }

  lemma OtherPayloadsKept(h: nat, tags: Tags, home: map<Address, Address>, areas: map<Address, nat>,
                          bytes: Bytes, c: Address, x: Address, live: set<Address>)
    requires Tiled(h, tags, home, areas) && c in home && live <= home.Keys && c !in live && h <= MIN_ALLOC_SIZE
    requires c <= x <= End(tags, c)
    ensures PayloadsKept(h, tags, bytes, Clobber(h, bytes, x), live)
  {
    forall d | d in live ensures PayloadKept(h, tags, bytes, Clobber(h, bytes, x), d) {
      OtherPayloadKept(h, tags, home, areas, bytes, c, x, d);
    }
  }

  /** The chunks in use outside [lo, hi). */
  ghost function LiveOutside(tags: Tags, home: map<Address, Address>, lo: Address, hi: Address): set<Address> {
    set d | d in LiveChunks(tags, home) && !(lo <= d < hi)
  }

  /** All that joining the chunks from c up to a boundary into one chunk in use does. */
  lemma JoinStep(h: nat, tags: Tags, home: map<Address, Address>, areas: map<Address, nat>, bytes: Bytes,
                 c: Address, word: nat)
    requires Tiled(h, tags, home, areas) && Coalesced(tags, home) && h <= MIN_ALLOC_SIZE
    requires c in home && InUse(word) && Boundary(home, areas, c, c + SizeOf(word))
    ensures var e := c + SizeOf(word);
            var tags', home' := PutWord(tags, c, word), Joined(home, c, e);
            var outside := LiveOutside(tags, home, c, e);
            && Tiled(h, tags', home', areas) && Coalesced(tags', home') && c in home'
            && Word(tags', c) == word && ChunkSize(SizeOf(word))
            && FreeChunks(tags', home') == (set d | d in FreeChunks(tags, home) && !(c <= d < e))
            && LiveChunks(tags', home') == outside + {c}
            && SameWords(tags, tags', home.Keys - {c})
            && PayloadsKept(h, tags, bytes, Clobber(h, Clobber(h, bytes, c), e), outside)
  {
    var e := c + SizeOf(word);
    var tags', home' := PutWord(tags, c, word), Joined(home, c, e);
    JoinTiled(h, tags, home, areas, c, word);
    JoinCoalesced(h, tags, home, areas, c, word);
    JoinFree(h, tags, home, areas, c, word);
    BoundaryFacts(h, tags, home, areas, c, e);
    var outside := LiveOutside(tags, home, c, e);
    assert FreeChunks(tags', home') == (set d | d in FreeChunks(tags, home) && !(c <= d < e));
    OtherPayloadsKept(h, tags', home', areas, bytes, c, c, outside);
    OtherPayloadsKept(h, tags', home', areas, Clobber(h, bytes, c), c, e, outside);
    KeptTwice(h, tags', tags', bytes, Clobber(h, bytes, c), Clobber(h, Clobber(h, bytes, c), e), outside);
    forall d | d in outside ensures PayloadKept(h, tags, bytes, Clobber(h, Clobber(h, bytes, c), e), d) {
      assert PayloadKept(h, tags', bytes, Clobber(h, Clobber(h, bytes, c), e), d);
    }
  }

  /** A chunk is what its own extent holds, and no more. */
  lemma OneChunk(h: nat, tags: Tags, home: map<Address, Address>, areas: map<Address, nat>, c: Address)
    requires Tiled(h, tags, home, areas) && c in home
    ensures Boundary(home, areas, c, End(tags, c)) && Joined(home, c, End(tags, c)) == home
    ensures LiveOutside(tags, home, c, End(tags, c)) == LiveChunks(tags, home) - {c}
    ensures (set d | d in FreeChunks(tags, home) && !(c <= d < End(tags, c))) == FreeChunks(tags, home) - {c}
    ensures var s := Size(tags, c); SizeOf(s) == s && SizeOf(s + CHUNK_IN_USE) == s && InUse(s + CHUNK_IN_USE)
  {
    hide SizeOf, InUse;
    WordOfSize(if Size(tags, c) % ALIGN == 0 then Size(tags, c) else 0);
    NextOf(h, tags, home, areas, c);
    assert ChunkOk(tags, home, areas, c);
    forall d | d in home ensures !(c < d < End(tags, c)) { ApartOf(h, tags, home, areas, c, d); }
  }

  /** The bytes after the headers of both parts of a cut were written. */
  function CutBytes(h: nat, bytes: Bytes, c: Address, s1: nat, s2: nat): Bytes {
    Clobber(h, Clobber(h, Clobber(h, Clobber(h, bytes, c + s1), c + s1 + s2), c), c + s1)
  }

  lemma CutBytesKept(h: nat, tags: Tags, home: map<Address, Address>, areas: map<Address, nat>, bytes: Bytes,
                     c: Address, s1: nat, s2: nat, live: set<Address>)
    requires Tiled(h, tags, home, areas) && c in home && live <= home.Keys && c !in live && h <= MIN_ALLOC_SIZE
    requires s1 + s2 == Size(tags, c)
    ensures PayloadsKept(h, tags, bytes, CutBytes(h, bytes, c, s1, s2), live)
  {
    var b1 := Clobber(h, bytes, c + s1);
    var b2 := Clobber(h, b1, c + s1 + s2);
    var b3 := Clobber(h, b2, c);
    OtherPayloadsKept(h, tags, home, areas, bytes, c, c + s1, live);
    OtherPayloadsKept(h, tags, home, areas, b1, c, c + s1 + s2, live);
    KeptTwice(h, tags, tags, bytes, b1, b2, live);
    OtherPayloadsKept(h, tags, home, areas, b2, c, c, live);
    KeptTwice(h, tags, tags, bytes, b2, b3, live);
    OtherPayloadsKept(h, tags, home, areas, b3, c, c + s1, live);
    KeptTwice(h, tags, tags, bytes, b3, CutBytes(h, bytes, c, s1, s2), live);
  }

  /** All that cutting a chunk does, when the first part is put in use. */
  lemma CutStep(h: nat, tags: Tags, home: map<Address, Address>, areas: map<Address, nat>, bytes: Bytes,
                c: Address, w1: nat, w2: nat)
    requires Tiled(h, tags, home, areas) && Coalesced(tags, home) && h <= MIN_ALLOC_SIZE
    requires Cuttable(tags, home, c, w1, w2) && InUse(w1) && (InUse(w2) || !Live(tags, c))
    ensures var r := c + SizeOf(w1);
            var tags', home' := CutTags(tags, c, w1, w2), home[r := home[c]];
            var bytes' := CutBytes(h, bytes, c, SizeOf(w1), SizeOf(w2));
            var others := LiveChunks(tags, home) - {c};
            && r !in home && Tiled(h, tags', home', areas) && Coalesced(tags', home')
            && Word(tags', c) == w1 && Word(tags', r) == w2
            && FreeChunks(tags', home') == FreeChunks(tags, home) - {c} + (if InUse(w2) then {} else {r})
            && LiveChunks(tags', home') == others + {c} + (if InUse(w2) then {r} else {})
            && SameWords(tags, tags', home.Keys - {c})
            && PayloadsKept(h, tags, bytes, bytes', others)
            && Kept(bytes, bytes', c + h, r)
  {
    CutTiled(h, tags, home, areas, c, w1, w2);
    CutWords(h, tags, home, areas, c, w1, w2);
    NextOf(h, tags, home, areas, c);
    if !InUse(w2) { FreeHasUsedNext(h, tags, home, areas, c); }
    CutCoalesced(h, tags, home, areas, c, w1, w2);
    CutFree(h, tags, home, areas, c, w1, w2);
    var others := LiveChunks(tags, home) - {c};
    assert LiveChunks(tags, home) + {c} == others + {c};
    CutBytesKept(h, tags, home, areas, bytes, c, SizeOf(w1), SizeOf(w2), others);
  }

  /** The two writes of a split, as the bins see them: sizes of other free chunks stay, the remainder has its own. */
  lemma SplitWords(h: nat, tags: Tags, home: map<Address, Address>, areas: map<Address, nat>,
                   c: Address, size: nat, rest: nat)
    requires Tiled(h, tags, home, areas) && Coalesced(tags, home) && c in FreeChunks(tags, home)
    requires ChunkSize(size) && rest % ALIGN == 0 && size + rest == Size(tags, c)
    ensures var r, others := c + size, FreeChunks(tags, home) - {c};
            var tags1 := PutWord(tags, r, rest);
            var tags2 := PutWord(tags1, c, size + CHUNK_IN_USE);
            && r !in others && r in tags1 && Size(tags1, r) == rest
            && SameWords(tags, tags1, others) && SameWords(tags1, tags2, others + {r})
            && tags2 == CutTags(tags, c, size + CHUNK_IN_USE, rest)
            && (rest >= MIN_ALLOC_SIZE ==> Cuttable(tags, home, c, size + CHUNK_IN_USE, rest))
            && SizeOf(size + CHUNK_IN_USE) == size && InUse(size + CHUNK_IN_USE) && SizeOf(rest) == rest && !InUse(rest)
            && SizeOf(size) == size && SizeOf(rest + CHUNK_IN_USE) == rest
            && c in home && !Live(tags, c) && LiveChunks(tags, home) - {c} == LiveChunks(tags, home)
  {
    WordOfSize(size);
    WordOfSize(rest);
    FreeHasUsedNext(h, tags, home, areas, c);
    NextOf(h, tags, home, areas, c);
    ApartOf(h, tags, home, areas, c, c + size);
  }

  /** The sentinel behind an area of this size is that of no tiling. */
  ghost predicate Ruined(tags: Tags, a: Address, size: nat) {
    Word(tags, a + size) == 0 || PrevWord(tags, a + size) == ALIGN
  }

  lemma RuinedIsUntiled(h: nat, tags: Tags, a: Address, size: nat, home: map<Address, Address>, areas: map<Address, nat>)
    requires Ruined(tags, a, size) && a in areas && areas[a] == size
    ensures !Tiled(h, tags, home, areas)
  {
    if Tiled(h, tags, home, areas) { SentinelOf(h, tags, home, areas, a); }
  }

  /** A split that leaves less than a chunk at the end of an area ruins its sentinel: no tiling has such tags. */
  lemma ShortTail(h: nat, tags: Tags, home: map<Address, Address>, areas: map<Address, nat>, a: Address,
                  size: nat, rest: nat, home': map<Address, Address>, areas': map<Address, nat>)
    requires Tiled(h, tags, home, areas) && a in areas && a in home && Size(tags, a) == areas[a]
    requires ChunkSize(size) && rest % ALIGN == 0 && rest < MIN_ALLOC_SIZE && size + rest == areas[a]
    requires a in areas' && areas'[a] == areas[a]
    ensures Ruined(CutTags(tags, a, size + CHUNK_IN_USE, rest), a, areas[a])
    ensures !Tiled(h, CutTags(tags, a, size + CHUNK_IN_USE, rest), home', areas')
  {
    WordOfSize(size);
    WordOfSize(rest);
    var tags' := CutTags(tags, a, size + CHUNK_IN_USE, rest);
    var e := a + areas[a];
    assert rest == 0 ==> Word(tags', e) == 0;
    assert rest > 0 ==> PrevWord(tags', e) == rest;
    RuinedIsUntiled(h, tags', a, areas[a], home', areas');
  }

  /** A free chunk is followed by a chunk in use or by the sentinel. */
  lemma FreeHasUsedNext(h: nat, tags: Tags, home: map<Address, Address>, areas: map<Address, nat>, c: Address)
    requires Tiled(h, tags, home, areas) && Coalesced(tags, home) && c in home && !Live(tags, c)
    ensures InUse(Word(tags, End(tags, c)))
  {
    NextOf(h, tags, home, areas, c);
  }

  // ---- freeing ----

  /** Where a chunk begins once the free chunk before it is merged in. */
  function MergedStart(tags: Tags, c: Address): Address {
    if InUse(PrevWord(tags, c)) then c else c - SizeOf(PrevWord(tags, c))
  }

  /** And where it ends once the free chunk behind it is. */
  function MergedEnd(tags: Tags, c: Address): Address {
    var n := End(tags, c);
    if InUse(Word(tags, n)) then n else End(tags, n)
  }

  lemma MergedStartOf(tags: Tags, c: Address)
    ensures MergedStart(tags, c) == if InUse(PrevWord(tags, c)) then c else c - SizeOf(PrevWord(tags, c))
  {
  }

  /** The free chunks that are merged with c. */
  ghost function Merging(tags: Tags, c: Address): set<Address> {
    (if InUse(PrevWord(tags, c)) then {} else {MergedStart(tags, c)})
    + (if InUse(Word(tags, End(tags, c))) then {} else {End(tags, c)})
  }

  lemma MergeLeft(h: nat, tags: Tags, home: map<Address, Address>, areas: map<Address, nat>, c: Address)
    requires Tiled(h, tags, home, areas) && Coalesced(tags, home) && c in LiveChunks(tags, home)
    ensures var lo := MergedStart(tags, c);
            && lo in home && home[lo] == home[c] && lo <= c && InUse(PrevWord(tags, lo))
            && (lo != c ==> lo in FreeChunks(tags, home) && End(tags, lo) == c)
            && (lo != home[c] ==>
                  var p := lo - SizeOf(PrevWord(tags, lo)); p in LiveChunks(tags, home) && home[p] == home[c] && p < c)
  {
    PrevOf(h, tags, home, areas, c);
    PrevOf(h, tags, home, areas, MergedStart(tags, c));
  }

  lemma MergeRight(h: nat, tags: Tags, home: map<Address, Address>, areas: map<Address, nat>, c: Address)
    requires Tiled(h, tags, home, areas) && Coalesced(tags, home) && c in LiveChunks(tags, home)
    ensures var n, hi := End(tags, c), MergedEnd(tags, c);
            && c < n <= hi && home[c] in areas && hi <= home[c] + areas[home[c]] && InUse(Word(tags, hi))
            && (hi != home[c] + areas[home[c]] ==> hi in LiveChunks(tags, home) && home[hi] == home[c])
            && (!InUse(Word(tags, n)) ==> n in FreeChunks(tags, home) && hi == End(tags, n))
  {
    NextOf(h, tags, home, areas, c);
    assert ChunkOk(tags, home, areas, c);
    var n := End(tags, c);
    if n in home {
      NextOf(h, tags, home, areas, n);
      assert ChunkOk(tags, home, areas, n);
    }
  }

  /** All that freeing a chunk does to tags and tiling. */
  lemma FreeStep(h: nat, tags: Tags, home: map<Address, Address>, areas: map<Address, nat>, bytes: Bytes, c: Address)
    requires Tiled(h, tags, home, areas) && Coalesced(tags, home) && h <= MIN_ALLOC_SIZE
    requires c in LiveChunks(tags, home)
    ensures var lo, hi := MergedStart(tags, c), MergedEnd(tags, c);
            var tags', home' := PutWord(tags, lo, hi - lo), Joined(home, lo, hi);
            var others := LiveChunks(tags, home) - {c};
            && Merging(tags, c) <= FreeChunks(tags, home) && (lo < c ==> lo in Merging(tags, c))
            && ChunkSize(hi - lo) && lo in home && lo < hi
            && Tiled(h, tags', home', areas) && Coalesced(tags', home') && lo in home' && home'[lo] == home[c]
            && Word(tags', lo) == hi - lo
            && lo !in FreeChunks(tags, home) - Merging(tags, c)
            && FreeChunks(tags', home') == FreeChunks(tags, home) - Merging(tags, c) + {lo}
            && LiveChunks(tags', home') == others
            && SameWords(tags, tags', FreeChunks(tags, home) - Merging(tags, c)) && SameWords(tags, tags', others)
            && PayloadsKept(h, tags, bytes, Clobber(h, Clobber(h, bytes, lo), hi), others)
  {
    hide Tiled, Coalesced, PutWord, Joined, Boundary, FreeChunks, LiveChunks, MergedStart, MergedEnd, Merging,
      SameWords, PayloadsKept, Clobber, InUse, SizeOf, Word, PrevWord;
    var lo, hi := MergedStart(tags, c), MergedEnd(tags, c);
    MergedRun(h, tags, home, areas, c);
    JoinTiled(h, tags, home, areas, lo, hi - lo);
    JoinCoalesced(h, tags, home, areas, lo, hi - lo);
    JoinFree(h, tags, home, areas, lo, hi - lo);
    MergedSets(h, tags, home, areas, c);
    MergedWords(h, tags, home, areas, c);
    MergePayloads(h, tags, home, areas, bytes, c);
  }

  /** The run of chunks that c is merged with. */
  lemma MergedRun(h: nat, tags: Tags, home: map<Address, Address>, areas: map<Address, nat>, c: Address)
    requires Tiled(h, tags, home, areas) && Coalesced(tags, home) && c in LiveChunks(tags, home)
    ensures var lo, hi := MergedStart(tags, c), MergedEnd(tags, c);
            && lo in home && home[lo] == home[c] && lo <= c && lo < hi
            && Boundary(home, areas, lo, hi) && ChunkSize(hi - lo)
            && SizeOf(hi - lo) == hi - lo && !InUse(hi - lo)
            && InUse(PrevWord(tags, lo)) && InUse(Word(tags, hi))
            && (lo < c ==> lo in Merging(tags, c))
  {
    hide SizeOf;
    var lo, hi := MergedStart(tags, c), MergedEnd(tags, c);
    MergeLeft(h, tags, home, areas, c);
    MergeRight(h, tags, home, areas, c);
    BoundaryFacts(h, tags, home, areas, lo, hi);
    WordOfSize(hi - lo);
  }

  /** The word of the merged chunk; those of all others are as they were. */
  lemma MergedWords(h: nat, tags: Tags, home: map<Address, Address>, areas: map<Address, nat>, c: Address)
    requires Tiled(h, tags, home, areas) && Coalesced(tags, home) && c in LiveChunks(tags, home)
    requires SizeOf(MergedEnd(tags, c) - MergedStart(tags, c)) == MergedEnd(tags, c) - MergedStart(tags, c) > 0
    ensures var lo, hi := MergedStart(tags, c), MergedEnd(tags, c);
            var tags' := PutWord(tags, lo, hi - lo);
            && lo in Joined(home, lo, hi) && Joined(home, lo, hi)[lo] == home[c]
            && Word(tags', lo) == hi - lo && lo !in FreeChunks(tags, home) - Merging(tags, c)
            && SameWords(tags, tags', FreeChunks(tags, home) - Merging(tags, c))
            && SameWords(tags, tags', LiveChunks(tags, home) - {c})
  {
    hide SizeOf;
    MergeLeft(h, tags, home, areas, c);
  }

  lemma MergePayloads(h: nat, tags: Tags, home: map<Address, Address>, areas: map<Address, nat>, bytes: Bytes, c: Address)
    requires Tiled(h, tags, home, areas) && Coalesced(tags, home) && h <= MIN_ALLOC_SIZE
    requires c in LiveChunks(tags, home)
    ensures var lo, hi := MergedStart(tags, c), MergedEnd(tags, c);
            PayloadsKept(h, tags, bytes, Clobber(h, Clobber(h, bytes, lo), hi), LiveChunks(tags, home) - {c})
  {
    hide SizeOf, Clobber;
    var lo, hi := MergedStart(tags, c), MergedEnd(tags, c);
    var others := LiveChunks(tags, home) - {c};
    MergeLeft(h, tags, home, areas, c);
    MergeRight(h, tags, home, areas, c);
    forall d | d in others ensures PayloadKept(h, tags, bytes, Clobber(h, Clobber(h, bytes, lo), hi), d) {
      var n := End(tags, c);
      OtherPayloadKept(h, tags, home, areas, bytes, if lo < c then lo else c, lo, d);
      OtherPayloadKept(h, tags, home, areas, Clobber(h, bytes, lo), if InUse(Word(tags, n)) then c else n, hi, d);
    }
  }

  /** IsArea() recognises exactly the chunks that fill their area. */
  lemma IsAreaExactly(h: nat, tags: Tags, home: map<Address, Address>, areas: map<Address, nat>, c: Address)
    requires Tiled(h, tags, home, areas) && c in home
    ensures home[c] in areas
    ensures PrevWord(tags, c) == CHUNK_IN_USE && Word(tags, End(tags, c)) == CHUNK_IN_USE
            <==> c == home[c] && End(tags, c) == home[c] + areas[home[c]]
  {
    PrevOf(h, tags, home, areas, c);
    NextOf(h, tags, home, areas, c);
    var n := End(tags, c);
    if n in home { assert ChunkOk(tags, home, areas, n); }
    if c != home[c] { assert ChunkOk(tags, home, areas, c - SizeOf(tags[c].prevWord)); }
  }

  /** No other chunk of its area is in use. */
  ghost predicate OnlyLive(tags: Tags, home: map<Address, Address>, c: Address)
    requires c in home
  {
    forall d :: d in LiveChunks(tags, home) && home[d] == home[c] ==> d == c
  }

  /** A freed chunk merges into its whole area exactly when nothing else in it is in use. */
  lemma MergesAll(h: nat, tags: Tags, home: map<Address, Address>, areas: map<Address, nat>, c: Address)
    requires Tiled(h, tags, home, areas) && Coalesced(tags, home) && c in LiveChunks(tags, home)
    ensures home[c] in areas
    ensures MergedStart(tags, c) == home[c] && MergedEnd(tags, c) == home[c] + areas[home[c]] <==> OnlyLive(tags, home, c)
  {
    hide SizeOf;
    MergeLeft(h, tags, home, areas, c);
    MergeRight(h, tags, home, areas, c);
    MergedSets(h, tags, home, areas, c);
    var lo, hi := MergedStart(tags, c), MergedEnd(tags, c);
    if lo == home[c] && hi == home[c] + areas[home[c]] {
      forall d | d in LiveChunks(tags, home) && home[d] == home[c] ensures d == c {
        assert ChunkOk(tags, home, areas, d);
        assert lo <= d < hi;
      }
    }
  }

  /** The extent of a merged chunk holds the freed chunk, its free neighbours, and nothing else. */
  lemma MergedSets(h: nat, tags: Tags, home: map<Address, Address>, areas: map<Address, nat>, c: Address)
    requires Tiled(h, tags, home, areas) && Coalesced(tags, home) && c in LiveChunks(tags, home)
    ensures var lo, hi := MergedStart(tags, c), MergedEnd(tags, c);
            && Merging(tags, c) <= FreeChunks(tags, home)
            && (set d | d in FreeChunks(tags, home) && !(lo <= d < hi)) == FreeChunks(tags, home) - Merging(tags, c)
            && (set d | d in LiveChunks(tags, home) && !(lo <= d < hi)) == LiveChunks(tags, home) - {c}
            && (forall d :: d in LiveChunks(tags, home) && lo <= d < hi ==> d == c)
  {
    hide SizeOf;
    var lo, n, hi := MergedStart(tags, c), End(tags, c), MergedEnd(tags, c);
    MergeLeft(h, tags, home, areas, c);
    MergeRight(h, tags, home, areas, c);
    forall d | d in home && lo <= d < hi ensures d == lo || d == c || (d == n && !InUse(Word(tags, n))) {
      ApartOf(h, tags, home, areas, lo, d);
      ApartOf(h, tags, home, areas, c, d);
      ApartOf(h, tags, home, areas, n, d);
    }
    MergingInside(h, tags, home, areas, c);
  }

  lemma MergingInside(h: nat, tags: Tags, home: map<Address, Address>, areas: map<Address, nat>, c: Address)
    requires Tiled(h, tags, home, areas) && Coalesced(tags, home) && c in LiveChunks(tags, home)
    ensures forall d :: d in Merging(tags, c) ==> MergedStart(tags, c) <= d < MergedEnd(tags, c)
  {
    hide SizeOf;
    MergeLeft(h, tags, home, areas, c);
    MergeRight(h, tags, home, areas, c);
    var n := End(tags, c);
    if n in home { NextOf(h, tags, home, areas, n); }
  }

  // ---- the ring of areas ----

  /**
    The area headers, linked in a ring that starts at `first` (0 when there is none), are those of `areas`.
    An area header lies h bytes below the first chunk of its area.
   */
  ghost predicate AreasLinked(h: nat, m: Links, sizes: map<Address, nat>, first: Address, s: seq<Address>,
                              areas: map<Address, nat>) {
    && (s == [] <==> first == 0)
    && (s != [] ==> s[0] == first && Ring(m, s))
    && (forall area {:trigger AreaListed(h, sizes, areas, area)} :: area in s ==> AreaListed(h, sizes, areas, area))
    && (forall a {:trigger HasHeader(h, s, a)} :: a in areas ==> HasHeader(h, s, a))
  }

  ghost predicate HasHeader(h: nat, s: seq<Address>, a: Address) { a - h in s }

  ghost predicate AreaListed(h: nat, sizes: map<Address, nat>, areas: map<Address, nat>, area: Address) {
    area > 0 && area in sizes && area + h in areas && areas[area + h] == sizes[area]
  }

  /** A block from outside that holds an area of the given size with its headers, apart from all areas there are. */
  ghost predicate FreshBlock(h: nat, areas: map<Address, nat>, ptr: Address, size: nat) {
    ptr > 0 && forall b :: b in areas ==> ptr + size + 3 * h <= b - h || b + areas[b] + h <= ptr
  }

  /** The first chunk of the area put into a block. */
  function ChunkIn(h: nat, ptr: nat): (a: nat) { AlignUp(ptr) + h }

  lemma FreshIsDisjoint(h: nat, areas: map<Address, nat>, ptr: nat, size: nat)
    requires FreshBlock(h, areas, ptr, size) && h >= ALIGN
    ensures Disjoint(h, areas, ChunkIn(h, ptr), size)
  {
  }

  /** A new area is linked in front of the ring. */
  lemma LinkArea(h: nat, m: Links, sizes: map<Address, nat>, first: Address, s: seq<Address>,
                 areas: map<Address, nat>, area: Address, size: nat)
    requires AreasLinked(h, m, sizes, first, s, areas) && area > 0 && area + h !in areas
    ensures first != 0 ==> first in m && m[first].prev in m && area != first
    ensures var m' := if first == 0 then m[area := Link(area, area)] else Spliced(m, area, m[first].prev, first);
            AreasLinked(h, m', sizes[area := size], area, [area] + s, areas[area + h := size])
  {
    assert area !in s by { assert area in s ==> AreaListed(h, sizes, areas, area); }
    if s == [] {
      assert Linked(m[area := Link(area, area)], [area], 0);
    } else {
      SpliceRing(m, s, |s|, area);
      assert Linked(m, s, 0);
      var s' := InsertAt(s, |s|, area);
      RotateRing(Spliced(m, area, m[first].prev, first), s', |s|);
      assert s'[|s|..] + s'[..|s|] == [area] + s;
    }
    var sizes', areas' := sizes[area := size], areas[area + h := size];
    forall x | x in [area] + s ensures AreaListed(h, sizes', areas', x) {
      if x != area { assert AreaListed(h, sizes, areas, x); }
    }
    forall a | a in areas' ensures HasHeader(h, [area] + s, a) {
      if a != area + h { assert HasHeader(h, s, a); }
    }
  }

  /** The ring without the area at position k, starting behind it. */
  ghost function RingWithout(s: seq<Address>, k: nat): seq<Address>
    requires k < |s|
  {
    s[k + 1..] + s[..k]
  }

  /** An area is unlinked, and the ring starts at the one behind it. */
  lemma UnlinkArea(h: nat, m: Links, sizes: map<Address, nat>, first: Address, s: seq<Address>,
                   areas: map<Address, nat>, k: nat)
    requires AreasLinked(h, m, sizes, first, s, areas) && k < |s|
    ensures s[k] in m && m[s[k]].next in m && m[s[k]].prev in m && s[k] + h in areas
    ensures m[s[k]].next == s[k] <==> |s| == 1
    ensures var m' := if |s| == 1 then m else Bypassed(m, s[k]);
            AreasLinked(h, m', sizes, if |s| == 1 then 0 else m[s[k]].next, RingWithout(s, k), areas - {s[k] + h})
  {
    var area, s', areas' := s[k], RingWithout(s, k), areas - {s[k] + h};
    assert AreaListed(h, sizes, areas, area);
    UnlinkRing(m, s, k);
    assert |s| > 1 ==> s'[0] != 0 by { assert |s| > 1 ==> AreaListed(h, sizes, areas, s'[0]); }
    forall x | x in s' ensures AreaListed(h, sizes, areas', x) {
      assert AreaListed(h, sizes, areas, x);
    }
    forall a | a in areas' ensures HasHeader(h, s', a) {
      assert HasHeader(h, s, a);
      var l :| 0 <= l < |s| && s[l] == a - h;
      assert s'[if l < k then |s| - k - 1 + l else l - k - 1] == s[l];
    }
  }

  lemma UnlinkRing(m: Links, s: seq<Address>, k: nat)
    requires Ring(m, s) && k < |s|
    ensures s[k] in m && m[s[k]].next in m && m[s[k]].prev in m
    ensures m[s[k]].next == s[k] <==> |s| == 1
    ensures var s' := RingWithout(s, k);
            && |s'| == |s| - 1 && s[k] !in s' && (forall x :: x in s' ==> x in s)
            && (|s| > 1 ==> Ring(Bypassed(m, s[k]), s') && s'[0] == m[s[k]].next)
  {
    hide Bypassed, RemoveAt;
    assert Linked(m, s, k) && Linked(m, s, After(s, k)) && Linked(m, s, Before(s, k));
    WithoutOne(s, k);
    if |s| > 1 {
      BypassRing(m, s, k);
      RotateRing(Bypassed(m, s[k]), RemoveAt(s, k), if k < |s| - 1 then k else 0);
    }
  }

  lemma WithoutOne(s: seq<Address>, k: nat)
    requires Distinct(s) && k < |s|
    ensures var s', s1 := RingWithout(s, k), RemoveAt(s, k);
            && |s'| == |s1| == |s| - 1 && s[k] !in s' && (forall x :: x in s' ==> x in s)
            && (|s| > 1 ==> var k1 := if k < |s| - 1 then k else 0; s1[k1..] + s1[..k1] == s' && s'[0] == s[After(s, k)])
  {
  }

  /** The area at a position of the ring, and the one its header points to. */
  lemma AreaAt(h: nat, m: Links, sizes: map<Address, nat>, first: Address, s: seq<Address>,
               tags: Tags, home: map<Address, Address>, areas: map<Address, nat>, k: nat)
    requires Tiled(h, tags, home, areas) && AreasLinked(h, m, sizes, first, s, areas) && k < |s|
    ensures s[k] > 0 && s[k] in sizes && s[k] + h in areas && areas[s[k] + h] == sizes[s[k]]
    ensures ChunkSize(sizes[s[k]]) && s[k] !in s[..k]
    ensures s[k] in m && m[s[k]].next == (if k + 1 < |s| then s[k + 1] else first)
    ensures k + 1 < |s| ==> s[k + 1] != first
    ensures s[..k + 1] == s[..k] + [s[k]]
  {
    assert Linked(m, s, k) && AreaListed(h, sizes, areas, s[k]);
    assert AreaOk(tags, home, areas, s[k] + h);
  }

  lemma FirstAreaOf(h: nat, m: Links, sizes: map<Address, nat>, first: Address, s: seq<Address>, areas: map<Address, nat>)
    requires AreasLinked(h, m, sizes, first, s, areas)
    ensures if first == 0 then s == [] else |s| > 0 && s[0] == first
  {
  }

  /** The ring has all areas, so when all its headers are done, so are all areas. */
  lemma AllAreasDone(h: nat, m: Links, sizes: map<Address, nat>, first: Address, s: seq<Address>, areas: map<Address, nat>)
    requires AreasLinked(h, m, sizes, first, s, areas)
    ensures AreasOf(h, areas, s) == areas
  {
    forall a | a in areas ensures a - h in s { assert HasHeader(h, s, a); }
  }

  // ---- reallocation ----

  /** The byte at x before is the byte at x' after; an undefined one stays undefined. */
  ghost predicate SameByte(b: Bytes, x: Address, b': Bytes, x': Address) {
    (x in b <==> x' in b') && (x in b ==> b[x] == b'[x'])
  }

  /** memmove and memcpy, one byte after the other; undefined bytes are copied as such. */
  function Moved(b: Bytes, src: Address, dst: Address, n: nat): (b': Bytes)
    decreases n
  {
    if n == 0 then b
    else
      var b1 := Moved(b, src, dst, n - 1);
      var x, y := src + n - 1, dst + n - 1;
      if x in b then b1[y := b[x]] else b1 - {y}
  }

  lemma {:induction false} MovedAt(b: Bytes, src: Address, dst: Address, n: nat, x: Address)
    ensures SameByte(b, if dst <= x < dst + n then x - dst + src else x, Moved(b, src, dst, n), x)
    decreases n
  {
    if n > 0 { MovedAt(b, src, dst, n - 1, x); }
  }

  /** Moving bytes into the payload of one chunk leaves the payloads of all others. */
  lemma MoveKeeps(h: nat, tags: Tags, home: map<Address, Address>, areas: map<Address, nat>, bytes: Bytes,
                  c: Address, src: Address, n: nat, others: set<Address>)
    requires Tiled(h, tags, home, areas) && c in home && others <= home.Keys && c !in others
    requires h + n <= Size(tags, c)
    ensures PayloadsKept(h, tags, bytes, Moved(bytes, src, c + h, n), others)
  {
    forall d | d in others ensures PayloadKept(h, tags, bytes, Moved(bytes, src, c + h, n), d) {
      ApartOf(h, tags, home, areas, c, d);
      var b' := Moved(bytes, src, c + h, n);
      forall x | d + h <= x < End(tags, d) ensures (x in bytes <==> x in b') && (x in bytes ==> bytes[x] == b'[x]) {
        MovedAt(bytes, src, c + h, n, x);
      }
    }
  }

  /** In a run, all bytes behind its header stay, but for those under the header of what is split off. */
  ghost predicate RunBytes(h: nat, b: Bytes, b': Bytes, lo: Address, newSize: nat, size: nat) {
    forall x {:trigger x in b'} :: lo + h <= x < lo + newSize ==>
      if newSize - size >= MIN_ALLOC_SIZE && lo + size <= x < lo + size + h then x !in b'
      else (x in b <==> x in b') && (x in b ==> b[x] == b'[x])
  }

  /** The free chunks that a run from lo to hi around c takes in. */
  ghost function Absorbed(tags: Tags, c: Address, lo: Address, hi: Address): set<Address> {
    (if lo == c then {} else {lo}) + (if hi == End(tags, c) then {} else {End(tags, c)})
  }

  ghost predicate RunAround(tags: Tags, c: Address, lo: Address, hi: Address) {
    (lo == c || lo == MergedStart(tags, c)) && (hi == End(tags, c) || hi == MergedEnd(tags, c))
  }

  /** Such a run holds c and the free chunks it takes in, and nothing else. */
  lemma RunSets(h: nat, tags: Tags, home: map<Address, Address>, areas: map<Address, nat>, c: Address,
                lo: Address, hi: Address)
    requires Tiled(h, tags, home, areas) && Coalesced(tags, home) && c in LiveChunks(tags, home)
    requires RunAround(tags, c, lo, hi)
    ensures lo in home && Boundary(home, areas, lo, hi) && lo <= c && End(tags, c) <= hi
    ensures Absorbed(tags, c, lo, hi) <= FreeChunks(tags, home)
    ensures (set d | d in FreeChunks(tags, home) && !(lo <= d < hi)) == FreeChunks(tags, home) - Absorbed(tags, c, lo, hi)
    ensures LiveOutside(tags, home, lo, hi) == LiveChunks(tags, home) - {c}
  {
    hide SizeOf;
    MergeLeft(h, tags, home, areas, c);
    MergeRight(h, tags, home, areas, c);
    NextOf(h, tags, home, areas, c);
    var n := End(tags, c);
    forall d | d in home && lo <= d < hi ensures d == lo || d == c || (d == n && hi != n) {
      ApartOf(h, tags, home, areas, lo, d);
      ApartOf(h, tags, home, areas, c, d);
      ApartOf(h, tags, home, areas, n, d);
    }
  }

  /** All that making a run into one chunk in use does. */
  lemma RunStep(h: nat, tags: Tags, home: map<Address, Address>, areas: map<Address, nat>, bytes: Bytes,
                c: Address, lo: Address, hi: Address)
    requires Tiled(h, tags, home, areas) && Coalesced(tags, home) && h <= MIN_ALLOC_SIZE
    requires c in LiveChunks(tags, home) && RunAround(tags, c, lo, hi)
    ensures lo in home && lo < hi && ChunkSize(hi - lo)
    ensures var s := hi - lo;
            var tags', home' := PutWord(tags, lo, s + CHUNK_IN_USE), Joined(home, lo, hi);
            var others := LiveChunks(tags, home) - {c};
            && Tiled(h, tags', home', areas) && Coalesced(tags', home') && lo in home' && home'[lo] == home[lo]
            && Word(tags', lo) == s + CHUNK_IN_USE && Size(tags', lo) == s
            && FreeChunks(tags', home') == FreeChunks(tags, home) - Absorbed(tags, c, lo, hi)
            && LiveChunks(tags', home') == others + {lo}
            && lo !in others && lo !in FreeChunks(tags', home')
            && others <= home'.Keys && FreeChunks(tags', home') <= home'.Keys
            && SameWords(tags, tags', others) && SameWords(tags, tags', FreeChunks(tags', home'))
            && PayloadsKept(h, tags, bytes, Clobber(h, Clobber(h, bytes, lo), hi), others)
  {
    hide SizeOf, InUse, PutWord, Clobber;
    RunSets(h, tags, home, areas, c, lo, hi);
    BoundaryFacts(h, tags, home, areas, lo, hi);
    WordOfSize(hi - lo);
    JoinStep(h, tags, home, areas, bytes, lo, hi - lo + CHUNK_IN_USE);
  }

  /** All that making a run into two chunks in use does. */
  lemma RunCutStep(h: nat, tags: Tags, home: map<Address, Address>, areas: map<Address, nat>, bytes: Bytes,
                   c: Address, lo: Address, size: nat, rest: nat)
    requires Tiled(h, tags, home, areas) && Coalesced(tags, home) && 0 < h <= MIN_ALLOC_SIZE
    requires c in LiveChunks(tags, home) && RunAround(tags, c, lo, lo + size + rest)
    requires ChunkSize(size) && rest >= MIN_ALLOC_SIZE
    ensures lo in home && ChunkSize(rest)
    ensures var r, hi := lo + size, lo + size + rest;
            var tags', home' := CutTags(tags, lo, size + CHUNK_IN_USE, rest + CHUNK_IN_USE), Joined(home, lo, hi)[r := home[lo]];
            var others := LiveChunks(tags, home) - {c};
            && Tiled(h, tags', home', areas) && Coalesced(tags', home')
            && Size(tags', lo) == size && lo in home' && home'[lo] == home'[r] && lo != r
            && MergedStart(tags', r) == r && MergedEnd(tags', r) >= hi
            && FreeChunks(tags', home') == FreeChunks(tags, home) - Absorbed(tags, c, lo, hi)
            && LiveChunks(tags', home') == others + {lo, r} && lo !in others && r !in others
            && SameWords(tags, tags', others) && SameWords(tags, tags', FreeChunks(tags', home'))
            && PayloadsKept(h, tags, bytes, CutBytes(h, bytes, lo, size, rest), others)
  {
    hide SizeOf, InUse, PutWord, CutBytes, PayloadsKept, SameWords, CutTags, Joined, MergedStart, MergedEnd, Absorbed, LiveChunks, FreeChunks;
    var s := size + rest;
    var r, hi := lo + size, lo + s;
    RunStep(h, tags, home, areas, bytes, c, lo, hi);
    WordOfSize(size);
    WordOfSize(rest);
    WordOfSize(s);
    var tags1, home1 := PutWord(tags, lo, s + CHUNK_IN_USE), Joined(home, lo, hi);
    var w1, w2 := size + CHUNK_IN_USE, rest + CHUNK_IN_USE;
    assert Cuttable(tags1, home1, lo, w1, w2);
    CutStep(h, tags1, home1, areas, bytes, lo, w1, w2);
    CutAfterJoin(tags, lo, s + CHUNK_IN_USE, w1, w2);
    var tags2, home2 := CutTags(tags, lo, w1, w2), home1[r := home[lo]];
    var free, others := FreeChunks(tags1, home1), LiveChunks(tags, home) - {c};
    RunCutFrame(h, tags, tags1, tags2, bytes, CutBytes(h, bytes, lo, size, rest), home1, lo, free, others);
    RunCutEnds(h, tags2, home2, areas, lo, r);
  }

  lemma RunCutFrame(h: nat, tags: Tags, tags1: Tags, tags2: Tags, b: Bytes, b': Bytes, home1: map<Address, Address>,
                    lo: Address, free: set<Address>, others: set<Address>)
    requires lo !in free && lo !in others && free <= home1.Keys && others <= home1.Keys
    requires SameWords(tags, tags1, others) && SameWords(tags, tags1, free)
    requires SameWords(tags1, tags2, home1.Keys - {lo})
    requires PayloadsKept(h, tags1, b, b', others)
    ensures SameWords(tags, tags2, others) && SameWords(tags, tags2, free)
    ensures PayloadsKept(h, tags, b, b', others)
  {
    forall d | d in others ensures PayloadKept(h, tags, b, b', d) {
      assert PayloadKept(h, tags1, b, b', d);
    }
  }

  lemma RunCutEnds(h: nat, tags: Tags, home: map<Address, Address>, areas: map<Address, nat>, lo: Address, r: Address)
    requires Tiled(h, tags, home, areas) && Coalesced(tags, home) && lo in home && r in LiveChunks(tags, home)
    requires End(tags, lo) == r && InUse(Word(tags, lo))
    ensures MergedStart(tags, r) == r && MergedEnd(tags, r) >= End(tags, r)
  {
    NextOf(h, tags, home, areas, lo);
    MergeRight(h, tags, home, areas, r);
  }

  lemma SplitBytes(h: nat, b: Bytes, lo: Address, size: nat, rest: nat, e: Address)
    requires rest >= MIN_ALLOC_SIZE && e >= lo + size + rest
    ensures RunBytes(h, b, Clobber(h, Clobber(h, CutBytes(h, b, lo, size, rest), lo + size), e), lo, size + rest, size)
  {
  }

  /** What the neighbours of a chunk in use look like from it. */
  lemma Neighbors(h: nat, tags: Tags, home: map<Address, Address>, areas: map<Address, nat>, c: Address)
    requires Tiled(h, tags, home, areas) && Coalesced(tags, home) && c in LiveChunks(tags, home)
    ensures var p, n := c - SizeOf(PrevWord(tags, c)), End(tags, c);
            && InUse(Word(tags, c)) && Size(tags, c) >= MIN_ALLOC_SIZE && c in tags
            && (InUse(Word(tags, p)) <==> MergedStart(tags, c) == c) && MergedStart(tags, c) <= c
            && (!InUse(Word(tags, p)) ==> p == MergedStart(tags, c) && Size(tags, p) == c - p && p in FreeChunks(tags, home) && p < c)
            && (InUse(Word(tags, n)) <==> MergedEnd(tags, c) == n) && n <= MergedEnd(tags, c)
            && (!InUse(Word(tags, n)) ==> MergedEnd(tags, c) == n + Size(tags, n) && n in FreeChunks(tags, home))
            && p != n
  {
    hide SizeOf;
    assert ChunkOk(tags, home, areas, c);
    assert SizeOf(CHUNK_IN_USE) == 0 by { OneIsEmpty(); }
    PrevOf(h, tags, home, areas, c);
    NextOf(h, tags, home, areas, c);
    MergeLeft(h, tags, home, areas, c);
    MergeRight(h, tags, home, areas, c);
    var n := End(tags, c);
    if n in home { assert ChunkOk(tags, home, areas, n); }
  }

  lemma OneIsEmpty()
    ensures SizeOf(CHUNK_IN_USE) == 0 && InUse(CHUNK_IN_USE)
  {
  }

  /** Writing the words of both parts of a cut makes no difference to having written the word of the whole before. */
  lemma CutAfterJoin(tags: Tags, c: Address, w: nat, w1: nat, w2: nat)
    requires SizeOf(w1) > 0 && SizeOf(w2) > 0 && SizeOf(w) == SizeOf(w1) + SizeOf(w2)
    ensures CutTags(PutWord(tags, c, w), c, w1, w2) == CutTags(tags, c, w1, w2)
  {
  }

  /** A chunk that neither fits nor can grow where it is. */
  ghost predicate MustMove(tags: Tags, c: Address, size: nat) {
    Size(tags, c) < size && MergedEnd(tags, c) - MergedStart(tags, c) < size
  }

  /** A chunk that grows by taking in the free chunk before it. */
  ghost predicate ShiftsBack(tags: Tags, c: Address, size: nat) {
    && Size(tags, c) < size && MergedEnd(tags, c) - c < size
    && MergedStart(tags, c) < c && MergedEnd(tags, c) - MergedStart(tags, c) >= size
  }

  /** The header of what is split off again lands in the old payload, before that is moved. */
  ghost predicate ClobbersPayload(h: nat, tags: Tags, c: Address, size: nat) {
    var lo := MergedStart(tags, c);
    && ShiftsBack(tags, c, size) && MergedEnd(tags, c) - lo - size >= MIN_ALLOC_SIZE
    && c - lo < size < End(tags, c) - lo && Size(tags, c) > h
  }

  /** Growing a 64-byte chunk to 80 bytes into a free chunk of 64 bytes before it is such a case. */
  lemma ClobberExample(h: nat)
    requires h == 16 || h == 32
    ensures var tags := map[1024 := Tag(1, 64), 1088 := Tag(64, 65), 1152 := Tag(65, 1)];
            var home, areas := map[1024 := 1024, 1088 := 1024], map[1024 := 128];
            Tiled(h, tags, home, areas) && Coalesced(tags, home) && 1088 in LiveChunks(tags, home)
            && ClobbersPayload(h, tags, 1088, 80)
  {
    hide Tiled;
    TwoChunks(h);
    var tags := map[1024 := Tag(1, 64), 1088 := Tag(64, 65), 1152 := Tag(65, 1)];
    assert MergedStart(tags, 1088) == 1024 && MergedEnd(tags, 1088) == 1152;
  }

  lemma TwoChunks(h: nat)
    requires h == 16 || h == 32
    ensures var tags := map[1024 := Tag(1, 64), 1088 := Tag(64, 65), 1152 := Tag(65, 1)];
            Tiled(h, tags, map[1024 := 1024, 1088 := 1024], map[1024 := 128])
  {
    var tags := map[1024 := Tag(1, 64), 1088 := Tag(64, 65), 1152 := Tag(65, 1)];
    var home, areas := map[1024 := 1024, 1088 := 1024], map[1024 := 128];
    assert Size(tags, 1024) == 64 && Size(tags, 1088) == 64 && End(tags, 1024) == 1088 && End(tags, 1088) == 1152;
    assert ChunksOk(tags, home, areas) by {
      assert ChunkOk(tags, home, areas, 1024) && ChunkOk(tags, home, areas, 1088);
    }
    assert AllApart(tags, home) by {
      forall c, d | c in home && d in home && c < d ensures Apart(tags, c, d) {}
    }
    assert AreasOk(tags, home, areas) by {
      forall a | a in areas ensures AreaOk(tags, home, areas, a) {}
    }
    assert AllSpaced(h, areas);
  }

  /** Blocks in use never overlap. */
  lemma BlocksDisjoint(h: nat, tags: Tags, home: map<Address, Address>, areas: map<Address, nat>, c: Address, d: Address, x: Address)
    requires Tiled(h, tags, home, areas) && c in LiveChunks(tags, home) && d in LiveChunks(tags, home)
    requires c + h <= x < End(tags, c) && d + h <= x < End(tags, d)
    ensures c == d
  {
    ApartOf(h, tags, home, areas, c, d);
  }

  ghost predicate SameAt(b: Bytes, p: Address, b': Bytes, p': Address, k: int) { SameByte(b, p + k, b', p' + k) }

  /** The first n bytes at p before are those at p' after. */
  ghost predicate SameContents(b: Bytes, p: Address, b': Bytes, p': Address, n: int) {
    forall k {:trigger SameAt(b, p, b', p', k)} :: 0 <= k < n ==> SameAt(b, p, b', p', k)
  }

  /** Some byte of the first n at p is lost. */
  ghost predicate LosesByte(b: Bytes, p: Address, n: int) {
    exists x :: p <= x < p + n && x !in b
  }

  lemma StayedContents(h: nat, b0: Bytes, b: Bytes, c: Address, newSize: nat, size: nat, oldSize: nat)
    requires RunBytes(h, b0, b, c, newSize, size) && size <= newSize && h <= oldSize
    ensures var final := if newSize - size >= MIN_ALLOC_SIZE then size else newSize;
            SameContents(b0, c + h, b, c + h, (if oldSize < final then oldSize else final) - h)
  {
    var final := if newSize - size >= MIN_ALLOC_SIZE then size else newSize;
    var n := (if oldSize < final then oldSize else final) - h;
    var p := c + h;
    forall k | 0 <= k < n ensures SameAt(b0, p, b, p, k) {
      assert p + k in b || p + k !in b;
    }
  }

  lemma ShiftedContents(h: nat, b0: Bytes, b1: Bytes, c: Address, lo: Address, newSize: nat, size: nat, oldSize: nat)
    requires RunBytes(h, b0, b1, lo, newSize, size) && lo < c && 0 < h <= oldSize < size <= newSize
    requires c + oldSize <= lo + newSize
    requires c - lo >= h && (size > c - lo ==> size >= c - lo + ALIGN)
    ensures var b := Moved(b1, c + h, lo + h, oldSize - h);
            if newSize - size >= MIN_ALLOC_SIZE && c - lo < size < c - lo + oldSize && oldSize > h
            then LosesByte(b, lo + h, oldSize - h)
            else SameContents(b0, c + h, b, lo + h, oldSize - h)
  {
    var n := oldSize - h;
    var b := Moved(b1, c + h, lo + h, n);
    if newSize - size >= MIN_ALLOC_SIZE && c - lo < size < c - lo + oldSize && n > 0 {
      var x := if lo + size > c + h then lo + size else c + h;
      assert x !in b1;
      MovedAt(b1, c + h, lo + h, n, x - c + lo);
      assert x - c + lo !in b;
    } else {
      var p, p' := c + h, lo + h;
      forall k | 0 <= k < n ensures SameAt(b0, p, b, p', k) {
        MovedAt(b1, p, p', n, p' + k);
        assert p + k in b1 || p + k !in b1;
      }
    }
  }

  lemma CopiedContents(h: nat, tags: Tags, b0: Bytes, b1: Bytes, c: Address, dst: Address, n: nat)
    requires PayloadKept(h, tags, b0, b1, c) && n == Size(tags, c) - h
    ensures SameContents(b0, c + h, Moved(b1, c + h, dst, n), dst, n)
  {
    var p := c + h;
    var b := Moved(b1, p, dst, n);
    forall k | 0 <= k < n ensures SameAt(b0, p, b, dst, k) {
      MovedAt(b1, p, dst, n, dst + k);
      assert p + k in b1 || p + k !in b1;
    }
  }

  lemma KeptContents(h: nat, tags: Tags, b0: Bytes, b1: Bytes, b2: Bytes, p: Address, c: Address, n: nat)
    requires SameContents(b0, p, b1, c + h, n) && PayloadKept(h, tags, b1, b2, c) && n <= Size(tags, c) - h
    ensures SameContents(b0, p, b2, c + h, n)
  {
    var p' := c + h;
    forall k | 0 <= k < n ensures SameAt(b0, p, b2, p', k) {
      assert SameAt(b0, p, b1, p', k);
      assert p' + k in b1 || p' + k !in b1;
    }
  }

  // ---- all areas as whole chunks ----

  ghost function AreasOf(h: nat, areas: map<Address, nat>, s: seq<Address>): map<Address, nat> {
    map a | a in areas && a - h in s :: areas[a]
  }

  ghost function OwnHomes(areas: map<Address, nat>): map<Address, Address> {
    map a | a in areas :: a
  }

  /** The areas of s are tiled by one free chunk each. */
  ghost predicate WholeChunks(h: nat, tags: Tags, areas: map<Address, nat>, s: seq<Address>) {
    var some := AreasOf(h, areas, s);
    && Tiled(h, tags, OwnHomes(some), some) && Coalesced(tags, OwnHomes(some))
    && some.Keys == FreeChunks(tags, OwnHomes(some))
    && forall a :: a in some ==> Size(tags, a) == some[a]
  }

  lemma EmptyTiling(h: nat, tags: Tags)
    ensures Tiled(h, tags, map[], map[]) && Coalesced(tags, map[])
  {
  }

  lemma NoAreaDone(h: nat, tags: Tags, areas: map<Address, nat>)
    ensures WholeChunks(h, tags, areas, []) && AreasOf(h, areas, []).Keys == {}
  {
    assert AreasOf(h, areas, []) == map[];
  }

  lemma WholeIsFree(h: nat, tags: Tags, areas: map<Address, nat>, s: seq<Address>)
    requires WholeChunks(h, tags, areas, s) && AreasOf(h, areas, s) == areas
    ensures var home := OwnHomes(areas);
            && Tiled(h, tags, home, areas) && Coalesced(tags, home) && LiveChunks(tags, home) == {}
            && home.Keys == areas.Keys == FreeChunks(tags, home)
    ensures forall a :: a in areas ==> Size(tags, a) == areas[a]
  {
    var home := OwnHomes(areas);
    assert home.Keys == areas.Keys;
    forall c | c in home ensures !Live(tags, c) { assert c in FreeChunks(tags, home); }
  }

  /** Resetting one more area keeps those reset before. */
  lemma ResetArea(h: nat, tags0: Tags, home0: map<Address, Address>, tags1: Tags, tags: Tags,
                  areas: map<Address, nat>, s: seq<Address>, area: Address)
    requires Tiled(h, tags0, home0, areas) && 0 < h <= MIN_ALLOC_SIZE && area + h in areas && area !in s
    requires WholeChunks(h, tags1, areas, s)
    requires var c, size := area + h, areas[area + h];
             tags == PutNeighbors(PutWord(tags1, c, size), c, size)
    ensures WholeChunks(h, tags, areas, s + [area])
    ensures AreasOf(h, areas, s + [area]) == AreasOf(h, areas, s)[area + h := areas[area + h]]
    ensures area + h !in AreasOf(h, areas, s) && area + h in tags
    ensures SameWords(tags1, tags, AreasOf(h, areas, s).Keys)
    ensures Size(tags, area + h) == areas[area + h] && Size(tags, area + h) % ALIGN == 0 && Size(tags, area + h) <= MAX_SIZE
  {
    hide PutWord, PutNeighbors, Coalesced, FreeChunks, SizeOf, InUse, Tiled, Disjoint, WholeArea, ChunkSize;
    var c, size := area + h, areas[area + h];
    var some, some' := AreasOf(h, areas, s), AreasOf(h, areas, s + [area]);
    ResetDisjoint(h, tags0, home0, areas, s, c);
    ResetTags(tags1, c, size);
    AddArea(h, tags1, tags, OwnHomes(some), some, c, size);
    assert some' == some[c := size];
    assert OwnHomes(some') == OwnHomes(some)[c := c];
    ResetSets(h, tags1, tags, some, c, size);
  }

  lemma ResetDisjoint(h: nat, tags0: Tags, home0: map<Address, Address>, areas: map<Address, nat>, s: seq<Address>, c: Address)
    requires Tiled(h, tags0, home0, areas) && c in areas && c - h !in s
    ensures ChunkSize(areas[c]) && areas[c] % ALIGN == 0 && areas[c] <= MAX_SIZE && c % ALIGN == 0
    ensures Disjoint(h, AreasOf(h, areas, s), c, areas[c])
  {
    assert AreaOk(tags0, home0, areas, c) && ChunkOk(tags0, home0, areas, c);
    var some := AreasOf(h, areas, s);
    forall b | b in some ensures (b < c && b + some[b] + 2 * h <= c) || (c < b && c + areas[c] + 2 * h <= b) {
      AreasApart(h, tags0, home0, areas, b, c);
    }
  }

  lemma ResetTags(tags1: Tags, c: Address, size: nat)
    requires ChunkSize(size)
    ensures var tags := PutNeighbors(PutWord(tags1, c, size), c, size);
            && WholeArea(tags, c, size) && Word(tags, c) == size && c in tags
            && (forall d :: d in tags1 && d != c && d != c + size ==> d in tags && tags[d] == tags1[d])
            && SizeOf(size) == size && !InUse(size) && InUse(CHUNK_IN_USE) && PrevWord(tags, c) == CHUNK_IN_USE
  {
    WordOfSize(size);
  }

  lemma ResetSets(h: nat, tags1: Tags, tags: Tags, some: map<Address, nat>, c: Address, size: nat)
    requires Tiled(h, tags1, OwnHomes(some), some) && Disjoint(h, some, c, size) && h > 0
    requires forall d :: d in tags1 && d != c && d != c + size ==> d in tags && tags[d] == tags1[d]
    requires Word(tags, c) == size && !InUse(size) && InUse(PrevWord(tags, c))
    requires Coalesced(tags1, OwnHomes(some)) && FreeChunks(tags1, OwnHomes(some)) == some.Keys
    ensures c !in some && SameWords(tags1, tags, some.Keys)
    ensures Coalesced(tags, OwnHomes(some)[c := c])
    ensures FreeChunks(tags, OwnHomes(some)[c := c]) == some.Keys + {c}
  {
    AddOutside(h, tags1, OwnHomes(some), some, c, size);
    forall a | a in some ensures a in tags1 && a != c && a != c + size {
      assert ChunkOk(tags1, OwnHomes(some), some, a);
    }
    assert forall a :: a in some ==> tags[a] == tags1[a];
    assert forall a :: a in some ==> a in FreeChunks(tags1, OwnHomes(some));
  }

  /** The headers of a new area: its tags in memory, its place among the areas, and no payload touched. */
  lemma NewAreaTiled(h: nat, tags: Tags, home: map<Address, Address>, areas: map<Address, nat>,
                     bytes: Bytes, grant: nat, size: nat)
    requires Tiled(h, tags, home, areas) && ALIGN <= h <= MIN_ALLOC_SIZE && h % ALIGN == 0
    requires ChunkSize(size) && size <= MAX_SIZE && FreshBlock(h, areas, grant, size)
    ensures var a := ChunkIn(h, grant);
            var tags' := PutWord(PutNeighbors(tags, a, size), a, size);
            && a > h && a !in home && a !in areas
            && WholeArea(tags', a, size) && Word(tags', a) == size
            && Tiled(h, tags', home[a := a], areas[a := size])
            && SameWords(tags, tags', home.Keys)
            && (Coalesced(tags, home) ==> Coalesced(tags', home[a := a]))
            && FreeChunks(tags', home[a := a]) == FreeChunks(tags, home) + {a}
            && LiveChunks(tags', home[a := a]) == LiveChunks(tags, home)
            && PayloadsKept(h, tags, bytes, Clobber(h, Clobber(h, bytes, a), a + size), home.Keys)
  {
    hide Tiled, PutWord, PutNeighbors, Coalesced, FreeChunks, LiveChunks, SameWords, WholeArea, PayloadsKept, Clobber;
    var a := ChunkIn(h, grant);
    FreshIsDisjoint(h, areas, grant, size);
    AddOutside(h, tags, home, areas, a, size);
    NewAreaTags(tags, a, size);
    var tags' := PutWord(PutNeighbors(tags, a, size), a, size);
    AddArea(h, tags, tags', home, areas, a, size);
    NewAreaSets(tags, tags', home, a, size);
    NewAreaPayloads(h, tags, home, areas, bytes, a, size);
  }

  lemma NewAreaTags(tags: Tags, a: Address, size: nat)
    requires ChunkSize(size)
    ensures var tags' := PutWord(PutNeighbors(tags, a, size), a, size);
            && WholeArea(tags', a, size) && Word(tags', a) == size
            && forall c :: c in tags && c != a && c != a + size ==> c in tags' && tags'[c] == tags[c]
  {
    WordOfSize(size);
  }

  lemma NewAreaSets(tags: Tags, tags': Tags, home: map<Address, Address>, a: Address, size: nat)
    requires WholeArea(tags', a, size) && Word(tags', a) == size && a !in home
    requires forall d :: d in home ==> d in tags && d in tags' && tags'[d] == tags[d]
    ensures FreeChunks(tags', home[a := a]) == FreeChunks(tags, home) + {a}
    ensures LiveChunks(tags', home[a := a]) == LiveChunks(tags, home)
    ensures SameWords(tags, tags', home.Keys)
    ensures Coalesced(tags, home) ==> Coalesced(tags', home[a := a])
  {
    assert !InUse(size);
  }

  lemma NewAreaPayloads(h: nat, tags: Tags, home: map<Address, Address>, areas: map<Address, nat>,
                        bytes: Bytes, a: Address, size: nat)
    requires Tiled(h, tags, home, areas) && h > 0 && Disjoint(h, areas, a, size)
    ensures PayloadsKept(h, tags, bytes, Clobber(h, Clobber(h, bytes, a), a + size), home.Keys)
  {
    forall d | d in home
      ensures PayloadKept(h, tags, bytes, Clobber(h, Clobber(h, bytes, a), a + size), d)
    {
      assert ChunkOk(tags, home, areas, d) && AreaOk(tags, home, areas, home[d]);
    }
  }

  // ---- the sound part of a pool, apart from an area that was ruined ----

  /** x lies in none of these areas, their sentinels included. */
  ghost predicate Outside(areas: map<Address, nat>, x: Address) {
    forall b :: b in areas ==> x < b || b + areas[b] < x
  }

  lemma OutsideFewer(fewer: map<Address, nat>, areas: map<Address, nat>, xs: set<Address>)
    requires forall b :: b in fewer ==> b in areas && fewer[b] == areas[b]
    requires forall x :: x in xs ==> Outside(areas, x)
    ensures forall x :: x in xs ==> Outside(fewer, x)
  {
  }

  ghost predicate SameOutside(tags: Tags, tags': Tags, areas: map<Address, nat>) {
    forall x :: Outside(areas, x) ==>
      Word(tags', x) == Word(tags, x) && PrevWord(tags', x) == PrevWord(tags, x) && (x in tags ==> x in tags')
  }

  ghost predicate SameInside(tags: Tags, tags': Tags, areas: map<Address, nat>) {
    forall x {:trigger Outside(areas, x)} :: x in tags && !Outside(areas, x) ==> x in tags' && tags'[x] == tags[x]
  }

  lemma NotOutside(tags: Tags, home: map<Address, Address>, areas: map<Address, nat>, c: Address)
    requires ChunksOk(tags, home, areas) && c in home
    ensures c in tags && !Outside(areas, c) && End(tags, c) in tags && !Outside(areas, End(tags, c))
  {
    assert ChunkOk(tags, home, areas, c);
    var b := home[c];
    assert b in areas && b <= c <= End(tags, c) <= b + areas[b];
  }

  /** A tiling depends on the tags in its areas only. */
  lemma TiledElsewhere(h: nat, tags: Tags, tags': Tags, home: map<Address, Address>, areas: map<Address, nat>)
    requires Tiled(h, tags, home, areas) && SameInside(tags, tags', areas)
    ensures Tiled(h, tags', home, areas)
    ensures Coalesced(tags, home) ==> Coalesced(tags', home)
    ensures FreeChunks(tags', home) == FreeChunks(tags, home) && LiveChunks(tags', home) == LiveChunks(tags, home)
    ensures SameWords(tags, tags', home.Keys)
  {
    hide Outside, ChunkOk, AreaOk, SameInside, Coalesced, FreeChunks, LiveChunks, SameWords;
    forall d | d in home ensures d in tags && d in tags' && tags'[d] == tags[d] {
      ElsewhereTag(tags, tags', home, areas, d);
    }
    SameTags(tags, tags', home);
    assert ChunksOk(tags', home, areas) by {
      forall d | d in home ensures ChunkOk(tags', home, areas, d) { ElsewhereChunk(tags, tags', home, areas, d); }
    }
    assert AllApart(tags', home) by {
      forall c, d | c in home && d in home && c < d ensures Apart(tags', c, d) { assert Apart(tags, c, d); }
    }
    assert AreasOk(tags', home, areas) by {
      forall a | a in areas ensures AreaOk(tags', home, areas, a) { ElsewhereArea(tags, tags', home, areas, a); }
    }
  }

  lemma ElsewhereTag(tags: Tags, tags': Tags, home: map<Address, Address>, areas: map<Address, nat>, d: Address)
    requires ChunksOk(tags, home, areas) && SameInside(tags, tags', areas) && d in home
    ensures d in tags && d in tags' && tags'[d] == tags[d]
  {
    hide Outside;
    NotOutside(tags, home, areas, d);
  }

  lemma SameTags(tags: Tags, tags': Tags, home: map<Address, Address>)
    requires forall d :: d in home ==> d in tags && d in tags' && tags'[d] == tags[d]
    ensures Coalesced(tags, home) ==> Coalesced(tags', home)
    ensures FreeChunks(tags', home) == FreeChunks(tags, home) && LiveChunks(tags', home) == LiveChunks(tags, home)
    ensures SameWords(tags, tags', home.Keys)
  {
  }

  lemma ElsewhereChunk(tags: Tags, tags': Tags, home: map<Address, Address>, areas: map<Address, nat>, d: Address)
    requires ChunksOk(tags, home, areas) && SameInside(tags, tags', areas) && d in home
    ensures ChunkOk(tags', home, areas, d)
  {
    hide Outside;
    assert ChunkOk(tags, home, areas, d);
    NotOutside(tags, home, areas, d);
    if d != home[d] {
      var p := d - SizeOf(tags[d].prevWord);
      NotOutside(tags, home, areas, p);
    }
  }

  lemma ElsewhereArea(tags: Tags, tags': Tags, home: map<Address, Address>, areas: map<Address, nat>, a: Address)
    requires AreasOk(tags, home, areas) && SameInside(tags, tags', areas) && a in areas
    ensures AreaOk(tags', home, areas, a)
  {
    assert AreaOk(tags, home, areas, a);
    assert !Outside(areas, a) && !Outside(areas, a + areas[a]);
  }

  /** What freeing a chunk does to all that is outside of the sound areas: nothing. */
  lemma PartStep(h: nat, tags: Tags, home: map<Address, Address>, areas: map<Address, nat>, bytes: Bytes, c: Address,
                 strays: set<Address>)
    requires Tiled(h, tags, home, areas) && Coalesced(tags, home) && h <= MIN_ALLOC_SIZE
    requires c in LiveChunks(tags, home) && forall s :: s in strays ==> Outside(areas, s)
    ensures strays !! home.Keys
    ensures var lo, hi := MergedStart(tags, c), MergedEnd(tags, c);
            var tags' := PutWord(tags, lo, hi - lo);
            && SameOutside(tags, tags', areas)
            && SameWords(tags, tags', FreeChunks(tags, home) - Merging(tags, c) + strays)
            && lo !in FreeChunks(tags, home) - Merging(tags, c) + strays
  {
    hide Tiled, Coalesced, Joined, FreeChunks, LiveChunks, MergedStart, MergedEnd, Merging, PayloadsKept, Clobber,
      InUse, SizeOf, ChunkOk;
    FreeStep(h, tags, home, areas, bytes, c);
    MergedRun(h, tags, home, areas, c);
    TiledChunks(h, tags, home, areas);
    forall d | d in home ensures !Outside(areas, d) { NotOutside(tags, home, areas, d); }
    assert forall s :: s in strays ==> s !in home;
  }

  lemma FreeIsHome(tags: Tags, home: map<Address, Address>)
    ensures FreeChunks(tags, home) <= home.Keys
  {
  }

  lemma TiledChunks(h: nat, tags: Tags, home: map<Address, Address>, areas: map<Address, nat>)
    requires Tiled(h, tags, home, areas)
    ensures ChunksOk(tags, home, areas)
  {
  }

  /** The headers that a split with too short a rest writes. */
  ghost function RuinBytes(h: nat, bytes: Bytes, c: Address, size: nat, rest: nat): Bytes {
    var r := c + size;
    Clobber(h, Clobber(h, Clobber(h, Clobber(h, bytes, r), r + rest), c), r)
  }

  /** Such a split ruins the area, and nothing else. */
  lemma RuinStep(h: nat, tags: Tags, home: map<Address, Address>, areas: map<Address, nat>, bytes: Bytes, c: Address,
                 size: nat, rest: nat)
    requires Tiled(h, tags, home, areas) && Coalesced(tags, home) && c in FreeChunks(tags, home) && h > 0
    requires c in areas && Size(tags, c) == areas[c] && Disjoint(h, areas - {c}, c, areas[c])
    requires ChunkSize(size) && rest % ALIGN == 0 && rest < MIN_ALLOC_SIZE && size + rest == areas[c]
    ensures var tags' := CutTags(tags, c, size + CHUNK_IN_USE, rest);
            var home', areas' := home - {c}, areas - {c};
            && Tiled(h, tags', home', areas') && Coalesced(tags', home')
            && FreeChunks(tags', home') == FreeChunks(tags, home) - {c}
            && LiveChunks(tags', home') == LiveChunks(tags, home)
            && SameWords(tags, tags', LiveChunks(tags, home))
            && Outside(areas', c + size) && Ruined(tags', c, areas[c]) && Word(tags', c) == size + CHUNK_IN_USE
            && PayloadsKept(h, tags, bytes, RuinBytes(h, bytes, c, size, rest), LiveChunks(tags, home))
  {
    hide Tiled, Coalesced, CutTags, PayloadsKept, RuinBytes, SameWords, SameInside, Ruined, Size, Clobber;
    var tags', home', areas' := CutTags(tags, c, size + CHUNK_IN_USE, rest), home - {c}, areas - {c};
    RemoveArea(h, tags, home, areas, c);
    ShortTail(h, tags, home, areas, c, size, rest, home, areas);
    RuinTags(h, tags, areas', c, size, rest);
    WithoutFree(tags, home, c);
    TiledElsewhere(h, tags, tags', home', areas');
    KeptForFewer(h, tags, tags', bytes, bytes, home'.Keys, LiveChunks(tags, home));
    RuinPayloads(h, tags, home', areas', bytes, c, size, rest);
    KeptForFewer(h, tags, tags', bytes, RuinBytes(h, bytes, c, size, rest), home'.Keys, LiveChunks(tags, home));
  }

  lemma WithoutFree(tags: Tags, home: map<Address, Address>, c: Address)
    requires c in FreeChunks(tags, home)
    ensures FreeChunks(tags, home - {c}) == FreeChunks(tags, home) - {c}
    ensures LiveChunks(tags, home - {c}) == LiveChunks(tags, home) <= (home - {c}).Keys
    ensures Coalesced(tags, home) ==> Coalesced(tags, home - {c})
  {
  }

  lemma RuinTags(h: nat, tags: Tags, areas: map<Address, nat>, c: Address, size: nat, rest: nat)
    requires h > 0 && ChunkSize(size) && rest % ALIGN == 0 && Disjoint(h, areas, c, size + rest)
    ensures var tags' := CutTags(tags, c, size + CHUNK_IN_USE, rest);
            SameInside(tags, tags', areas) && Word(tags', c) == size + CHUNK_IN_USE
    ensures Outside(areas, c) && Outside(areas, c + size) && Outside(areas, c + size + rest)
  {
    WordOfSize(size);
    WordOfSize(rest);
  }

  lemma RuinPayloads(h: nat, tags: Tags, home: map<Address, Address>, areas: map<Address, nat>, bytes: Bytes, c: Address,
                     size: nat, rest: nat)
    requires Tiled(h, tags, home, areas) && h > 0 && Disjoint(h, areas, c, size + rest)
    ensures PayloadsKept(h, tags, bytes, RuinBytes(h, bytes, c, size, rest), home.Keys)
  {
    forall d | d in home
      ensures PayloadKept(h, tags, bytes, RuinBytes(h, bytes, c, size, rest), d)
    {
      assert ChunkOk(tags, home, areas, d) && AreaOk(tags, home, areas, home[d]);
    }
  }

  /** Copying a payload out of the sound areas. */
  lemma CopyOutside(h: nat, tags0: Tags, tags1: Tags, home: map<Address, Address>, areas: map<Address, nat>,
                    b0: Bytes, b1: Bytes, c: Address, c': Address, size: nat, n: nat)
    requires Tiled(h, tags1, home, areas) && c in LiveChunks(tags1, home) && Disjoint(h, areas, c', size)
    requires var live := LiveChunks(tags1, home); SameWords(tags0, tags1, live) && PayloadsKept(h, tags0, b0, b1, live)
    requires n + h == Size(tags0, c) <= size
    ensures var b2 := Moved(b1, c + h, c' + h, n);
            && PayloadsKept(h, tags0, b0, b2, LiveChunks(tags1, home))
            && SameContents(b0, c + h, b2, c' + h, n)
  {
    var b2, live := Moved(b1, c + h, c' + h, n), LiveChunks(tags1, home);
    assert PayloadKept(h, tags0, b0, b1, c);
    CopiedContents(h, tags0, b0, b1, c, c' + h, n);
    forall d | d in live ensures PayloadKept(h, tags1, b1, b2, d) {
      MovedElsewhere(h, tags1, home, areas, b1, c + h, c', size, n, d);
    }
    KeptTwice(h, tags0, tags1, b0, b1, b2, live);
  }

  lemma MovedElsewhere(h: nat, tags: Tags, home: map<Address, Address>, areas: map<Address, nat>, bytes: Bytes,
                       src: Address, c': Address, size: nat, n: nat, d: Address)
    requires Tiled(h, tags, home, areas) && d in home && Disjoint(h, areas, c', size) && n + h <= size
    ensures PayloadKept(h, tags, bytes, Moved(bytes, src, c' + h, n), d)
  {
    hide Moved;
    assert ChunkOk(tags, home, areas, d);
    var b' := Moved(bytes, src, c' + h, n);
    forall x | d + h <= x < End(tags, d) ensures (x in bytes <==> x in b') && (x in bytes ==> bytes[x] == b'[x]) {
      MovedAt(bytes, src, c' + h, n, x);
    }
  }

  /** Freeing a chunk of the sound areas leaves what was copied out of them. */
  lemma CopyStays(h: nat, tags: Tags, home: map<Address, Address>, areas: map<Address, nat>, b0: Bytes, b: Bytes,
                  p: Address, c: Address, c': Address, size: nat, n: nat)
    requires Tiled(h, tags, home, areas) && Coalesced(tags, home) && c in LiveChunks(tags, home)
    requires Disjoint(h, areas, c', size) && n + h <= size && SameContents(b0, p, b, c' + h, n)
    ensures var lo, hi := MergedStart(tags, c), MergedEnd(tags, c);
            SameContents(b0, p, Clobber(h, Clobber(h, b, lo), hi), c' + h, n)
  {
    var lo, hi := MergedStart(tags, c), MergedEnd(tags, c);
    var b' := Clobber(h, Clobber(h, b, lo), hi);
    hide Tiled, Coalesced, MergedStart, MergedEnd, LiveChunks;
    MergedRun(h, tags, home, areas, c);
    ChunkInArea(h, tags, home, areas, lo);
    var p' := c' + h;
    forall k | 0 <= k < n ensures SameAt(b0, p, b', p', k) {
      assert SameAt(b0, p, b, p', k);
    }
  }

  /** What changes in the sound areas, or goes away with one of them, does not mend the ruined one. */
  lemma RuinStays(h: nat, tags: Tags, tags': Tags, areas: map<Address, nat>, areas': map<Address, nat>, c: Address,
                  size: nat)
    requires h > 0 && c in areas && Disjoint(h, areas - {c}, c, size) && SameOutside(tags, tags', areas - {c})
    requires c in areas' && forall b :: b in areas' ==> b in areas && areas'[b] == areas[b]
    ensures Ruined(tags, c, size) ==> Ruined(tags', c, size)
    ensures Word(tags', c) == Word(tags, c) && Disjoint(h, areas' - {c}, c, size)
  {
    assert Outside(areas - {c}, c) && Outside(areas - {c}, c + size);
    assert forall b :: b in areas' - {c} ==> b in areas - {c} && (areas' - {c})[b] == (areas - {c})[b];
  }

  /** A chunk of an area is the only live one in it just when all other live chunks lie outside of the area. */
  lemma LeftInArea(h: nat, tags0: Tags, home0: map<Address, Address>, areas0: map<Address, nat>,
                   tags: Tags, home: map<Address, Address>, areas: map<Address, nat>, c: Address)
    requires Tiled(h, tags0, home0, areas0) && c in home0
    requires Tiled(h, tags, home, areas) && c in LiveChunks(tags, home)
    requires home0[c] in areas0 && home0[c] in areas && areas[home0[c]] == areas0[home0[c]]
    ensures c in home && home[c] == home0[c]
    ensures OnlyLive(tags, home, c)
            <==> forall d :: d in LiveChunks(tags, home) - {c} ==> d < home[c] || home[c] + areas[home[c]] <= d
  {
    hide Tiled, ChunkOk;
    var a, live := home0[c], LiveChunks(tags, home);
    ChunkInArea(h, tags0, home0, areas0, c);
    SameArea(h, tags, home, areas, a, c);
    forall d | d in live ensures home[d] == a <==> a <= d < a + areas[a] {
      ChunkInArea(h, tags, home, areas, d);
      if a <= d < a + areas[a] { SameArea(h, tags, home, areas, a, d); }
    }
    assert forall d :: d in live - {c} <==> d in live && d != c;
  }

  lemma ChunkInArea(h: nat, tags: Tags, home: map<Address, Address>, areas: map<Address, nat>, c: Address)
    requires Tiled(h, tags, home, areas) && c in home
    ensures home[c] in areas && home[c] <= c < home[c] + areas[home[c]]
  {
    assert ChunkOk(tags, home, areas, c);
  }

  lemma ChunkOfLive(tags: Tags, home: map<Address, Address>, c: Address)
    requires c in LiveChunks(tags, home)
    ensures c in home
  {
  }

  lemma NeverShrinks(h: nat, tags: Tags, home: map<Address, Address>, areas: map<Address, nat>, c: Address)
    requires Tiled(h, tags, home, areas) && Coalesced(tags, home) && c in LiveChunks(tags, home)
    ensures End(tags, c) <= MergedEnd(tags, c) && MergedStart(tags, c) <= c
  {
    MergeLeft(h, tags, home, areas, c);
    MergeRight(h, tags, home, areas, c);
  }

  lemma ShiftDistance(h: nat, tags: Tags, home: map<Address, Address>, areas: map<Address, nat>, c: Address, size: nat)
    requires Tiled(h, tags, home, areas) && Coalesced(tags, home) && c in LiveChunks(tags, home) && ChunkSize(size)
    requires MergedStart(tags, c) < c && h <= MIN_ALLOC_SIZE
    ensures var d := c - MergedStart(tags, c);
            && d >= h && (size > d ==> size >= d + ALIGN) && h <= Size(tags, c) && End(tags, c) <= MergedEnd(tags, c)
            && MergedStart(tags, c) !in LiveChunks(tags, home)
  {
    hide SizeOf, InUse;
    MergeLeft(h, tags, home, areas, c);
    MergeRight(h, tags, home, areas, c);
    assert ChunkOk(tags, home, areas, c) && ChunkOk(tags, home, areas, MergedStart(tags, c));
  }

  lemma ShiftKeeps(h: nat, tags0: Tags, tags: Tags, home: map<Address, Address>, areas: map<Address, nat>,
                   b0: Bytes, b1: Bytes, c: Address, src: Address, n: nat, others: set<Address>)
    requires Tiled(h, tags, home, areas) && LiveChunks(tags, home) == others + {c} && c !in others && h + n <= Size(tags, c)
    requires SameWords(tags0, tags, others) && PayloadsKept(h, tags0, b0, b1, others)
    ensures PayloadsKept(h, tags0, b0, Moved(b1, src, c + h, n), others)
  {
    MoveKeeps(h, tags, home, areas, b1, c, src, n, others);
    KeptTwice(h, tags0, tags, b0, b1, Moved(b1, src, c + h, n), others);
  }

  /** Copying into a newly allocated chunk. */
  lemma CopyKeeps(h: nat, tags0: Tags, tags1: Tags, home: map<Address, Address>, areas: map<Address, nat>,
                  b0: Bytes, b1: Bytes, live0: set<Address>, c: Address, c': Address, n: nat)
    requires Tiled(h, tags1, home, areas) && LiveChunks(tags1, home) == live0 + {c'} && c' !in live0 && c in live0
    requires SameWords(tags0, tags1, live0) && PayloadsKept(h, tags0, b0, b1, live0)
    requires n + h == Size(tags0, c) && h + n <= Size(tags1, c')
    ensures var b2 := Moved(b1, c + h, c' + h, n);
            PayloadsKept(h, tags0, b0, b2, live0) && SameContents(b0, c + h, b2, c' + h, n)
    ensures c in home
  {
    ShiftKeeps(h, tags0, tags1, home, areas, b0, b1, c', c + h, n, live0);
    assert PayloadKept(h, tags0, b0, b1, c);
    CopiedContents(h, tags0, b0, b1, c, c' + h, n);
    assert c in LiveChunks(tags1, home);
  }

  /** Freeing the old chunk after the copy. */
  lemma MoveDone(h: nat, tags0: Tags, tags1: Tags, tags: Tags, b0: Bytes, b1: Bytes, b2: Bytes, b: Bytes,
                 live0: set<Address>, c: Address, c': Address, n: nat)
    requires SameWords(tags0, tags1, live0) && PayloadsKept(h, tags0, b0, b2, live0) && c' !in live0 && c in live0
    requires SameContents(b0, c + h, b2, c' + h, n) && n + h <= Size(tags1, c')
    requires SameWords(tags1, tags, live0 + {c'} - {c}) && PayloadsKept(h, tags1, b2, b, live0 + {c'} - {c})
    ensures SameWords(tags0, tags, live0 - {c}) && PayloadsKept(h, tags0, b0, b, live0 - {c})
    ensures SameContents(b0, c + h, b, c' + h, n) && Size(tags, c') == Size(tags1, c')
  {
    var live1 := live0 + {c'} - {c};
    assert c' in live1;
    assert PayloadKept(h, tags1, b2, b, c');
    KeptContents(h, tags1, b0, b2, b, c + h, c', n);
    KeptForFewer(h, tags0, tags1, b0, b2, live0, live0 - {c});
    KeptForFewer(h, tags1, tags, b2, b, live1, live0 - {c});
    KeptTwice(h, tags0, tags1, b0, b2, b, live0 - {c});
  }

  lemma SplitDone(h: nat, tags0: Tags, tags1: Tags, tags: Tags, b0: Bytes, b1: Bytes, b: Bytes,
                  others: set<Address>, lo: Address, live: set<Address>)
    requires SameWords(tags0, tags1, others) && PayloadsKept(h, tags0, b0, b1, others) && live == others + {lo}
    requires SameWords(tags1, tags, live) && PayloadsKept(h, tags1, b1, b, live)
    ensures SameWords(tags0, tags, others) && PayloadsKept(h, tags0, b0, b, others)
    ensures Size(tags, lo) == Size(tags1, lo)
  {
    KeptForFewer(h, tags1, tags, b1, b, live, others);
    KeptTwice(h, tags0, tags1, b0, b1, b, others);
    assert lo in live;
  }

  lemma WholeRunBytes(h: nat, b: Bytes, lo: Address, newSize: nat, size: nat)
    requires size <= newSize < size + MIN_ALLOC_SIZE
    ensures RunBytes(h, b, Clobber(h, Clobber(h, b, lo), lo + newSize), lo, newSize, size)
  {
  }
}
