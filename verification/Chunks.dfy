/**
  Chunk headers and their boundary tags: how areas are tiled by chunks, and what cutting and joining
  chunks does to the tiling.
 */
module Chunks {
  import opened Rings

  const ALIGN: nat := 16
  const MIN_ALLOC_SIZE: nat := 2 * ALIGN
  /** The word of a neighbour that never merges: in use, and of size 0. */
  const CHUNK_IN_USE: nat := 1
  /** The allocator compares sizes through a 32-bit signed cast. */
  const MAX_SIZE: int := 0x7FFF_FF00

  /** mPrevSize and mSize of a chunk header; the low bit of each word is the in-use flag. */
  datatype Tag = Tag(prevWord: nat, word: nat)

  type Tags = map<Address, Tag>

  function SizeOf(word: nat): nat { word - word % 2 }

  predicate InUse(word: nat) { word % 2 == 1 }

  function Word(tags: Tags, c: Address): nat {
    if c in tags then tags[c].word else 0
  }

  function PrevWord(tags: Tags, c: Address): nat {
    if c in tags then tags[c].prevWord else 0
  }

  /** Size() of the chunk at c. */
  function Size(tags: Tags, c: Address): nat { SizeOf(Word(tags, c)) }

  /** NextChunk() of the chunk at c. */
  function End(tags: Tags, c: Address): Address { c + Size(tags, c) }

  predicate Live(tags: Tags, c: Address) { InUse(Word(tags, c)) }

  /** `mSize = ChunkAtOffset(size)->mPrevSize = word`, for a word that holds that size. */
  function PutWord(tags: Tags, c: Address, word: nat): (tags': Tags)
  {
    var e := c + SizeOf(word);
    var t1 := tags[e := Tag(word, Word(tags, e))];
    t1[c := Tag(PrevWord(t1, c), word)]
  }

  /** SetNeighborsInUse(size) */
  function PutNeighbors(tags: Tags, c: Address, size: nat): (tags': Tags)
  {
    var t1 := tags[c + size := Tag(PrevWord(tags, c + size), CHUNK_IN_USE)];
    t1[c := Tag(CHUNK_IN_USE, Word(t1, c))]
  }

  /** A size that a chunk may have. */
  predicate ChunkSize(s: nat) { s >= MIN_ALLOC_SIZE && s % ALIGN == 0 }

  /** A size by itself is the word of a free chunk, and with the flag added that of a chunk in use. */
  lemma WordOfSize(s: nat)
    requires s % ALIGN == 0
    ensures SizeOf(s) == s && !InUse(s) && SizeOf(s + CHUNK_IN_USE) == s && InUse(s + CHUNK_IN_USE)
  {
    assert s == 2 * (ALIGN / 2 * (s / ALIGN));
    EvenWord(ALIGN / 2 * (s / ALIGN));
  }

  lemma EvenWord(k: nat)
    ensures SizeOf(2 * k) == SizeOf(2 * k + CHUNK_IN_USE) == 2 * k && !InUse(2 * k) && InUse(2 * k + CHUNK_IN_USE)
  {
  }

  /**
    The tiling of a set of areas. `areas` gives the size of each area by the address of its first chunk;
    `home` gives, for the address of each chunk, the area it is in; h is the size of a chunk header,
    which is also the size of an area header.
   */
  ghost predicate Tiled(h: nat, tags: Tags, home: map<Address, Address>, areas: map<Address, nat>) {
    && ChunksOk(tags, home, areas)
    && AllApart(tags, home)
    && AreasOk(tags, home, areas)
    && AllSpaced(h, areas)
  }

  ghost predicate ChunksOk(tags: Tags, home: map<Address, Address>, areas: map<Address, nat>) {
    forall c {:trigger ChunkOk(tags, home, areas, c)} :: c in home ==> ChunkOk(tags, home, areas, c)
  }

  ghost predicate AllApart(tags: Tags, home: map<Address, Address>) {
    forall c, d {:trigger Apart(tags, c, d)} :: c in home && d in home && c < d ==> Apart(tags, c, d)
  }

  ghost predicate AreasOk(tags: Tags, home: map<Address, Address>, areas: map<Address, nat>) {
    forall a {:trigger AreaOk(tags, home, areas, a)} :: a in areas ==> AreaOk(tags, home, areas, a)
  }

  ghost predicate AllSpaced(h: nat, areas: map<Address, nat>) {
    forall a, b {:trigger Spaced(h, areas, a, b)} :: a in areas && b in areas && a < b ==> Spaced(h, areas, a, b)
  }

  /** Chunk c, which starts below d, ends before it. */
  ghost predicate Apart(tags: Tags, c: Address, d: Address) { End(tags, c) <= d }

  /** Between an area and a later one there is room for a sentinel and an area header. */
  ghost predicate Spaced(h: nat, areas: map<Address, nat>, a: Address, b: Address)
    requires a in areas
  {
    a + areas[a] + 2 * h <= b
  }

  ghost predicate ChunkOk(tags: Tags, home: map<Address, Address>, areas: map<Address, nat>, c: Address)
    requires c in home
  {
    // a proper aligned chunk, within its area
    && c in tags && ChunkSize(Size(tags, c)) && c % ALIGN == 0
    && home[c] in areas && home[c] <= c && End(tags, c) <= home[c] + areas[home[c]]
    // followed by another chunk or by the sentinel of its area, which repeats its size word
    && (End(tags, c) == home[c] + areas[home[c]] || End(tags, c) in home)
    && End(tags, c) in tags && tags[End(tags, c)].prevWord == tags[c].word
    // and preceded by another chunk, unless it is the first of its area
    && (c != home[c] ==> PrevOk(tags, home, c))
  }

  ghost predicate PrevOk(tags: Tags, home: map<Address, Address>, c: Address)
    requires c in tags
  {
    var p := c - SizeOf(tags[c].prevWord);
    p in home && End(tags, p) == c
  }

  ghost predicate AreaOk(tags: Tags, home: map<Address, Address>, areas: map<Address, nat>, a: Address)
    requires a in areas
  {
    && a in home && home[a] == a && ChunkSize(areas[a]) && areas[a] <= MAX_SIZE
    && a in tags && tags[a].prevWord == CHUNK_IN_USE
    && a + areas[a] in tags && tags[a + areas[a]].word == CHUNK_IN_USE
  }

  /** No two neighbouring chunks are both free. */
  ghost predicate Coalesced(tags: Tags, home: map<Address, Address>) {
    forall c :: c in home ==> Live(tags, c) || InUse(PrevWord(tags, c))
  }

  ghost function FreeChunks(tags: Tags, home: map<Address, Address>): set<Address> {
    set c | c in home && !Live(tags, c)
  }

  ghost function LiveChunks(tags: Tags, home: map<Address, Address>): set<Address> {
    set c | c in home && Live(tags, c)
  }

  /** The words of these chunks are the same before and after. */
  ghost predicate SameWords(tags: Tags, tags': Tags, chunks: set<Address>) {
    forall d :: d in chunks ==> Word(tags', d) == Word(tags, d) && (d in tags ==> d in tags')
  }

  // ---- consequences of a tiling ----

  /** A chunk address that lies within an area, its end included, belongs to that area and is not the end. */
  lemma SameArea(h: nat, tags: Tags, home: map<Address, Address>, areas: map<Address, nat>, a: Address, n: Address)
    requires Tiled(h, tags, home, areas) && a in areas && n in home
    requires a <= n <= a + areas[a]
    ensures home[n] == a && n < a + areas[a]
  {
    assert ChunkOk(tags, home, areas, n) && AreaOk(tags, home, areas, a);
    var b := home[n];
    assert AreaOk(tags, home, areas, b);
    AreasApart(h, tags, home, areas, a, b);
  }

  lemma AreasApart(h: nat, tags: Tags, home: map<Address, Address>, areas: map<Address, nat>, a: Address, b: Address)
    requires Tiled(h, tags, home, areas)
    ensures a in areas && b in areas && a < b ==> a + areas[a] + 2 * h <= b
    ensures a in areas && b in areas && b < a ==> b + areas[b] + 2 * h <= a
  {
    assert a in areas && b in areas && a < b ==> Spaced(h, areas, a, b);
    assert a in areas && b in areas && b < a ==> Spaced(h, areas, b, a);
  }

  /** Of two chunks, the lower one ends before the other. */
  lemma ApartOf(h: nat, tags: Tags, home: map<Address, Address>, areas: map<Address, nat>, c: Address, d: Address)
    requires Tiled(h, tags, home, areas)
    ensures c in home && d in home && c < d ==> End(tags, c) <= d
    ensures c in home && d in home && d < c ==> End(tags, d) <= c
  {
    assert c in home && d in home && c < d ==> Apart(tags, c, d);
    assert c in home && d in home && d < c ==> Apart(tags, d, c);
  }

  /** What follows a chunk: another chunk of the same area, or the sentinel at its end. */
  lemma NextOf(h: nat, tags: Tags, home: map<Address, Address>, areas: map<Address, nat>, c: Address)
    requires Tiled(h, tags, home, areas) && c in home
    ensures c in tags && home[c] in areas && c < End(tags, c)
    ensures var n := End(tags, c);
            && n in tags && PrevWord(tags, n) == Word(tags, c)
            && (n == home[c] + areas[home[c]] ==> n !in home && Word(tags, n) == CHUNK_IN_USE)
            && (n != home[c] + areas[home[c]] ==> n in home && home[n] == home[c])
  {
    assert ChunkOk(tags, home, areas, c);
    var n, a := End(tags, c), home[c];
    assert AreaOk(tags, home, areas, a);
    if n in home {
      SameArea(h, tags, home, areas, a, n);
    }
  }

  /** What precedes a chunk: nothing if it is the first of its area, else the chunk its tag points back to. */
  lemma PrevOf(h: nat, tags: Tags, home: map<Address, Address>, areas: map<Address, nat>, c: Address)
    requires Tiled(h, tags, home, areas) && c in home
    ensures c in tags && home[c] in home && home[c] <= c
    ensures c == home[c] ==> tags[c].prevWord == CHUNK_IN_USE
    ensures c != home[c] ==>
      var p := c - SizeOf(tags[c].prevWord);
      p in home && p < c && home[p] == home[c] && End(tags, p) == c && tags[c].prevWord == Word(tags, p)
  {
    assert ChunkOk(tags, home, areas, c);
    assert AreaOk(tags, home, areas, home[c]);
    if c != home[c] {
      assert PrevOk(tags, home, c);
      NextOf(h, tags, home, areas, c - SizeOf(tags[c].prevWord));
    }
  }

  // ---- joining and cutting ----

  /** The chunk map after one chunk [c, e) takes the place of all chunks starting in it. */
  ghost function Joined(home: map<Address, Address>, c: Address, e: Address): map<Address, Address> {
    map d | d in home && !(c < d < e) :: home[d]
  }

  /** e is a boundary of the area of c, above c. */
  ghost predicate Boundary(home: map<Address, Address>, areas: map<Address, nat>, c: Address, e: Address)
    requires c in home
  {
    home[c] in areas && c < e <= home[c] + areas[home[c]] && (e == home[c] + areas[home[c]] || e in home)
  }

  lemma BoundaryFacts(h: nat, tags: Tags, home: map<Address, Address>, areas: map<Address, nat>, c: Address, e: Address)
    requires Tiled(h, tags, home, areas) && c in home && Boundary(home, areas, c, e)
    ensures e in tags && ChunkSize(e - c) && End(tags, c) <= e
    ensures e in home ==> home[e] == home[c] && e != home[c] + areas[home[c]]
  {
    hide ChunkOk, AreaOk, ChunkSize, Size;
    BoundaryAligned(h, tags, home, areas, c, e);
    if e in home {
      assert Apart(tags, c, e);
      ChunkStarts(h, tags, home, areas, c);
      SameArea(h, tags, home, areas, home[c], e);
    }
    BoundaryDistance(tags, c, e);
  }

  lemma ChunkStarts(h: nat, tags: Tags, home: map<Address, Address>, areas: map<Address, nat>, c: Address)
    requires Tiled(h, tags, home, areas) && c in home
    ensures c in tags && c % ALIGN == 0 && ChunkSize(Size(tags, c)) && home[c] <= c && home[c] in areas
    ensures End(tags, c) <= home[c] + areas[home[c]]
  {
    assert ChunkOk(tags, home, areas, c);
  }

  lemma BoundaryAligned(h: nat, tags: Tags, home: map<Address, Address>, areas: map<Address, nat>, c: Address, e: Address)
    requires Tiled(h, tags, home, areas) && c in home && Boundary(home, areas, c, e)
    ensures e in tags && e % ALIGN == 0 && c % ALIGN == 0 && End(tags, c) <= e && ChunkSize(Size(tags, c))
  {
    ChunkStarts(h, tags, home, areas, c);
    if e in home {
      ChunkStarts(h, tags, home, areas, e);
      assert Apart(tags, c, e);
    } else {
      AreaEnd(h, tags, home, areas, home[c]);
    }
  }

  lemma AreaEnd(h: nat, tags: Tags, home: map<Address, Address>, areas: map<Address, nat>, a: Address)
    requires Tiled(h, tags, home, areas) && a in areas
    ensures a + areas[a] in tags && (a + areas[a]) % ALIGN == 0
  {
    assert AreaOk(tags, home, areas, a);
    ChunkStarts(h, tags, home, areas, a);
  }

  lemma BoundaryDistance(tags: Tags, c: Address, e: Address)
    requires c % ALIGN == 0 && e % ALIGN == 0 && ChunkSize(Size(tags, c)) && End(tags, c) <= e
    ensures ChunkSize(e - c)
  {
    AlignedDifference(c, e);
  }

  lemma AlignedDifference(c: int, e: int)
    requires c % ALIGN == 0 && e % ALIGN == 0
    ensures (e - c) % ALIGN == 0
  {
  }

  /** No chunk straddles a boundary. */
  lemma BelowBoundary(h: nat, tags: Tags, home: map<Address, Address>, areas: map<Address, nat>,
                      c: Address, e: Address, p: Address)
    requires Tiled(h, tags, home, areas) && c in home && Boundary(home, areas, c, e) && p in home
    ensures p < e ==> End(tags, p) <= e
  {
    assert ChunkOk(tags, home, areas, p);
    if e in home {
      if p < e { assert Apart(tags, p, e); }
    } else {
      AreasApart(h, tags, home, areas, home[c], home[p]);
      assert ChunkOk(tags, home, areas, c);
    }
  }

  /** Giving c a word whose size ends at another boundary of its area keeps the tiling. */
  lemma JoinTiled(h: nat, tags: Tags, home: map<Address, Address>, areas: map<Address, nat>, c: Address, word: nat)
    requires Tiled(h, tags, home, areas) && c in home && Boundary(home, areas, c, c + SizeOf(word))
    ensures Tiled(h, PutWord(tags, c, word), Joined(home, c, c + SizeOf(word)), areas)
  {
    var tags', home' := PutWord(tags, c, word), Joined(home, c, c + SizeOf(word));
    assert ChunksOk(tags', home', areas) by {
      forall d | d in home' ensures ChunkOk(tags', home', areas, d) {
        JoinChunk(h, tags, home, areas, c, word, d);
      }
    }
    assert AllApart(tags', home') by {
      forall d1, d2 | d1 in home' && d2 in home' && d1 < d2 ensures Apart(tags', d1, d2) {
        JoinApart(h, tags, home, areas, c, word, d1, d2);
      }
    }
    assert AreasOk(tags', home', areas) by {
      forall a | a in areas ensures AreaOk(tags', home', areas, a) {
        JoinArea(h, tags, home, areas, c, word, a);
      }
    }
  }

  lemma JoinApart(h: nat, tags: Tags, home: map<Address, Address>, areas: map<Address, nat>,
                  c: Address, word: nat, d1: Address, d2: Address)
    requires Tiled(h, tags, home, areas) && c in home && Boundary(home, areas, c, c + SizeOf(word))
    requires var home' := Joined(home, c, c + SizeOf(word)); d1 in home' && d2 in home' && d1 < d2
    ensures Apart(PutWord(tags, c, word), d1, d2)
  {
    assert Apart(tags, d1, d2);
    assert d1 != c ==> Word(PutWord(tags, c, word), d1) == Word(tags, d1);
  }

  lemma JoinArea(h: nat, tags: Tags, home: map<Address, Address>, areas: map<Address, nat>,
                 c: Address, word: nat, a: Address)
    requires Tiled(h, tags, home, areas) && c in home && Boundary(home, areas, c, c + SizeOf(word))
    requires a in areas
    ensures AreaOk(PutWord(tags, c, word), Joined(home, c, c + SizeOf(word)), areas, a)
  {
    var e := c + SizeOf(word);
    BoundaryFacts(h, tags, home, areas, c, e);
    assert AreaOk(tags, home, areas, a) && ChunkOk(tags, home, areas, c);
    if c < a <= e { SameArea(h, tags, home, areas, home[c], a); }
    if a + areas[a] == c { SameArea(h, tags, home, areas, a, c); }
  }

  lemma JoinChunk(h: nat, tags: Tags, home: map<Address, Address>, areas: map<Address, nat>,
                  c: Address, word: nat, d: Address)
    requires Tiled(h, tags, home, areas) && c in home && Boundary(home, areas, c, c + SizeOf(word))
    requires d in Joined(home, c, c + SizeOf(word))
    ensures ChunkOk(PutWord(tags, c, word), Joined(home, c, c + SizeOf(word)), areas, d)
  {
    var e := c + SizeOf(word);
    BoundaryFacts(h, tags, home, areas, c, e);
    assert ChunkOk(tags, home, areas, c) && ChunkOk(tags, home, areas, d);
    NextOf(h, tags, home, areas, d);
    PrevOf(h, tags, home, areas, d);
    if d < c {
      assert Apart(tags, d, c);
    } else if d > c {
      if d != home[d] { JoinPrev(h, tags, home, areas, c, word, d); }
    }
  }

  lemma JoinPrev(h: nat, tags: Tags, home: map<Address, Address>, areas: map<Address, nat>,
                 c: Address, word: nat, d: Address)
    requires Tiled(h, tags, home, areas) && c in home && Boundary(home, areas, c, c + SizeOf(word))
    requires d in home && d >= c + SizeOf(word) && d != home[d]
    ensures d in PutWord(tags, c, word)
    ensures PrevOk(PutWord(tags, c, word), Joined(home, c, c + SizeOf(word)), d)
  {
    var e := c + SizeOf(word);
    PrevOf(h, tags, home, areas, d);
    if d != e {
      BelowBoundary(h, tags, home, areas, c, e, d - SizeOf(tags[d].prevWord));
    }
  }

  /** Joining keeps the free chunks apart when the joined chunk is in use, or both its neighbours are. */
  lemma JoinCoalesced(h: nat, tags: Tags, home: map<Address, Address>, areas: map<Address, nat>, c: Address, word: nat)
    requires Tiled(h, tags, home, areas) && c in home && Boundary(home, areas, c, c + SizeOf(word))
    requires Coalesced(tags, home)
    requires InUse(word) || (InUse(PrevWord(tags, c)) && InUse(Word(tags, c + SizeOf(word))))
    ensures Coalesced(PutWord(tags, c, word), Joined(home, c, c + SizeOf(word)))
  {
    var e := c + SizeOf(word);
    BoundaryFacts(h, tags, home, areas, c, e);
  }

  lemma JoinFree(h: nat, tags: Tags, home: map<Address, Address>, areas: map<Address, nat>, c: Address, word: nat)
    requires Tiled(h, tags, home, areas) && c in home && Boundary(home, areas, c, c + SizeOf(word))
    ensures var e := c + SizeOf(word);
            && FreeChunks(PutWord(tags, c, word), Joined(home, c, e))
               == (set d | d in FreeChunks(tags, home) && !(c <= d < e)) + (if InUse(word) then {} else {c})
            && LiveChunks(PutWord(tags, c, word), Joined(home, c, e))
               == (set d | d in LiveChunks(tags, home) && !(c <= d < e)) + (if InUse(word) then {c} else {})
  {
    var e := c + SizeOf(word);
    BoundaryFacts(h, tags, home, areas, c, e);
    var tags' := PutWord(tags, c, word);
    assert forall d :: d != c ==> Word(tags', d) == Word(tags, d);
  }

  /** The words of the two parts of a cut: first w1, then w2. */
  ghost predicate Cuttable(tags: Tags, home: map<Address, Address>, c: Address, w1: nat, w2: nat) {
    c in home && ChunkSize(SizeOf(w1)) && ChunkSize(SizeOf(w2)) && SizeOf(w1) + SizeOf(w2) == Size(tags, c)
  }

  ghost function CutTags(tags: Tags, c: Address, w1: nat, w2: nat): Tags {
    PutWord(PutWord(tags, c + SizeOf(w1), w2), c, w1)
  }

  /** What the two writes of a cut change. */
  lemma CutWords(h: nat, tags: Tags, home: map<Address, Address>, areas: map<Address, nat>, c: Address, w1: nat, w2: nat)
    requires Tiled(h, tags, home, areas) && Cuttable(tags, home, c, w1, w2)
    ensures var r, e, tags' := c + SizeOf(w1), End(tags, c), CutTags(tags, c, w1, w2);
            && c < r < e && r !in home && r % ALIGN == 0 && home[c] in areas && e <= home[c] + areas[home[c]]
            && c in tags && e in tags
            && tags' == tags[c := Tag(PrevWord(tags, c), w1)][r := Tag(w1, w2)][e := Tag(w2, Word(tags, e))]
  {
    var r := c + SizeOf(w1);
    NextOf(h, tags, home, areas, c);
    assert ChunkOk(tags, home, areas, c);
    ApartOf(h, tags, home, areas, c, r);
  }

  /** Cutting a chunk in two keeps the tiling. */
  lemma CutTiled(h: nat, tags: Tags, home: map<Address, Address>, areas: map<Address, nat>, c: Address, w1: nat, w2: nat)
    requires Tiled(h, tags, home, areas) && Cuttable(tags, home, c, w1, w2)
    ensures Tiled(h, CutTags(tags, c, w1, w2), home[c + SizeOf(w1) := home[c]], areas)
  {
    var tags', home' := CutTags(tags, c, w1, w2), home[c + SizeOf(w1) := home[c]];
    assert ChunksOk(tags', home', areas) by {
      forall d | d in home' ensures ChunkOk(tags', home', areas, d) {
        CutChunk(h, tags, home, areas, c, w1, w2, d);
      }
    }
    assert AllApart(tags', home') by {
      forall d1, d2 | d1 in home' && d2 in home' && d1 < d2 ensures Apart(tags', d1, d2) {
        CutApart(h, tags, home, areas, c, w1, w2, d1, d2);
      }
    }
    assert AreasOk(tags', home', areas) by {
      forall a | a in areas ensures AreaOk(tags', home', areas, a) {
        CutArea(h, tags, home, areas, c, w1, w2, a);
      }
    }
  }

  lemma CutApart(h: nat, tags: Tags, home: map<Address, Address>, areas: map<Address, nat>,
                 c: Address, w1: nat, w2: nat, d1: Address, d2: Address)
    requires Tiled(h, tags, home, areas) && Cuttable(tags, home, c, w1, w2)
    requires var home' := home[c + SizeOf(w1) := home[c]]; d1 in home' && d2 in home' && d1 < d2
    ensures Apart(CutTags(tags, c, w1, w2), d1, d2)
  {
    CutWords(h, tags, home, areas, c, w1, w2);
    ApartOf(h, tags, home, areas, d1, d2);
    ApartOf(h, tags, home, areas, d1, c);
    ApartOf(h, tags, home, areas, c, d2);
  }

  lemma CutArea(h: nat, tags: Tags, home: map<Address, Address>, areas: map<Address, nat>,
                c: Address, w1: nat, w2: nat, a: Address)
    requires Tiled(h, tags, home, areas) && Cuttable(tags, home, c, w1, w2) && a in areas
    ensures AreaOk(CutTags(tags, c, w1, w2), home[c + SizeOf(w1) := home[c]], areas, a)
  {
    CutWords(h, tags, home, areas, c, w1, w2);
    assert AreaOk(tags, home, areas, a) && ChunkOk(tags, home, areas, c);
    AreasApart(h, tags, home, areas, a, home[c]);
    NextOf(h, tags, home, areas, c);
  }

  lemma CutChunk(h: nat, tags: Tags, home: map<Address, Address>, areas: map<Address, nat>,
                 c: Address, w1: nat, w2: nat, d: Address)
    requires Tiled(h, tags, home, areas) && Cuttable(tags, home, c, w1, w2)
    requires d == c + SizeOf(w1) || d in home
    ensures ChunkOk(CutTags(tags, c, w1, w2), home[c + SizeOf(w1) := home[c]], areas, d)
  {
    if d == c || d == c + SizeOf(w1) {
      CutParts(h, tags, home, areas, c, w1, w2);
    } else {
      CutOther(h, tags, home, areas, c, w1, w2, d);
    }
  }

  lemma CutParts(h: nat, tags: Tags, home: map<Address, Address>, areas: map<Address, nat>, c: Address, w1: nat, w2: nat)
    requires Tiled(h, tags, home, areas) && Cuttable(tags, home, c, w1, w2)
    ensures var tags', home' := CutTags(tags, c, w1, w2), home[c + SizeOf(w1) := home[c]];
            ChunkOk(tags', home', areas, c) && ChunkOk(tags', home', areas, c + SizeOf(w1))
  {
    var r := c + SizeOf(w1);
    var tags', home' := CutTags(tags, c, w1, w2), home[r := home[c]];
    CutWords(h, tags, home, areas, c, w1, w2);
    NextOf(h, tags, home, areas, c);
    PrevOf(h, tags, home, areas, c);
    assert ChunkOk(tags, home, areas, c);
    assert PrevOk(tags', home', r);
  }

  lemma CutOther(h: nat, tags: Tags, home: map<Address, Address>, areas: map<Address, nat>,
                 c: Address, w1: nat, w2: nat, d: Address)
    requires Tiled(h, tags, home, areas) && Cuttable(tags, home, c, w1, w2)
    requires d in home && d != c && d != c + SizeOf(w1)
    ensures ChunkOk(CutTags(tags, c, w1, w2), home[c + SizeOf(w1) := home[c]], areas, d)
  {
    CutWords(h, tags, home, areas, c, w1, w2);
    assert ChunkOk(tags, home, areas, d);
    NextOf(h, tags, home, areas, d);
    ApartOf(h, tags, home, areas, c, d);
    if d != home[d] {
      CutPrev(h, tags, home, areas, c, w1, w2, d);
    }
  }

  lemma CutPrev(h: nat, tags: Tags, home: map<Address, Address>, areas: map<Address, nat>,
                c: Address, w1: nat, w2: nat, d: Address)
    requires Tiled(h, tags, home, areas) && Cuttable(tags, home, c, w1, w2)
    requires d in home && d != home[d] && d != c
    ensures d in CutTags(tags, c, w1, w2)
    ensures PrevOk(CutTags(tags, c, w1, w2), home[c + SizeOf(w1) := home[c]], d)
  {
    CutWords(h, tags, home, areas, c, w1, w2);
    PrevOf(h, tags, home, areas, d);
    NextOf(h, tags, home, areas, c);
  }

  /** Cutting keeps free chunks apart when the first part is in use and the second is too or has a used successor. */
  lemma CutCoalesced(h: nat, tags: Tags, home: map<Address, Address>, areas: map<Address, nat>,
                     c: Address, w1: nat, w2: nat)
    requires Tiled(h, tags, home, areas) && Cuttable(tags, home, c, w1, w2) && Coalesced(tags, home)
    requires InUse(w1) && (InUse(w2) || InUse(Word(tags, End(tags, c))))
    ensures Coalesced(CutTags(tags, c, w1, w2), home[c + SizeOf(w1) := home[c]])
  {
    CutWords(h, tags, home, areas, c, w1, w2);
  }

  lemma CutFree(h: nat, tags: Tags, home: map<Address, Address>, areas: map<Address, nat>,
                c: Address, w1: nat, w2: nat)
    requires Tiled(h, tags, home, areas) && Cuttable(tags, home, c, w1, w2) && InUse(w1)
    ensures var r := c + SizeOf(w1);
            var tags', home' := CutTags(tags, c, w1, w2), home[r := home[c]];
            && FreeChunks(tags', home') == FreeChunks(tags, home) - {c} + (if InUse(w2) then {} else {r})
            && LiveChunks(tags', home') == LiveChunks(tags, home) + {c} + (if InUse(w2) then {r} else {})
  {
    CutWords(h, tags, home, areas, c, w1, w2);
    NextOf(h, tags, home, areas, c);
  }

  // ---- areas that come and go ----

  /** The two headers that delimit an area holding one chunk of all its size. */
  ghost predicate WholeArea(tags: Tags, a: Address, size: nat) {
    && a in tags && a + size in tags
    && tags[a].prevWord == CHUNK_IN_USE && SizeOf(tags[a].word) == size
    && tags[a + size] == Tag(tags[a].word, CHUNK_IN_USE)
  }

  ghost predicate Disjoint(h: nat, areas: map<Address, nat>, a: Address, size: nat) {
    forall b :: b in areas ==> (b < a && b + areas[b] + 2 * h <= a) || (a < b && a + size + 2 * h <= b)
  }

  /** Adding an area apart from all others, as one chunk, keeps the tiling. */
  lemma AddArea(h: nat, tags: Tags, tags': Tags, home: map<Address, Address>, areas: map<Address, nat>,
                a: Address, size: nat)
    requires Tiled(h, tags, home, areas)
    requires ChunkSize(size) && size <= MAX_SIZE && a % ALIGN == 0 && h > 0 && Disjoint(h, areas, a, size)
    requires WholeArea(tags', a, size)
    requires forall c :: c in tags && c != a && c != a + size ==> c in tags' && tags'[c] == tags[c]
    ensures a !in home
    ensures Tiled(h, tags', home[a := a], areas[a := size])
  {
    var home', areas' := home[a := a], areas[a := size];
    AddOutside(h, tags, home, areas, a, size);
    assert ChunksOk(tags', home', areas') by {
      forall d | d in home' ensures ChunkOk(tags', home', areas', d) {
        if d != a { assert ChunkOk(tags, home, areas, d); }
      }
    }
    assert AllApart(tags', home') by {
      forall d1, d2 | d1 in home' && d2 in home' && d1 < d2 ensures Apart(tags', d1, d2) {
        ApartOf(h, tags, home, areas, d1, d2);
      }
    }
    assert AreasOk(tags', home', areas') by {
      forall b | b in areas' ensures AreaOk(tags', home', areas', b) {
        if b != a { assert AreaOk(tags, home, areas, b); }
      }
    }
    assert AllSpaced(h, areas') by {
      forall b1, b2 | b1 in areas' && b2 in areas' && b1 < b2 ensures Spaced(h, areas', b1, b2) {
        AreasApart(h, tags, home, areas, b1, b2);
      }
    }
  }

  lemma AddOutside(h: nat, tags: Tags, home: map<Address, Address>, areas: map<Address, nat>, a: Address, size: nat)
    requires Tiled(h, tags, home, areas) && h > 0 && Disjoint(h, areas, a, size)
    ensures a !in home && a !in areas
    ensures forall d :: d in home ==> d in tags && (d < End(tags, d) < a || a + size < d < End(tags, d))
  {
    forall d | d in home ensures d in tags && (d < End(tags, d) < a || a + size < d < End(tags, d)) {
      assert ChunkOk(tags, home, areas, d);
    }
  }

  /** Taking away an area that is one single chunk keeps the tiling of the others. */
  lemma RemoveArea(h: nat, tags: Tags, home: map<Address, Address>, areas: map<Address, nat>, a: Address)
    requires Tiled(h, tags, home, areas) && h > 0 && a in areas && End(tags, a) == a + areas[a]
    ensures Tiled(h, tags, home - {a}, areas - {a})
  {
    var home', areas' := home - {a}, areas - {a};
    assert AreaOk(tags, home, areas, a);
    assert ChunksOk(tags, home', areas') by {
      forall d | d in home' ensures ChunkOk(tags, home', areas', d) {
        assert ChunkOk(tags, home, areas, d);
        assert AreaOk(tags, home, areas, home[d]);
        AreasApart(h, tags, home, areas, a, home[d]);
        ApartOf(h, tags, home, areas, a, d);
        NextOf(h, tags, home, areas, d);
        PrevOf(h, tags, home, areas, d);
      }
    }
    assert AllApart(tags, home') by {
      forall d1, d2 | d1 in home' && d2 in home' && d1 < d2 ensures Apart(tags, d1, d2) {
        ApartOf(h, tags, home, areas, d1, d2);
      }
    }
    assert AreasOk(tags, home', areas') by {
      forall b | b in areas' ensures AreaOk(tags, home', areas', b) {
        assert AreaOk(tags, home, areas, b);
      }
    }
    assert AllSpaced(h, areas') by {
      forall b1, b2 | b1 in areas' && b2 in areas' && b1 < b2 ensures Spaced(h, areas', b1, b2) {
        AreasApart(h, tags, home, areas, b1, b2);
      }
    }
  }

  // ---- walking an area ----

  /** Following sizes from any chunk of an area leads to a last chunk, which ends where the area does. */
  lemma {:induction false} LastChunk(h: nat, tags: Tags, home: map<Address, Address>, areas: map<Address, nat>, c: Address)
    returns (p: Address)
    requires Tiled(h, tags, home, areas) && c in home
    ensures p in home && home[p] == home[c] && home[c] in areas && End(tags, p) == home[c] + areas[home[c]]
    decreases if home[c] in areas then home[c] + areas[home[c]] - c else 0
  {
    NextOf(h, tags, home, areas, c);
    assert ChunkOk(tags, home, areas, c);
    var n := End(tags, c);
    if n == home[c] + areas[home[c]] {
      p := c;
    } else {
      assert ChunkOk(tags, home, areas, n);
      p := LastChunk(h, tags, home, areas, n);
    }
  }

  /** What any tiling demands of the sentinel at the end of an area. */
  lemma SentinelOf(h: nat, tags: Tags, home: map<Address, Address>, areas: map<Address, nat>, a: Address)
    requires Tiled(h, tags, home, areas) && a in areas
    ensures var e := a + areas[a]; Word(tags, e) == CHUNK_IN_USE && ChunkSize(SizeOf(PrevWord(tags, e)))
  {
    assert AreaOk(tags, home, areas, a);
    var p := LastChunk(h, tags, home, areas, a);
    NextOf(h, tags, home, areas, p);
    assert ChunkOk(tags, home, areas, p);
  }
}
