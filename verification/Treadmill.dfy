/**
  The rings of the garbage collector. Every object is in one ring: the grey one, or the ring of its size class, where
  black objects come first, then white ones, then free ones.
 */
module Treadmills {
  import opened Rings

  datatype Color = Black | White | Grey | FreeColor | Marker

  /** The collector's fields of an object; `gcSet` is the size class, or the class of finalizers. */
  datatype Header = Header(color: Color, gcSet: nat, size: nat)

  type Headers = map<Address, Header>

  /** The two markers in the ring of a size class. */
  datatype GCSet = GCSet(black: Address, white: Address)

  datatype Segments = Segments(black: seq<Address>, white: seq<Address>, free: seq<Address>)

  /** Which objects are where. */
  datatype Mill = Mill(sets: seq<GCSet>, grey: Address, segments: seq<Segments>, greys: seq<Address>)

  /** The ring of a size class, or the grey ring, which is the last. */
  function RingAt(w: Mill, k: nat): seq<Address>
    requires |w.sets| == |w.segments| && k <= |w.sets|
  {
    if k < |w.sets| then SetRing(w.sets[k], w.segments[k]) else [w.grey] + w.greys
  }

  function SetRing(s: GCSet, g: Segments): seq<Address> {
    [s.black] + g.black + [s.white] + g.white + g.free
  }

  /** The ring that an object should be in. */
  function HomeOf(w: Mill, h: Header): nat { if h.color.Grey? then |w.sets| else h.gcSet }

  ghost predicate AtHome(h: Headers, w: Mill, k: nat)
    requires |w.sets| == |w.segments| && k <= |w.sets|
  {
    forall a :: a in RingAt(w, k) ==> a in h && HomeOf(w, h[a]) == k
  }

  ghost predicate AllColored(h: Headers, s: seq<Address>, c: Color) {
    forall a :: a in s ==> a in h && h[a].color == c
  }

  ghost predicate Colored(h: Headers, w: Mill) {
    && AllColored(h, w.greys, Grey)
    && (forall k :: 0 <= k < |w.segments| ==>
          AllColored(h, w.segments[k].black, Black) && AllColored(h, w.segments[k].white, White)
          && AllColored(h, w.segments[k].free, FreeColor))
    && (forall k :: 0 <= k < |w.sets| ==>
          w.sets[k].black in h && h[w.sets[k].black].color.Marker? && w.sets[k].white in h && h[w.sets[k].white].color.Marker?)
    && w.grey in h && h[w.grey].color.Marker?
  }

  ghost predicate RingOk(m: Links, h: Headers, w: Mill, k: nat)
    requires |w.sets| == |w.segments| && k <= |w.sets|
  {
    Ring(m, RingAt(w, k)) && AtHome(h, w, k)
  }

  /** All the rings are linked, and each segment has its color. */
  ghost predicate Spinning(m: Links, h: Headers, w: Mill) {
    && |w.sets| == |w.segments|
    && (forall k {:trigger RingOk(m, h, w, k)} :: 0 <= k <= |w.sets| ==> RingOk(m, h, w, k))
    && Colored(h, w)
  }

  /** Every object, but for some, is in the ring where it should be. */
  ghost predicate Complete(h: Headers, w: Mill, but: set<Address>) {
    && |w.sets| == |w.segments|
    && forall a {:trigger Inside(h, w, a)} :: a in h && a !in but ==> Inside(h, w, a)
  }

  ghost predicate Inside(h: Headers, w: Mill, a: Address)
    requires |w.sets| == |w.segments| && a in h
  {
    HomeOf(w, h[a]) <= |w.sets| && a in RingAt(w, HomeOf(w, h[a]))
  }

  // ---- taking an object out ----

  function Without(s: seq<Address>, x: Address): (r: seq<Address>)
    ensures forall a :: a in r ==> a in s
    ensures x !in s ==> r == s
    ensures forall a :: a in s && a != x ==> a in r
  {
    if s == [] then []
    else if s[0] == x then s[1..]
    else
      assert s == [s[0]] + s[1..];
      [s[0]] + Without(s[1..], x)
  }

  lemma WithoutSplit(a: seq<Address>, b: seq<Address>, x: Address)
    ensures x !in a ==> Without(a + b, x) == a + Without(b, x)
    ensures x in a ==> Without(a + b, x) == Without(a, x) + b
  {
    if x in a { WithoutLeft(a, b, x); } else { WithoutRight(a, b, x); }
  }

  lemma {:induction false} WithoutLeft(a: seq<Address>, b: seq<Address>, x: Address)
    requires x in a
    ensures Without(a + b, x) == Without(a, x) + b
  {
    assert (a + b)[0] == a[0] && (a + b)[1..] == a[1..] + b;
    if a[0] != x { WithoutLeft(a[1..], b, x); }
  }

  lemma {:induction false} WithoutRight(a: seq<Address>, b: seq<Address>, x: Address)
    requires x !in a
    ensures Without(a + b, x) == a + Without(b, x)
  {
    if a == [] {
      assert a + b == b;
    } else {
      assert (a + b)[0] == a[0] && (a + b)[1..] == a[1..] + b;
      WithoutRight(a[1..], b, x);
    }
  }

  lemma {:induction false} WithoutIsRemoveAt(s: seq<Address>, k: nat)
    requires k < |s| && Distinct(s)
    ensures Without(s, s[k]) == RemoveAt(s, k) && s[k] !in Without(s, s[k])
  {
    hide Distinct, RemoveAt;
    RemoveParts(s, k);
    if k > 0 { WithoutIsRemoveAt(s[1..], k - 1); }
  }

  lemma RemoveParts(s: seq<Address>, k: nat)
    requires k < |s| && Distinct(s)
    ensures s[k] !in RemoveAt(s, k)
    ensures k == 0 ==> RemoveAt(s, k) == s[1..]
    ensures k > 0 ==> Distinct(s[1..]) && s[0] != s[k] && RemoveAt(s, k) == [s[0]] + RemoveAt(s[1..], k - 1)
  {
  }

  /** Bypassing a node of a ring takes it out; a ring that it is not in is not affected. */
  lemma RemovedRing(m: Links, ring: seq<Address>, x: Address)
    requires Ring(m, ring) && x in ring && |ring| > 1
    ensures x in m && m[x].prev in m && m[x].next in m && m[x].prev in ring && m[x].next in ring
    ensures Ring(Bypassed(m, x), Without(ring, x)) && x !in Without(ring, x)
  {
    var k :| 0 <= k < |ring| && ring[k] == x;
    assert Linked(m, ring, k);
    BypassRing(m, ring, k);
    WithoutIsRemoveAt(ring, k);
  }

  function SegmentsWithout(g: Segments, x: Address): Segments {
    Segments(Without(g.black, x), Without(g.white, x), Without(g.free, x))
  }

  function MillWithout(w: Mill, x: Address): (w': Mill)
    ensures w'.sets == w.sets && |w'.segments| == |w.segments|
  {
    w.(segments := seq(|w.segments|, k requires 0 <= k < |w.segments| => SegmentsWithout(w.segments[k], x)),
       greys := Without(w.greys, x))
  }

  lemma RingWithout(w: Mill, k: nat, x: Address)
    requires |w.sets| == |w.segments| && k <= |w.sets| && Distinct(RingAt(w, k))
    requires if k < |w.sets| then x != w.sets[k].black && x != w.sets[k].white else x != w.grey
    ensures RingAt(MillWithout(w, x), k) == Without(RingAt(w, k), x)
  {
    if k < |w.sets| {
      var s, g := w.sets[k], w.segments[k];
      SetRingWithout(s, g, x);
      assert MillWithout(w, x).segments[k] == SegmentsWithout(g, x);
    } else {
      WithoutSplit([w.grey], w.greys, x);
    }
  }

  lemma SetRingWithout(s: GCSet, g: Segments, x: Address)
    requires Distinct(SetRing(s, g)) && x != s.black && x != s.white
    ensures SetRing(s, SegmentsWithout(g, x)) == Without(SetRing(s, g), x)
  {
    var a := [s.black] + g.black;
    var b := a + [s.white];
    var c := b + g.white;
    assert SetRing(s, g) == c + g.free;
    assert x in g.black ==> x !in g.white && x !in g.free by { OnlyOnce(s, g, x); }
    assert x in g.white ==> x !in g.free by { OnlyOnce(s, g, x); }
    WithoutSplit(c, g.free, x);
    WithoutSplit(b, g.white, x);
    WithoutSplit(a, [s.white], x);
    WithoutSplit([s.black], g.black, x);
  }

  lemma OnlyOnce(s: GCSet, g: Segments, x: Address)
    requires Distinct(SetRing(s, g))
    ensures x in g.black ==> x !in g.white && x !in g.free
    ensures x in g.white ==> x !in g.free
  {
    var ring := SetRing(s, g);
    var i, j := 1 + |g.black| + 1, 1 + |g.black| + 1 + |g.white|;
    assert ring[1..1 + |g.black|] == g.black && ring[i..j] == g.white && ring[j..] == g.free;
  }

  ghost predicate Movable(h: Headers, w: Mill, x: Address) {
    x in h && !h[x].color.Marker? && !h[x].color.FreeColor? && h[x].gcSet < |w.sets|
  }

  /** With an object taken out of its ring, everything else is where it was. */
  lemma TakenOut(m: Links, h: Headers, w: Mill, x: Address)
    requires Spinning(m, h, w) && Complete(h, w, {}) && Movable(h, w, x)
    ensures x in m && m[x].prev in m && m[x].next in m
    ensures Spinning(Bypassed(m, x), h, MillWithout(w, x)) && Complete(h, MillWithout(w, x), {x})
    ensures forall k :: 0 <= k <= |w.sets| ==> x !in RingAt(MillWithout(w, x), k)
    ensures |MillWithout(w, x).greys| == |w.greys| - (if h[x].color.Grey? then 1 else 0)
    ensures forall k :: 0 <= k < |w.segments| ==> MillWithout(w, x).segments[k].free == w.segments[k].free
  {
    hide Ring, Without, Bypassed, RingOk, Colored;
    var w' := MillWithout(w, x);
    RingTaken(m, h, w, x, |w.sets|);
    forall k | 0 <= k <= |w.sets|
      ensures RingOk(Bypassed(m, x), h, w', k) && x !in RingAt(w', k)
      ensures forall a :: a in RingAt(w, k) && a != x ==> a in RingAt(w', k)
    {
      RingTaken(m, h, w, x, k);
    }
    forall a | a in h && a != x
      ensures Inside(h, w', a)
    {
      assert Inside(h, w, a);
    }
    GreysWithout(m, h, w, x);
    ColoredWithout(h, w, x);
  }

  lemma RingTaken(m: Links, h: Headers, w: Mill, x: Address, k: nat)
    requires Spinning(m, h, w) && Complete(h, w, {}) && Movable(h, w, x) && k <= |w.sets|
    ensures x in m && m[x].prev in m && m[x].next in m
    ensures RingOk(Bypassed(m, x), h, MillWithout(w, x), k) && x !in RingAt(MillWithout(w, x), k)
    ensures forall a :: a in RingAt(w, k) && a != x ==> a in RingAt(MillWithout(w, x), k)
  {
    hide Ring, Without, Bypassed;
    var home := HomeOf(w, h[x]);
    assert Inside(h, w, x) && RingOk(m, h, w, home);
    MarkersStay(h, w, x);
    BigEnough(w, home, x);
    RemovedRing(m, RingAt(w, home), x);
    assert RingOk(m, h, w, k);
    RingIsDistinct(m, RingAt(w, k));
    RingWithout(w, k, x);
    if k != home { NotBypassed(m, RingAt(w, home), RingAt(w, k), x); }
    WithoutHas(RingAt(w, k), x);
  }

  lemma RingIsDistinct(m: Links, ring: seq<Address>)
    requires Ring(m, ring)
    ensures Distinct(ring)
  {
  }

  lemma WithoutHas(s: seq<Address>, x: Address)
    ensures forall a :: a in Without(s, x) ==> a in s
    ensures forall a :: a in s && a != x ==> a in Without(s, x)
    ensures x !in s ==> Without(s, x) == s
  {
  }

  lemma MarkersStay(h: Headers, w: Mill, x: Address)
    requires Colored(h, w) && |w.sets| == |w.segments| && Movable(h, w, x)
    ensures forall k :: 0 <= k < |w.sets| ==> x != w.sets[k].black && x != w.sets[k].white
    ensures x != w.grey
  {
  }

  lemma BigEnough(w: Mill, k: nat, x: Address)
    requires |w.sets| == |w.segments| && k <= |w.sets| && x in RingAt(w, k)
    requires if k < |w.sets| then x != w.sets[k].black && x != w.sets[k].white else x != w.grey
    ensures |RingAt(w, k)| > 1
  {
  }

  /** A ring that has none of the nodes of another is not affected by what is done to that one. */
  lemma NotBypassed(m: Links, ring: seq<Address>, other: seq<Address>, x: Address)
    requires Ring(m, ring) && Ring(m, other) && x in ring && |ring| > 1
    requires forall a :: a in other ==> a !in ring
    ensures x in m && m[x].prev in m && m[x].next in m && Ring(Bypassed(m, x), other)
  {
    RemovedRing(m, ring, x);
    forall a | a in other
      ensures a in m
    {
      var i :| 0 <= i < |other| && other[i] == a;
      assert Linked(m, other, i);
    }
    RingFrame(m, Bypassed(m, x), other);
  }

  lemma GreysWithout(m: Links, h: Headers, w: Mill, x: Address)
    requires Spinning(m, h, w) && Complete(h, w, {}) && Movable(h, w, x)
    ensures |Without(w.greys, x)| == |w.greys| - (if h[x].color.Grey? then 1 else 0)
  {
    hide Without, Ring;
    var n := |w.sets|;
    assert Inside(h, w, x) && RingOk(m, h, w, n);
    RingIsDistinct(m, RingAt(w, n));
    assert RingAt(w, n) == [w.grey] + w.greys;
    TailIsDistinct(w.grey, w.greys);
    WithoutLength(w.greys, x);
  }

  lemma TailIsDistinct(first: Address, rest: seq<Address>)
    requires Distinct([first] + rest)
    ensures Distinct(rest)
  {
    assert ([first] + rest)[1..] == rest;
  }

  lemma WithoutLength(s: seq<Address>, x: Address)
    requires Distinct(s)
    ensures |Without(s, x)| == |s| - (if x in s then 1 else 0)
  {
    hide Without;
    if x in s {
      var k :| 0 <= k < |s| && s[k] == x;
      WithoutIsRemoveAt(s, k);
    } else {
      WithoutHas(s, x);
    }
  }

  lemma ColoredWithout(h: Headers, w: Mill, x: Address)
    requires Colored(h, w) && Movable(h, w, x) && |w.sets| == |w.segments|
    ensures Colored(h, MillWithout(w, x))
    ensures forall k :: 0 <= k < |w.segments| ==> MillWithout(w, x).segments[k].free == w.segments[k].free
  {
    hide Without;
    WithoutHas(w.greys, x);
    forall k | 0 <= k < |w.segments|
      ensures var g := MillWithout(w, x).segments[k];
              AllColored(h, g.black, Black) && AllColored(h, g.white, White) && g.free == w.segments[k].free
    {
      var g := w.segments[k];
      WithoutHas(g.black, x);
      WithoutHas(g.white, x);
      WithoutHas(g.free, x);
    }
  }

  // ---- putting it in again ----

  /** The segments with an object at the start of the segment of a color. */
  function SegmentsWith(g: Segments, c: Color, x: Address): Segments {
    match c
    case Black => g.(black := [x] + g.black)
    case White => g.(white := [x] + g.white)
    case _ => g.(free := [x] + g.free)
  }

  function MillWith(w: Mill, k: nat, c: Color, x: Address): (w': Mill)
    requires k < |w.segments|
    ensures w'.sets == w.sets && |w'.segments| == |w.segments| && w'.greys == w.greys
  {
    w.(segments := w.segments[k := SegmentsWith(w.segments[k], c, x)])
  }

  /** Where that is in the ring. */
  function Position(g: Segments, c: Color): nat {
    match c
    case Black => 1
    case White => |g.black| + 2
    case _ => |g.black| + |g.white| + 2
  }

  lemma SetRingWith(s: GCSet, g: Segments, c: Color, x: Address)
    requires c.Black? || c.White? || c.FreeColor?
    ensures 1 <= Position(g, c) <= |SetRing(s, g)|
    ensures SetRing(s, SegmentsWith(g, c, x)) == InsertAt(SetRing(s, g), Position(g, c), x)
    ensures c.Black? ==> SetRing(s, g)[Position(g, c) - 1] == s.black
    ensures c.White? ==> SetRing(s, g)[Position(g, c) - 1] == s.white
    ensures c.FreeColor? ==>
              (if g.free == [] then Position(g, c) == |SetRing(s, g)|
               else Position(g, c) < |SetRing(s, g)| && SetRing(s, g)[Position(g, c)] == g.free[0])
  {
  }

  /** The color of an object; a free object has no size. */
  function Recolored(h: Header, c: Color): Header { h.(color := c, size := if c.FreeColor? then 0 else h.size) }

  /** What is spliced into one ring does not affect a ring that shares no node with it. */
  lemma NotSpliced(m: Links, other: seq<Address>, x: Address, p: Address, n: Address)
    requires Ring(m, other) && p in m && n in m && x !in other && p !in other && n !in other
    ensures Ring(Spliced(m, x, p, n), other)
  {
    forall a | a in other
      ensures a in m
    {
      var i :| 0 <= i < |other| && other[i] == a;
      assert Linked(m, other, i);
    }
    RingFrame(m, Spliced(m, x, p, n), other);
  }

  /** Between which two nodes of the ring of its set an object goes. */
  lemma SplicePoint(m: Links, h: Headers, w: Mill, k: nat, x: Address, c: Color) returns (p: Address, n: Address)
    requires Spinning(m, h, w) && k < |w.sets| && x !in RingAt(w, k) && (c.Black? || c.White? || c.FreeColor?)
    ensures p in RingAt(w, k) && n in RingAt(w, k) && p in m && n in m
    ensures m[p].next == n && m[n].prev == p && x != p && x != n
    ensures Ring(Spliced(m, x, p, n), RingAt(MillWith(w, k, c, x), k))
    ensures (c.Black? ==> p == w.sets[k].black) && (c.White? ==> p == w.sets[k].white)
    ensures c.FreeColor? ==> n == FirstFree(w, k)
  {
    hide Ring, Spliced;
    var ring, pos := RingAt(w, k), Position(w.segments[k], c);
    SetRingWith(w.sets[k], w.segments[k], c, x);
    assert RingOk(m, h, w, k);
    SpliceRing(m, ring, pos, x);
    assert RingAt(MillWith(w, k, c, x), k) == InsertAt(ring, pos, x);
    p, n := ring[pos - 1], ring[if pos == |ring| then 0 else pos];
  }

  ghost predicate Apart(a: seq<Address>, b: seq<Address>) { forall x :: x in a ==> x !in b }

  lemma RingsApart(m: Links, h: Headers, w: Mill, j: nat, k: nat)
    requires Spinning(m, h, w) && j <= |w.sets| && k <= |w.sets| && j != k
    ensures Ring(m, RingAt(w, j)) && Apart(RingAt(w, j), RingAt(w, k))
  {
    assert RingOk(m, h, w, j) && RingOk(m, h, w, k);
  }

  /** Putting an object into the ring of its set, at the start of the segment of a color. */
  lemma PutIn(m: Links, h: Headers, w: Mill, x: Address, c: Color, p: Address, n: Address)
    requires Spinning(m, h, w) && Complete(h, w, {x}) && Movable(h, w, x) && (c.Black? || c.White? || c.FreeColor?)
    requires forall k :: 0 <= k <= |w.sets| ==> x !in RingAt(w, k)
    requires p in m && n in m && p in RingAt(w, h[x].gcSet) && n in RingAt(w, h[x].gcSet)
    requires Ring(Spliced(m, x, p, n), RingAt(MillWith(w, h[x].gcSet, c, x), h[x].gcSet))
    ensures Spinning(Spliced(m, x, p, n), h[x := Recolored(h[x], c)], MillWith(w, h[x].gcSet, c, x))
    ensures Complete(h[x := Recolored(h[x], c)], MillWith(w, h[x].gcSet, c, x), {})
  {
    hide Ring, Spliced, Colored, SetRing;
    var k := h[x].gcSet;
    var m', h', w' := Spliced(m, x, p, n), h[x := Recolored(h[x], c)], MillWith(w, k, c, x);
    SegmentsHave(w.sets[k], w.segments[k], c, x);
    forall j | 0 <= j <= |w.sets|
      ensures RingOk(m', h', w', j)
      ensures forall a :: a in RingAt(w, j) ==> a in RingAt(w', j)
    {
      assert RingOk(m, h, w, j);
      if j != k {
        RingsApart(m, h, w, k, j);
        NotSpliced(m, RingAt(w, j), x, p, n);
      }
    }
    forall a | a in h'
      ensures Inside(h', w', a)
    {
      assert a != x ==> Inside(h, w, a);
    }
    ColoredWith(h, w, x, c);
  }

  lemma SegmentsHave(s: GCSet, g: Segments, c: Color, x: Address)
    requires c.Black? || c.White? || c.FreeColor?
    ensures forall a :: a in SetRing(s, SegmentsWith(g, c, x)) <==> a in SetRing(s, g) || a == x
  {
    SetRingWith(s, g, c, x);
    InsertHas(SetRing(s, g), Position(g, c), x);
  }

  lemma InsertHas(s: seq<Address>, k: nat, x: Address)
    requires k <= |s|
    ensures forall a :: a in InsertAt(s, k, x) <==> a in s || a == x
  {
    assert s == s[..k] + s[k..];
  }

  lemma ColoredWith(h: Headers, w: Mill, x: Address, c: Color)
    requires Colored(h, w) && Movable(h, w, x) && |w.sets| == |w.segments| && (c.Black? || c.White? || c.FreeColor?)
    requires forall k :: 0 <= k <= |w.sets| ==> x !in RingAt(w, k)
    ensures Colored(h[x := Recolored(h[x], c)], MillWith(w, h[x].gcSet, c, x))
  {
    MarkersStay(h, w, x);
    assert x !in RingAt(w, |w.sets|);
    forall k | 0 <= k < |w.segments|
      ensures x !in w.segments[k].black && x !in w.segments[k].white && x !in w.segments[k].free
    {
      assert x !in RingAt(w, k);
    }
  }

  class Treadmill {
    var links: Links
    var headers: Headers
    const sets: seq<GCSet>
    var free: seq<Address>
    var numGrey: int
    ghost var mill: Mill

    /** Taking out and putting in as two steps: `but` is what is out of its ring. */
    ghost predicate Valid()
      reads this
    {
      && mill.sets == sets && |mill.segments| == |free| == |sets|
      && Spinning(links, headers, mill) && Complete(headers, mill, {})
      && numGrey == |mill.greys|
      && forall k :: 0 <= k < |sets| ==> free[k] == FirstFree(mill, k)
    }

    method DLRemove(obj: Address)
      requires obj in links && links[obj].prev in links && links[obj].next in links
      requires links[obj].prev != obj && links[obj].next != obj
      modifies `links
      ensures links == Bypassed(old(links), obj)
    {
      links := links[links[obj].next := links[links[obj].next].(prev := links[obj].prev)];
      links := links[links[obj].prev := links[links[obj].prev].(next := links[obj].next)];
    }

    method DLInsertAfter(after: Address, obj: Address)
      requires after in links && links[after].next in links && obj != after && obj != links[after].next
      modifies `links
      ensures links == Spliced(old(links), obj, after, old(links)[after].next)
    {
      var next := links[after].next;
      links := links[obj := Link(next, after)];
      links := links[links[after].next := links[links[after].next].(prev := obj)];
      links := links[after := links[after].(next := obj)];
    }

    method DLInsertBefore(before: Address, obj: Address)
      requires before in links && links[before].prev in links && obj != before && obj != links[before].prev
      modifies `links
      ensures links == Spliced(old(links), obj, old(links)[before].prev, before)
    {
      var prev := links[before].prev;
      links := links[obj := Link(before, prev)];
      links := links[links[before].prev := links[links[before].prev].(next := obj)];
      links := links[before := links[before].(prev := obj)];
    }

    function GetGCSet(obj: Address): nat
      requires obj in headers
      reads this
    {
      headers[obj].gcSet
    }

    /** Moves an object that is not free to the start of the black ones of its size class. */
    method ToBlack(obj: Address)
      requires Valid() && Movable(headers, mill, obj)
      modifies `links, `headers, `numGrey, `mill
      ensures Valid()
      ensures mill == MillWith(MillWithout(old(mill), obj), old(headers)[obj].gcSet, Black, obj)
      ensures headers == old(headers)[obj := Recolored(old(headers)[obj], Black)]
      // the object has its new color, and is the first of the objects of that color; all others are in the same order
      ensures headers == old(headers)[obj := old(headers)[obj].(color := Black)]
      ensures var k := old(headers)[obj].gcSet;
              var was, now := old(mill).segments[k], mill.segments[k];
              && mill.greys == Without(old(mill).greys, obj)
              && now.black == [obj] + Without(was.black, obj)
              && now.white == Without(was.white, obj) && now.free == Without(was.free, obj)
    {
      hide Spinning, Complete, Spliced, Bypassed, RingAt, Without;
      if headers[obj].color.Grey? {
        numGrey := numGrey - 1;
      }
      TakenOut(links, headers, mill, obj);
      OutOfTheWay(links, headers, mill, obj);
      DLRemove(obj);
      mill := MillWithout(mill, obj);
      ghost var p, n := SplicePoint(links, headers, mill, headers[obj].gcSet, obj, Black);
      PutIn(links, headers, mill, obj, Black, p, n);
      var gcs := GetGCSet(obj);
      DLInsertAfter(sets[gcs].black, obj);
      headers := headers[obj := headers[obj].(color := Black)];
      mill := MillWith(mill, gcs, Black, obj);
    }

    /** Moves an object that is not free to the start of the white ones of its size class. */
    method ToWhite(obj: Address)
      requires Valid() && Movable(headers, mill, obj)
      modifies `links, `headers, `numGrey, `mill
      ensures Valid()
      ensures mill == MillWith(MillWithout(old(mill), obj), old(headers)[obj].gcSet, White, obj)
      ensures headers == old(headers)[obj := Recolored(old(headers)[obj], White)]
      // the object has its new color, and is the first of the objects of that color; all others are in the same order
      ensures headers == old(headers)[obj := old(headers)[obj].(color := White)]
      ensures var k := old(headers)[obj].gcSet;
              var was, now := old(mill).segments[k], mill.segments[k];
              && mill.greys == Without(old(mill).greys, obj)
              && now.white == [obj] + Without(was.white, obj)
              && now.black == Without(was.black, obj) && now.free == Without(was.free, obj)
    {
      hide Spinning, Complete, Spliced, Bypassed, RingAt, Without;
      if headers[obj].color.Grey? {
        numGrey := numGrey - 1;
      }
      TakenOut(links, headers, mill, obj);
      OutOfTheWay(links, headers, mill, obj);
      DLRemove(obj);
      mill := MillWithout(mill, obj);
      ghost var p, n := SplicePoint(links, headers, mill, headers[obj].gcSet, obj, White);
      PutIn(links, headers, mill, obj, White, p, n);
      var gcs := GetGCSet(obj);
      DLInsertAfter(sets[gcs].white, obj);
      headers := headers[obj := headers[obj].(color := White)];
      mill := MillWith(mill, gcs, White, obj);
    }

    /** Moves an object that is not free to the start of the free ones of its size class. */
    method Free(obj: Address)
      requires Valid() && Movable(headers, mill, obj)
      modifies `links, `headers, `numGrey, `free, `mill
      ensures Valid()
      ensures mill == MillWith(MillWithout(old(mill), obj), old(headers)[obj].gcSet, FreeColor, obj)
      ensures headers == old(headers)[obj := Recolored(old(headers)[obj], FreeColor)]
      // the object has its new color, and is the first of the objects of that color; all others are in the same order
      ensures headers == old(headers)[obj := old(headers)[obj].(color := FreeColor, size := 0)]
      ensures var k := old(headers)[obj].gcSet;
              var was, now := old(mill).segments[k], mill.segments[k];
              && mill.greys == Without(old(mill).greys, obj)
              && now.free == [obj] + Without(was.free, obj)
              && now.black == Without(was.black, obj) && now.white == Without(was.white, obj)
    {
      hide Spinning, Complete, Spliced, Bypassed, RingAt, Without;
      if headers[obj].color.Grey? {
        numGrey := numGrey - 1;
      }
      TakenOut(links, headers, mill, obj);
      OutOfTheWay(links, headers, mill, obj);
      DLRemove(obj);
      mill := MillWithout(mill, obj);
      ghost var p, n := SplicePoint(links, headers, mill, headers[obj].gcSet, obj, FreeColor);
      PutIn(links, headers, mill, obj, FreeColor, p, n);
      var gcs := GetGCSet(obj);
      DLInsertBefore(free[gcs], obj);
      free := free[gcs := obj];
      headers := headers[obj := headers[obj].(color := FreeColor, size := 0)];
      mill := MillWith(mill, gcs, FreeColor, obj);
    }
  }

  /** An object in a ring with others is not its own neighbour. */
  lemma OutOfTheWay(m: Links, h: Headers, w: Mill, x: Address)
    requires Spinning(m, h, w) && Complete(h, w, {}) && Movable(h, w, x) && x in m
    ensures m[x].prev != x && m[x].next != x
  {
    hide Without;
    var home := HomeOf(w, h[x]);
    assert Inside(h, w, x) && RingOk(m, h, w, home);
    MarkersStay(h, w, x);
    BigEnough(w, home, x);
    var ring := RingAt(w, home);
    var k :| 0 <= k < |ring| && ring[k] == x;
    assert Linked(m, ring, k);
  }

  /** Every object is in just one ring, and in one place of it. */
  lemma InOneRing(m: Links, h: Headers, w: Mill, x: Address)
    requires Spinning(m, h, w) && Complete(h, w, {}) && x in h
    ensures HomeOf(w, h[x]) <= |w.sets|
    ensures forall k :: 0 <= k <= |w.sets| ==> (x in RingAt(w, k) <==> k == HomeOf(w, h[x]))
    ensures forall k, i, j :: 0 <= k <= |w.sets| && 0 <= i < j < |RingAt(w, k)| && RingAt(w, k)[i] == x ==> RingAt(w, k)[j] != x
  {
    assert Inside(h, w, x);
    forall k | 0 <= k <= |w.sets|
      ensures x in RingAt(w, k) <==> k == HomeOf(w, h[x])
      ensures forall i, j :: 0 <= i < j < |RingAt(w, k)| && RingAt(w, k)[i] == x ==> RingAt(w, k)[j] != x
    {
      assert RingOk(m, h, w, k);
    }
  }

  /** The start of the free objects in a ring, or where the ring begins again. */
  ghost function FirstFree(w: Mill, k: nat): Address
    requires k < |w.sets| == |w.segments|
  {
    if w.segments[k].free == [] then w.sets[k].black else w.segments[k].free[0]
  }
}
