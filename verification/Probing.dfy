/**
  Linear probing on a circular table: paths, holes, and what it takes for every item to be found.
 */
module Probing {
  import opened Bits

  /** An item as the table sees it: `id` tells objects apart that have the same hash and key. */
  datatype Entry<K(==)> = Entry(id: int, hash: int, key: K)

  datatype Cell<K(==)> = Hole | Full(entry: Entry<K>)

  type Table<K(==)> = seq<Cell<K>>

  /** `hash & mask`, for a mask of size - 1; negative hashes are taken as their 32-bit pattern. */
  function HomeSlot(hash: int, size: nat): (i: nat)
    requires size > 0
    ensures i < size
  {
    AndAtMost(hash % WORD_LIMIT, size - 1);
    And(hash % WORD_LIMIT, size - 1)
  }

  /** `(index + 1) & mask` */
  function Next(i: nat, size: nat): (j: nat)
    requires size > 0
    ensures j < size
  {
    AndAtMost(i + 1, size - 1);
    And(i + 1, size - 1)
  }

  lemma {:induction false} AndAtMost(w: nat, v: nat)
    ensures And(w, v) <= v
    decreases w
  {
    if w > 0 { AndAtMost(w / 2, v / 2); }
  }

  ghost predicate IsPow2(n: nat) { exists k: nat :: n == Pow2(k) }

  /** Masking is taking the remainder by a power of two. */
  lemma {:induction false} AndMask(w: nat, k: nat)
    ensures And(w, Pow2(k) - 1) == w % Pow2(k)
    decreases k
  {
    hide And;
    if k == 0 {
      AndZero(w);
      ModOne(w);
    } else {
      var p := Pow2(k - 1);
      AndMask(w / 2, k - 1);
      AndOdd(w, p);
      assert Pow2(k) == 2 * p;
      HalfMod(w, p);
    }
  }

  lemma AndOdd(w: nat, p: nat)
    requires p > 0
    ensures And(w, 2 * p - 1) == 2 * And(w / 2, p - 1) + w % 2
  {
    assert (2 * p - 1) / 2 == p - 1 && (2 * p - 1) % 2 == 1;
  }

  lemma ModOne(w: nat)
    ensures w % 1 == 0
  {
  }

  /** On a table whose size is a power of two, the next slot wraps around at the end. */
  lemma NextWraps(i: nat, size: nat)
    requires IsPow2(size) && i < size
    ensures Next(i, size) == if i + 1 == size then 0 else i + 1
  {
    var k: nat :| size == Pow2(k);
    AndMask(i + 1, k);
    if i + 1 == size {
      DivideUnique(i + 1, size, 1, 0);
    } else {
      DivideUnique(i + 1, size, 0, i + 1);
    }
  }

  /** On such a table, the probe for a hash starts at its 32-bit pattern modulo the size. */
  lemma HomeIsRemainder(hash: int, size: nat)
    requires IsPow2(size) && size > 0
    ensures HomeSlot(hash, size) == hash % 0x1_0000_0000 % size
  {
    var k: nat :| size == Pow2(k);
    AndMask(hash % WORD_LIMIT, k);
  }

  // ---- paths ----

  /** How far b lies behind a, going round. */
  function Dist(n: nat, a: nat, b: nat): (d: nat)
    requires a < n && b < n
    ensures d < n
  {
    if a <= b then b - a else b + n - a
  }

  /** The slot d places behind a. */
  function At(n: nat, a: nat, d: nat): (b: nat)
    requires a < n && d <= n
    ensures b < n
  {
    if a + d < n then a + d else a + d - n
  }

  lemma AtDist(n: nat, a: nat, b: nat)
    requires a < n && b < n
    ensures At(n, a, 0) == a && At(n, a, Dist(n, a, b)) == b && (a != b ==> Dist(n, a, b) > 0)
  {
  }

  lemma NextAt(n: nat, a: nat, d: nat)
    requires IsPow2(n) && a < n && d < n
    ensures Next(At(n, a, d), n) == At(n, a, d + 1)
  {
    hide Next;
    NextWraps(At(n, a, d), n);
  }

  predicate Same<K(==)>(e: Entry<K>, hash: int, key: K) { e.hash == hash && e.key == key }

  /** No hole lies on the way from home to p. */
  ghost predicate Unbroken<K>(s: Table<K>, home: nat, p: nat)
    requires home < |s| && p < |s|
  {
    forall q :: 0 <= q < |s| && Dist(|s|, home, q) < Dist(|s|, home, p) ==> s[q].Full?
  }

  ghost predicate Reachable<K>(s: Table<K>, p: nat)
    requires p < |s| && s[p].Full?
  {
    Unbroken(s, HomeSlot(s[p].entry.hash, |s|), p)
  }

  ghost predicate AllReachable<K>(s: Table<K>) {
    forall p :: 0 <= p < |s| && s[p].Full? ==> Reachable(s, p)
  }

  /** No two entries have the same hash and key. */
  ghost predicate Unique<K>(s: Table<K>) {
    forall p, q :: 0 <= p < |s| && 0 <= q < |s| && s[p].Full? && s[q].Full? && p != q ==>
      !Same(s[p].entry, s[q].entry.hash, s[q].entry.key)
  }

  /** Where a probe for hash and key ends: at the first slot from home that is a hole or has that key. */
  ghost predicate ProbeEnds<K>(s: Table<K>, hash: int, key: K, p: nat)
    requires p < |s|
  {
    var home := HomeSlot(hash, |s|);
    && (s[p].Full? ==> Same(s[p].entry, hash, key))
    && (forall q :: 0 <= q < |s| && Dist(|s|, home, q) < Dist(|s|, home, p) ==>
          s[q].Full? && !Same(s[q].entry, hash, key))
  }

  /** When all entries are reachable, a probe that ends in a hole means the key is nowhere. */
  lemma ProbeFindsAll<K>(s: Table<K>, hash: int, key: K, p: nat, x: nat)
    requires AllReachable(s) && p < |s| && ProbeEnds(s, hash, key, p)
    requires x < |s| && s[x].Full? && Same(s[x].entry, hash, key)
    ensures p == x || (s[p].Full? && Same(s[p].entry, hash, key))
  {
    assert Reachable(s, x);
    var home := HomeSlot(hash, |s|);
    if Dist(|s|, home, p) < Dist(|s|, home, x) {
      assert s[p].Full?;
    }
  }

  // ---- counting ----

  ghost function Count<K(!new)>(s: Table<K>): (c: nat)
    ensures c <= |s|
  {
    if s == [] then 0 else (if s[|s| - 1].Full? then 1 else 0) + Count(s[..|s| - 1])
  }

  lemma {:induction false} CountUpdate<K(!new)>(s: Table<K>, i: nat, c: Cell<K>)
    requires i < |s|
    ensures Count(s[i := c]) == Count(s) - (if s[i].Full? then 1 else 0) + (if c.Full? then 1 else 0)
    decreases |s|
  {
    var t := s[i := c];
    if i < |s| - 1 {
      assert t[..|s| - 1] == s[..|s| - 1][i := c];
      CountUpdate(s[..|s| - 1], i, c);
    } else {
      assert t[..|s| - 1] == s[..|s| - 1];
    }
  }

  /** A table that is not full has a hole, at a slot other than a given hole if there are two to spare. */
  lemma {:induction false} HasHole<K(!new)>(s: Table<K>) returns (p: nat)
    requires Count(s) < |s|
    ensures p < |s| && s[p].Hole?
    decreases |s|
  {
    if s[|s| - 1].Hole? {
      p := |s| - 1;
    } else {
      p := HasHole(s[..|s| - 1]);
    }
  }

  lemma {:induction false} OtherHole<K(!new)>(s: Table<K>, i: nat) returns (p: nat)
    requires i < |s| && s[i].Hole? && Count(s) + 1 < |s|
    ensures p < |s| && p != i && s[p].Hole?
    decreases |s|
  {
    var last := |s| - 1;
    if i == last {
      p := HasHole(s[..last]);
    } else if s[last].Hole? {
      p := last;
    } else {
      p := OtherHole(s[..last], i);
    }
  }

  // ---- what a table holds ----

  /** The table holds exactly the entries of m, each under its hash and key. */
  ghost predicate Holds<K>(s: Table<K>, m: map<(int, K), Entry<K>>) {
    && (forall p :: 0 <= p < |s| && s[p].Full? ==> EntryIn(m, s[p].entry))
    && (forall k :: k in m ==> EntryAt(s, m[k]) && (m[k].hash, m[k].key) == k)
  }

  ghost predicate EntryIn<K>(m: map<(int, K), Entry<K>>, e: Entry<K>) {
    (e.hash, e.key) in m && m[(e.hash, e.key)] == e
  }

  ghost predicate EntryAt<K>(s: Table<K>, e: Entry<K>) {
    exists p :: 0 <= p < |s| && s[p] == Full(e)
  }

  // ---- closing the gap that a removal leaves ----

  function Exchanged<K>(s: Table<K>, i: nat, j: nat): (s': Table<K>)
    requires i < |s| && j < |s|
    ensures |s'| == |s|
  {
    s[i := s[j]][j := s[i]]
  }

  /** Where the slot q of an exchanged table comes from. */
  function Other(i: nat, j: nat, q: nat): nat {
    if q == i then j else if q == j then i else q
  }

  /**
    The state between two steps of the repair that starts behind the emptied slot `start`: entries up to t places
    behind it can be reached; on the way to all others there are no holes but in those first t places.
   */
  ghost predicate Repairing<K>(s: Table<K>, start: nat, t: nat)
    requires start < |s|
  {
    forall p :: 0 <= p < |s| && s[p].Full? ==> RepairOk(s, start, t, p)
  }

  ghost predicate RepairOk<K>(s: Table<K>, start: nat, t: nat, p: nat)
    requires start < |s| && p < |s| && s[p].Full?
  {
    var n, home := |s|, HomeSlot(s[p].entry.hash, |s|);
    forall q :: 0 <= q < n && Dist(n, home, q) < Dist(n, home, p) && s[q].Hole? ==>
      Dist(n, start, q) <= t < Dist(n, start, p)
  }

  /** Emptying a slot opens a gap. */
  lemma RepairStarts<K>(s: Table<K>, start: nat)
    requires AllReachable(s) && start < |s|
    ensures Repairing(s[start := Hole], start, 0)
  {
    var s' := s[start := Hole];
    forall p | 0 <= p < |s'| && s'[p].Full? ensures RepairOk(s', start, 0, p) {
      assert Reachable(s, p);
    }
  }

  /** When the repair meets a hole right behind what it has done, everything can be reached. */
  lemma RepairEnds<K>(s: Table<K>, start: nat, t: nat)
    requires start < |s| && t + 1 < |s| && Repairing(s, start, t) && s[At(|s|, start, t + 1)].Hole?
    ensures AllReachable(s)
  {
    var n, stop := |s|, At(|s|, start, t + 1);
    forall p | 0 <= p < n && s[p].Full? ensures Reachable(s, p) {
      var home := HomeSlot(s[p].entry.hash, n);
      assert RepairOk(s, start, t, p);
      forall q | 0 <= q < n && Dist(n, home, q) < Dist(n, home, p) ensures s[q].Full? {
        Between(n, home, start, q, stop, p);
      }
    }
  }

  /** On the way from home to p, after q and on to p, one passes whatever lies between them as seen from start. */
  lemma Between(n: nat, home: nat, start: nat, q: nat, x: nat, p: nat)
    requires home < n && start < n && q < n && x < n && p < n
    requires Dist(n, home, q) < Dist(n, home, p)
    ensures Dist(n, start, q) < Dist(n, start, x) < Dist(n, start, p) ==> Dist(n, home, x) < Dist(n, home, p)
    ensures Dist(n, start, p) < Dist(n, start, q) < Dist(n, start, x) ==> Dist(n, home, x) < Dist(n, home, p)
  {
  }

  /** The next entry, put to where a probe for it ends, is one more that can be reached. */
  lemma RepairStep<K>(s: Table<K>, start: nat, t: nat, stop: nat, x: nat)
    requires start < |s| && t + 1 < stop < |s| && Repairing(s, start, t) && Unique(s)
    requires s[At(|s|, start, stop)].Hole?
    requires var j := At(|s|, start, t + 1);
             x < |s| && s[j].Full? && ProbeEnds(s, s[j].entry.hash, s[j].entry.key, x)
    ensures var j := At(|s|, start, t + 1);
            && (x == j || (s[x].Hole? && Dist(|s|, start, x) <= t))
            && Repairing(Exchanged(s, j, x), start, t + 1)
  {
    var n, j := |s|, At(|s|, start, t + 1);
    var home := HomeSlot(s[j].entry.hash, n);
    assert RepairOk(s, start, t, j);
    assert x == j || s[x].Hole?;
    assert Dist(n, home, x) <= Dist(n, home, j);
    var s' := Exchanged(s, j, x);
    forall p | 0 <= p < n && s'[p].Full? ensures RepairOk(s', start, t + 1, p) {
      RepairStepAt(s, start, t, stop, x, p);
    }
  }

  /** The hole that ends the repair stays where it is. */
  lemma GoalStays<K>(s: Table<K>, start: nat, t: nat, stop: nat, x: nat)
    requires start < |s| && t + 1 < stop < |s| && x < |s| && s[At(|s|, start, stop)].Hole?
    requires x == At(|s|, start, t + 1) || Dist(|s|, start, x) <= t
    ensures Exchanged(s, At(|s|, start, t + 1), x)[At(|s|, start, stop)].Hole?
  {
  }

  lemma RepairStepAt<K>(s: Table<K>, start: nat, t: nat, stop: nat, x: nat, p: nat)
    requires start < |s| && t + 1 < stop < |s| && Repairing(s, start, t) && p < |s| && x < |s|
    requires s[At(|s|, start, stop)].Hole?
    requires var j := At(|s|, start, t + 1);
             && s[j].Full? && ProbeEnds(s, s[j].entry.hash, s[j].entry.key, x)
             && (x == j || (s[x].Hole? && Dist(|s|, start, x) <= t))
             && Exchanged(s, j, x)[p].Full?
    ensures var j := At(|s|, start, t + 1);
            RepairOk(Exchanged(s, j, x), start, t + 1, p)
  {
    hide HomeSlot;
    var n, j := |s|, At(|s|, start, t + 1);
    var s' := Exchanged(s, j, x);
    if p == x {
      ProbedOk(s, start, t, x);
    } else {
      assert s'[p] == s[p] && RepairOk(s, start, t, p);
      StaysOk(s, start, t, stop, x, p);
    }
  }

  /** The entry that was moved has no hole on its way. */
  lemma ProbedOk<K>(s: Table<K>, start: nat, t: nat, x: nat)
    requires start < |s| && t + 1 < |s| && x < |s|
    requires var j := At(|s|, start, t + 1);
             && s[j].Full? && ProbeEnds(s, s[j].entry.hash, s[j].entry.key, x)
             && (x == j || (s[x].Hole? && Dist(|s|, start, x) <= t))
    ensures var j := At(|s|, start, t + 1);
            RepairOk(Exchanged(s, j, x), start, t + 1, x)
  {
    hide HomeSlot;
    var n, j := |s|, At(|s|, start, t + 1);
    var s', home := Exchanged(s, j, x), HomeSlot(s[j].entry.hash, |s|);
    forall q | 0 <= q < n && Dist(n, home, q) < Dist(n, home, x) ensures s'[q].Full? {
      assert s[q].Full?;
    }
  }

  /** The entries that stay keep their way clear, or get at most the hole that the moved entry leaves. */
  lemma StaysOk<K>(s: Table<K>, start: nat, t: nat, stop: nat, x: nat, p: nat)
    requires start < |s| && t + 1 < stop < |s| && p < |s| && x < |s| && s[At(|s|, start, stop)].Hole?
    requires s[p].Full? && RepairOk(s, start, t, p) && s[At(|s|, start, t + 1)].Full?
    requires var j := At(|s|, start, t + 1); p != x && p != j && (x == j || s[x].Hole?)
    ensures var j := At(|s|, start, t + 1);
            var s' := Exchanged(s, j, x); s'[p].Full? && RepairOk(s', start, t + 1, p)
  {
    hide HomeSlot;
    var n, j, far := |s|, At(|s|, start, t + 1), At(|s|, start, stop);
    var s', home := Exchanged(s, j, x), HomeSlot(s[p].entry.hash, |s|);
    forall q | 0 <= q < n && Dist(n, home, q) < Dist(n, home, p) && s'[q].Hole?
      ensures Dist(n, start, q) <= t + 1 < Dist(n, start, p)
    {
      Between(n, home, start, q, far, p);
      assert q != j ==> s[q].Hole?;
    }
  }
}
