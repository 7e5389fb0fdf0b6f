/** The server's open-addressing hash table: linear probing, deletion by re-placing, resizing by re-adding. */
module HashTables {
  import opened Bits
  import opened Probing

  class HashTable<K(==,!new)> {
    var items: array<Cell<K>>
    var numItems: nat
    var maxItems: nat
    const canResize: bool

    ghost var contents: map<(int, K), Entry<K>>

    ghost predicate Valid()
      reads this, items
    {
      && IsPow2(items.Length) && items.Length == 2 * maxItems && numItems <= maxItems
      && Sound(items[..], contents) && Count(items[..]) == |contents| == numItems
    }

    constructor (max: nat, resizable: bool)
      requires IsPow2(max)
      ensures Valid() && fresh(items) && contents == map[] && maxItems == max && canResize == resizable
    {
      items := new Cell<K>[2 * max](_ => Hole);
      numItems, maxItems, canResize := 0, max, resizable;
      contents := map[];
      new;
      DoublePow2(max);
      EmptyTable(items[..]);
    }

    /** The slot of the entry with this hash and key, or else the hole where it would go. */
    method IndexFor(hash: int, key: K) returns (index: nat)
      requires IsPow2(items.Length) && Count(items[..]) < items.Length
      ensures index < items.Length && ProbeEnds(items[..], hash, key, index)
    {
      var n := items.Length;
      ghost var home := HomeSlot(hash, n);
      ghost var hole := HasHole(items[..]);
      index := HomeSlot(hash, n);
      while true
        invariant index < n && Dist(n, home, index) <= Dist(n, home, hole)
        invariant forall q :: 0 <= q < n && Dist(n, home, q) < Dist(n, home, index) ==>
                    items[q].Full? && !Same(items[q].entry, hash, key)
        decreases Dist(n, home, hole) - Dist(n, home, index)
      {
        var item := items[index];
        if item.Hole? { return; }
        if Same(item.entry, hash, key) { return; }
        NextWraps(index, n);
        index := Next(index, n);
      }
    }

    /** Puts an entry into the table, unless its hash and key are taken; makes room first if there is none. */
    method Add(item: Entry<K>) returns (added: bool)
      requires Valid()
      modifies this, items
      ensures Valid() && (items == old(items) || fresh(items))
      ensures var k := (item.hash, item.key);
              if old(numItems >= maxItems) && !canResize
              then !added && contents == old(contents)
              else contents == (if k in old(contents) then old(contents) else old(contents)[k := item])
                   && (added <==> contents[k] == item)
      ensures old(numItems < maxItems) ==> items == old(items) && maxItems == old(maxItems)
      decreases if numItems >= maxItems then 2 else 0
    {
      hide Sound, HomeSlot, ProbeEnds, IsPow2;
      if numItems >= maxItems {
        if !canResize { return false; }
        Resize();
      }
      Spare();
      var index := IndexFor(item.hash, item.key);
      ghost var s := items[..];
      SlotOf(s, contents, item.hash, item.key, index);
      if items[index].Full? {
        return items[index].entry == item;
      }
      items[index] := Full(item);
      assert items[..] == s[index := Full(item)];
      PutSound(s, contents, item, index);
      CountUpdate(s, index, Full(item));
      contents := contents[(item.hash, item.key) := item];
      numItems := numItems + 1;
      added := true;
    }

    /** Moves all entries to a table of at least twice the size. */
    method Resize()
      requires Valid() && numItems >= maxItems
      modifies this
      ensures Valid() && fresh(items) && contents == old(contents)
      ensures maxItems >= 2 * old(maxItems) && maxItems >= 16 && numItems == old(numItems)
      ensures items.Length == if 2 * old(items.Length) > 32 then 2 * old(items.Length) else 32
      decreases 1
    {
      hide Sound, HomeSlot, Upto, IsPow2, Count;
      var newSize := if 2 * items.Length >= 32 then 2 * items.Length else 32;
      var oldItems := items;
      ghost var s, m := items[..], contents;
      ResizedPow2(items.Length);
      items := new Cell<K>[newSize](_ => Hole);
      maxItems := newSize / 2;
      numItems := 0;
      contents := map[];
      EmptyTable(items[..]);
      UptoNone(s, m);
      for i := 0 to oldItems.Length
        invariant Valid() && fresh(items) && oldItems[..] == s && items.Length == newSize && Sound(s, m)
        invariant numItems <= i && contents == Upto(s, m, i)
      {
        UptoStep(s, m, i);
        var item := oldItems[i];
        if item.Full? {
          assert numItems < maxItems;
          var _ := Add(item.entry);
        }
      }
      UptoAll(s, m);
    }

    /** Takes an entry out, if it is this very entry that is there, and closes the gap. */
    method Remove(item: Entry<K>) returns (removed: bool)
      requires Valid()
      modifies this, items
      ensures Valid() && items == old(items) && maxItems == old(maxItems)
      ensures var k := (item.hash, item.key);
              && (removed <==> k in old(contents) && old(contents)[k] == item)
              && contents == if removed then old(contents) - {k} else old(contents)
    {
      hide HomeSlot, ProbeEnds, IsPow2, Holds, Repairing, Unique, AllReachable;
      Spare();
      var index := IndexFor(item.hash, item.key);
      ghost var s := items[..];
      SlotOf(s, contents, item.hash, item.key, index);
      if items[index] != Full(item) { return false; }
      items[index] := Hole;
      assert items[..] == s[index := Hole];
      RepairStarts(s, index);
      CountUpdate(s, index, Hole);
      contents := contents - {(item.hash, item.key)};
      TakenOut(s, old(contents), item, index);
      FixCollisionsFrom(index);
      numItems := numItems - 1;
      removed := true;
    }

    method SwapItems(i: nat, j: nat)
      requires i < items.Length && j < items.Length
      modifies items
      ensures items[..] == Exchanged(old(items[..]), i, j)
    {
      items[i], items[j] := items[j], items[i];
    }

    /** Re-places the entries behind an emptied slot until the next hole. */
    method FixCollisionsFrom(inIndex: nat)
      requires IsPow2(items.Length) && inIndex < items.Length && items[inIndex].Hole?
      requires Repairing(items[..], inIndex, 0) && Unique(items[..]) && Holds(items[..], contents)
      requires Count(items[..]) + 1 < items.Length
      modifies items
      ensures Sound(items[..], contents) && Count(items[..]) == old(Count(items[..]))
    {
      hide HomeSlot, ProbeEnds, IsPow2, Holds, Repairing, Unique, AllReachable, Next, Exchanged, At, Dist;
      var n := items.Length;
      ghost var hole := OtherHole(items[..], inIndex);
      ghost var stop := Dist(n, inIndex, hole);
      AtDist(n, inIndex, hole);
      var oldIndex := inIndex;
      ghost var t := 0;
      while true
        invariant t < stop < n && oldIndex == At(n, inIndex, t) && items[At(n, inIndex, stop)].Hole?
        invariant Repairing(items[..], inIndex, t) && Unique(items[..]) && Holds(items[..], contents)
        invariant Count(items[..]) == old(Count(items[..]))
        decreases stop - t
      {
        NextAt(n, inIndex, t);
        oldIndex := Next(oldIndex, n);
        var oldItem := items[oldIndex];
        if oldItem.Hole? {
          RepairEnds(items[..], inIndex, t);
          break;
        }
        ghost var s := items[..];
        var newIndex := IndexFor(oldItem.entry.hash, oldItem.entry.key);
        RepairStep(s, inIndex, t, stop, newIndex);
        SwapKeeps(s, contents, oldIndex, newIndex);
        GoalStays(s, inIndex, t, stop, newIndex);
        if oldIndex != newIndex { SwapItems(oldIndex, newIndex); }
        t := t + 1;
      }
    }

    method Get(hash: int, key: K) returns (item: Cell<K>)
      requires Valid()
      ensures item == if (hash, key) in contents then Full(contents[(hash, key)]) else Hole
    {
      Spare();
      var index := IndexFor(hash, key);
      SlotOf(items[..], contents, hash, key, index);
      item := items[index];
    }

    method RemoveKey(hash: int, key: K) returns (removed: bool)
      requires Valid()
      modifies this, items
      ensures Valid() && (removed <==> (hash, key) in old(contents)) && contents == old(contents) - {(hash, key)}
    {
      var item := Get(hash, key);
      if item.Hole? { return false; }
      KeyOfEntry(items[..], contents, hash, key);
      removed := Remove(item.entry);
    }

    method Includes(item: Entry<K>) returns (included: bool)
      requires Valid()
      ensures included <==> (item.hash, item.key) in contents && contents[(item.hash, item.key)] == item
    {
      var found := Get(item.hash, item.key);
      included := found == Full(item);
    }

    method MakeEmpty()
      requires Valid()
      modifies this, items
      ensures Valid() && contents == map[] && items == old(items)
    {
      hide Sound, Count;
      for i := 0 to items.Length
        invariant items == old(items) && IsPow2(items.Length) && items.Length == 2 * maxItems
        invariant forall j :: 0 <= j < i ==> items[j].Hole?
      {
        items[i] := Hole;
      }
      numItems := 0;
      contents := map[];
      EmptyTable(items[..]);
    }

    /** There is always a hole to end a probe. */
    lemma Spare()
      requires Valid()
      ensures Count(items[..]) < items.Length
    {
    }
  }

  /** What the slots of a table must look like to hold m. */
  ghost predicate Sound<K(!new)>(s: Table<K>, m: map<(int, K), Entry<K>>) {
    |s| > 0 && AllReachable(s) && Unique(s) && Holds(s, m)
  }

  lemma DoublePow2(n: nat)
    requires IsPow2(n)
    ensures IsPow2(2 * n) && n > 0
  {
    var k: nat :| n == Pow2(k);
    assert 2 * n == Pow2(k + 1);
  }

  lemma {:induction false} EmptyTable<K(!new)>(s: Table<K>)
    requires |s| > 0 && forall p :: 0 <= p < |s| ==> s[p].Hole?
    ensures Sound(s, map[]) && Count(s) == 0
  {
    NoneCounted(s);
  }

  lemma {:induction false} NoneCounted<K(!new)>(s: Table<K>)
    requires forall p :: 0 <= p < |s| ==> s[p].Hole?
    ensures Count(s) == 0
    decreases |s|
  {
    if s != [] { NoneCounted(s[..|s| - 1]); }
  }

  lemma ResizedPow2(n: nat)
    requires IsPow2(n)
    ensures var size := if 2 * n >= 32 then 2 * n else 32; IsPow2(size) && size % 2 == 0 && size / 2 >= n
  {
    DoublePow2(n);
    assert Pow2(5) == 32;
  }

  /** The slot that a probe ends at tells whether the key is there, and its entry. */
  lemma SlotOf<K(!new)>(s: Table<K>, m: map<(int, K), Entry<K>>, hash: int, key: K, p: nat)
    requires Sound(s, m) && p < |s| && ProbeEnds(s, hash, key, p)
    ensures s[p].Full? <==> (hash, key) in m
    ensures s[p].Full? ==> m[(hash, key)] == s[p].entry
  {
    if s[p].Full? {
      assert EntryIn(m, s[p].entry);
    } else if (hash, key) in m {
      assert EntryAt(s, m[(hash, key)]);
      var x :| 0 <= x < |s| && s[x] == Full(m[(hash, key)]);
      ProbeFindsAll(s, hash, key, p, x);
    }
  }

  lemma KeyOfEntry<K(!new)>(s: Table<K>, m: map<(int, K), Entry<K>>, hash: int, key: K)
    requires Sound(s, m) && (hash, key) in m
    ensures m[(hash, key)].hash == hash && m[(hash, key)].key == key
  {
  }

  /** Filling the hole at the end of a probe. */
  lemma PutSound<K(!new)>(s: Table<K>, m: map<(int, K), Entry<K>>, item: Entry<K>, p: nat)
    requires Sound(s, m) && p < |s| && s[p].Hole? && ProbeEnds(s, item.hash, item.key, p)
    ensures Sound(s[p := Full(item)], m[(item.hash, item.key) := item]) && (item.hash, item.key) !in m
  {
    hide HomeSlot;
    var s', m' := s[p := Full(item)], m[(item.hash, item.key) := item];
    SlotOf(s, m, item.hash, item.key, p);
    forall q | 0 <= q < |s'| && s'[q].Full? ensures Reachable(s', q) {
      if q != p { assert Reachable(s, q); }
    }
    PutUnique(s, m, item, p);
    forall q | 0 <= q < |s'| && s'[q].Full? ensures EntryIn(m', s'[q].entry) {
      if q != p {
        assert EntryIn(m, s[q].entry);
      }
    }
    forall k | k in m' ensures EntryAt(s', m'[k]) {
      if k != (item.hash, item.key) {
        assert EntryAt(s, m[k]);
        var q :| 0 <= q < |s| && s[q] == Full(m[k]);
        assert s'[q] == Full(m'[k]);
      } else {
        assert s'[p] == Full(m'[k]);
      }
    }
  }

  lemma PutUnique<K(!new)>(s: Table<K>, m: map<(int, K), Entry<K>>, item: Entry<K>, p: nat)
    requires Sound(s, m) && p < |s| && s[p].Hole? && (item.hash, item.key) !in m
    ensures Unique(s[p := Full(item)])
  {
    forall q | 0 <= q < |s| && s[q].Full? ensures !Same(s[q].entry, item.hash, item.key) {
      assert EntryIn(m, s[q].entry);
    }
  }

  /** Emptying the slot of an entry. */
  lemma TakenOut<K(!new)>(s: Table<K>, m: map<(int, K), Entry<K>>, item: Entry<K>, p: nat)
    requires Sound(s, m) && p < |s| && s[p] == Full(item)
    ensures Unique(s[p := Hole]) && Holds(s[p := Hole], m - {(item.hash, item.key)})
  {
    var s', m' := s[p := Hole], m - {(item.hash, item.key)};
    forall q | 0 <= q < |s'| && s'[q].Full? ensures EntryIn(m', s'[q].entry) {
      assert EntryIn(m, s[q].entry) && EntryIn(m, s[p].entry);
      assert !Same(s[q].entry, item.hash, item.key);
    }
    forall k | k in m' ensures EntryAt(s', m'[k]) {
      assert EntryAt(s, m[k]);
      var q :| 0 <= q < |s| && s[q] == Full(m[k]);
      assert s'[q] == Full(m'[k]);
    }
  }

  /** Exchanging two slots changes nothing of what the table holds. */
  lemma SwapKeeps<K(!new)>(s: Table<K>, m: map<(int, K), Entry<K>>, i: nat, j: nat)
    requires Unique(s) && Holds(s, m) && i < |s| && j < |s|
    ensures var s' := Exchanged(s, i, j); Unique(s') && Holds(s', m) && Count(s') == Count(s)
    ensures i == j ==> Exchanged(s, i, j) == s
  {
    hide Holds, Unique;
    CountUpdate(s, i, s[j]);
    CountUpdate(s[i := s[j]], j, s[i]);
    SwapUnique(s, i, j);
    SwapHolds(s, m, i, j);
  }

  lemma SwapUnique<K(!new)>(s: Table<K>, i: nat, j: nat)
    requires Unique(s) && i < |s| && j < |s|
    ensures Unique(Exchanged(s, i, j))
  {
    hide Exchanged;
    forall q | 0 <= q < |s| ensures Exchanged(s, i, j)[q] == s[Other(i, j, q)] { ExchangedAt(s, i, j, q); }
  }

  lemma SwapHolds<K(!new)>(s: Table<K>, m: map<(int, K), Entry<K>>, i: nat, j: nat)
    requires Holds(s, m) && i < |s| && j < |s|
    ensures Holds(Exchanged(s, i, j), m)
  {
    hide Exchanged;
    var s' := Exchanged(s, i, j);
    forall q | 0 <= q < |s| && s'[q].Full? ensures EntryIn(m, s'[q].entry) { ExchangedAt(s, i, j, q); }
    forall k | k in m ensures EntryAt(s', m[k]) {
      assert EntryAt(s, m[k]);
      var q :| 0 <= q < |s| && s[q] == Full(m[k]);
      ExchangedAt(s, i, j, Other(i, j, q));
    }
  }

  lemma ExchangedAt<K>(s: Table<K>, i: nat, j: nat, q: nat)
    requires i < |s| && j < |s| && q < |s|
    ensures Exchanged(s, i, j)[q] == s[Other(i, j, q)]
  {
  }

  ghost predicate Below<K>(s: Table<K>, e: Entry<K>, i: nat) {
    exists p :: 0 <= p < |s| && p < i && s[p] == Full(e)
  }

  /** What the slots below i hold. */
  ghost function Upto<K(!new)>(s: Table<K>, m: map<(int, K), Entry<K>>, i: nat): map<(int, K), Entry<K>> {
    map k | k in m && Below(s, m[k], i) :: m[k]
  }

  lemma UptoNone<K(!new)>(s: Table<K>, m: map<(int, K), Entry<K>>)
    ensures Upto(s, m, 0) == map[]
  {
  }

  lemma UptoAll<K(!new)>(s: Table<K>, m: map<(int, K), Entry<K>>)
    requires Sound(s, m)
    ensures Upto(s, m, |s|) == m
  {
    forall k | k in m ensures Below(s, m[k], |s|) { assert EntryAt(s, m[k]); }
  }

  lemma UptoStep<K(!new)>(s: Table<K>, m: map<(int, K), Entry<K>>, i: nat)
    requires Sound(s, m) && i < |s|
    ensures s[i].Hole? ==> Upto(s, m, i + 1) == Upto(s, m, i)
    ensures s[i].Full? ==>
              var e := s[i].entry;
              (e.hash, e.key) !in Upto(s, m, i) && Upto(s, m, i + 1) == Upto(s, m, i)[(e.hash, e.key) := e]
  {
    hide Below, Unique, Holds, AllReachable;
    forall k | k in m ensures Below(s, m[k], i + 1) <==> Below(s, m[k], i) || s[i] == Full(m[k]) {
      BelowStep(s, m[k], i);
    }
    if s[i].Full? { FirstOccurrence(s, m, i); }
  }

  lemma BelowStep<K>(s: Table<K>, e: Entry<K>, i: nat)
    requires i < |s|
    ensures Below(s, e, i + 1) <==> Below(s, e, i) || s[i] == Full(e)
  {
    if Below(s, e, i + 1) {
      var p :| 0 <= p < |s| && p < i + 1 && s[p] == Full(e);
      assert p == i || p < i;
    }
  }

  lemma FirstOccurrence<K(!new)>(s: Table<K>, m: map<(int, K), Entry<K>>, i: nat)
    requires Sound(s, m) && i < |s| && s[i].Full?
    ensures var e := s[i].entry; EntryIn(m, e) && !Below(s, e, i) && forall k :: k in m && m[k] == e ==> k == (e.hash, e.key)
  {
    var e := s[i].entry;
    forall p | 0 <= p < |s| && p < i && s[p].Full? ensures s[p] != Full(e) {
      assert !Same(s[p].entry, e.hash, e.key);
    }
  }
}
