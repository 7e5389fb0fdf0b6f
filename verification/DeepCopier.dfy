/**
  Deep copying of an object graph that may share and cycle: number the objects that can be reached, copying all but
  those of a few kinds, then redirect the slots of the copies through the numbers.
 */
module DeepCopiers {
  import opened ObjectGraph

  const INITIAL_CAPACITY := 32

  /** The kinds that a deep copy shares with the original. */
  const SHARED: set<Kind> := {ClassKind, ProcessKind, InterpreterKind, FunctionKind, MethodKind, ThreadKind}

  /** Every child that the copier finds is numbered. */
  const COPYING := Walk(SHARED, {})

  // ---- the numbering ----

  /** A marked object knows its place in the table, which holds its stand-in there. */
  ghost predicate Numbered(s0: Store, s: Store, table: seq<Ref>, o: Ref)
    requires o in s0 && o in s
  {
    s[o].marked ==>
      var k := s[o].scratch;
      if s0[o].kind in SHARED then 0 <= k < |table| && table[k] == o
      else
        && 0 <= k < |table| - 1 && table[k + 1] == o
        && table[k] !in s0 && table[k] in s && s[table[k]] == s0[o].(marked := false, scratch := s[table[k]].scratch)
  }

  /** An entry is an object that stands for itself, or a copy followed by its original. */
  ghost predicate Entry(s0: Store, s: Store, table: seq<Ref>, k: nat)
    requires k < |table|
  {
    var o := table[k];
    && o in s
    && if o in s0 then s[o].marked && s[o].scratch == (if s0[o].kind in SHARED then k else k - 1)
       else k + 1 < |table| && table[k + 1] in s0 && table[k + 1] in s && s0[table[k + 1]].kind !in SHARED
            && s[table[k + 1]].marked && s[table[k + 1]].scratch == k
  }

  ghost predicate Numbering(s0: Store, s: Store, table: seq<Ref>) {
    && (forall o {:trigger Intact(s0, s, o)} :: o in s0 ==> Intact(s0, s, o))
    && (forall o {:trigger Numbered(s0, s, table, o)} :: o in s0 && o in s ==> Numbered(s0, s, table, o))
    && (forall k {:trigger Entry(s0, s, table, k)} :: 0 <= k < |table| ==> Entry(s0, s, table, k))
    && AllDistinct(table)
  }

  /** An unmarked original is not in the table, nor is anything that does not exist. */
  lemma NotListed(s0: Store, s: Store, table: seq<Ref>, o: Ref)
    requires Numbering(s0, s, table) && (o in s ==> o in s0 && !s[o].marked)
    ensures o !in table
  {
    forall k | 0 <= k < |table|
      ensures table[k] != o
    {
      assert Entry(s0, s, table, k);
    }
  }

  lemma PutSelfNumbers(s0: Store, s: Store, table: seq<Ref>, o: Ref)
    requires Numbering(s0, s, table) && o in s0 && o in s && !s[o].marked && s0[o].kind in SHARED
    ensures Numbering(s0, s[o := s[o].(marked := true, scratch := |table|)], table + [o])
    ensures Marked(s0, s[o := s[o].(marked := true, scratch := |table|)]) == Marked(s0, s) + {o}
  {
    var s', table' := s[o := s[o].(marked := true, scratch := |table|)], table + [o];
    forall p | p in s0
      ensures Intact(s0, s', p) && Numbered(s0, s', table', p)
    {
      assert Intact(s0, s, p) && Numbered(s0, s, table, p);
    }
    forall k | 0 <= k < |table'|
      ensures Entry(s0, s', table', k)
    {
      assert k < |table| ==> Entry(s0, s, table, k);
    }
    NotListed(s0, s, table, o);
  }

  lemma PutCopyNumbers(s0: Store, s: Store, table: seq<Ref>, o: Ref, copy: Ref, copied: Object)
    requires Numbering(s0, s, table) && o in s0 && o in s && !s[o].marked && s0[o].kind !in SHARED
    requires copy !in s && copied == s0[o].(marked := false, scratch := copied.scratch)
    ensures var s' := s[o := s[o].(marked := true, scratch := |table|)][copy := copied];
            Numbering(s0, s', table + [copy, o]) && Marked(s0, s') == Marked(s0, s) + {o}
  {
    var s', table' := s[o := s[o].(marked := true, scratch := |table|)][copy := copied], table + [copy, o];
    assert copy in s0 ==> Intact(s0, s, copy);
    NotListed(s0, s, table, o);
    NotListed(s0, s, table, copy);
    forall p | p in s0
      ensures Intact(s0, s', p) && Numbered(s0, s', table', p)
    {
      assert Intact(s0, s, p) && Numbered(s0, s, table, p);
    }
    forall k | 0 <= k < |table'|
      ensures Entry(s0, s', table', k)
    {
      assert k < |table| ==> Entry(s0, s, table, k);
    }
  }

  // ---- the result ----

  /** What stands in the copy for each object that was reached. */
  ghost function StandIns(s0: Store, s: Store, table: seq<Ref>): map<Ref, Ref>
    requires Numbering(s0, s, table)
  {
    map o | o in Marked(s0, s) :: StandIn(s0, s, table, o)
  }

  ghost function StandIn(s0: Store, s: Store, table: seq<Ref>, o: Ref): Ref
    requires Numbering(s0, s, table) && o in Marked(s0, s)
  {
    assert Numbered(s0, s, table, o);
    table[s[o].scratch]
  }

  function Redirect(image: map<Ref, Ref>, slot: Slot): Slot {
    if slot.Obj? && slot.ref in image then Obj(image[slot.ref]) else slot
  }

  function RedirectAll(image: map<Ref, Ref>, slots: seq<Slot>): (redirected: seq<Slot>)
    ensures |redirected| == |slots|
    ensures forall i :: 0 <= i < |slots| ==> redirected[i] == Redirect(image, slots[i])
  {
    seq(|slots|, i requires 0 <= i < |slots| => Redirect(image, slots[i]))
  }

  function RedirectBody(image: map<Ref, Ref>, body: Body): Body {
    if body.Slots? then Slots(RedirectAll(image, body.slots)) else body
  }

  /**
    The result of a deep copy of `root`: every object that it reaches has a stand-in of its own, which is the object
    itself for the shared kinds and otherwise a new object like it whose slots refer to the stand-ins.
   */
  ghost predicate IsDeepCopy(s0: Store, s: Store, root: Ref, image: map<Ref, Ref>) {
    && (forall o :: o in image <==> Reaches(s0, SHARED, root, o))
    && (forall o :: o in image ==> o in s0 && image[o] in s)
    && (forall o :: o in image && s0[o].kind in SHARED ==> image[o] == o)
    && (forall o :: o in image && s0[o].kind !in SHARED ==>
          image[o] !in s0
          && s[image[o]] == s0[o].(body := RedirectBody(image, s0[o].body), marked := false,
                                   scratch := s[image[o]].scratch))
    && (forall o, p :: o in image && p in image && image[o] == image[p] ==> o == p)
  }

  /** The objects that were there before are as they were, with no mark left; only scratch1 may differ. */
  ghost predicate OriginalsKept(s0: Store, s: Store) {
    forall o :: o in s0 ==> o in s && s[o] == s0[o].(scratch := s[o].scratch)
  }

  // ---- what a deep copy means ----

  /**
    The same in terms of the objects themselves. What is reached without entering an object of a shared kind has an
    image of its own; classes, the process, the interpreter, functions, methods and threads are their own images.
   */
  ghost predicate CopiedByKind(s0: Store, s: Store, root: Ref, image: map<Ref, Ref>) {
    && (forall o :: o in image <==>
          Reaches(s0, {ClassKind, ProcessKind, InterpreterKind, FunctionKind, MethodKind, ThreadKind}, root, o))
    && (forall o :: o in image ==> o in s0 && image[o] in s && CopiedOrShared(s0, s, image, o))
    && (forall o, p :: o in image && p in image && o != p ==> image[o] != image[p])
  }

  ghost predicate CopiedOrShared(s0: Store, s: Store, image: map<Ref, Ref>, o: Ref)
    requires o in image && o in s0 && image[o] in s
  {
    match s0[o].kind
    case ClassKind => image[o] == o
    case ProcessKind => image[o] == o
    case InterpreterKind => image[o] == o
    case FunctionKind => image[o] == o
    case MethodKind => image[o] == o
    case ThreadKind => image[o] == o
    case FrameKind => CopiedElements(s0, s, image, o)
    case ArrayKind => CopiedElements(s0, s, image, o)
    case PlainKind => CopiedElements(s0, s, image, o)
    case RawArrayKind => CopiedElements(s0, s, image, o)
  }

  /** A new object with the same elements, but for those that are objects, which are the images of these. */
  ghost predicate CopiedElements(s0: Store, s: Store, image: map<Ref, Ref>, o: Ref)
    requires o in image && o in s0 && image[o] in s
  {
    var obj, copy := s0[o], s[image[o]];
    && image[o] !in s0 && copy.cls == obj.cls && copy.kind == obj.kind && !copy.marked
    && if obj.body.Slots? then
         && copy.body.Slots? && |copy.body.slots| == |obj.body.slots|
         && forall i {:trigger obj.body.slots[i]} :: 0 <= i < |obj.body.slots| ==>
              var slot := obj.body.slots[i];
              if slot.Obj? then slot.ref in image && copy.body.slots[i] == Obj(image[slot.ref])
              else copy.body.slots[i] == slot
       else copy.body == obj.body
  }

  lemma DeepCopyByKind(s0: Store, s: Store, root: Ref, image: map<Ref, Ref>)
    requires WellFormed(s0) && IsDeepCopy(s0, s, root, image)
    ensures CopiedByKind(s0, s, root, image)
  {
    hide Reaches, WellFormed;
    assert SHARED == {ClassKind, ProcessKind, InterpreterKind, FunctionKind, MethodKind, ThreadKind};
    forall o | o in image ensures CopiedOrShared(s0, s, image, o) {
      WellFormedAt(s0, o);
      if s0[o].kind !in SHARED && s0[o].body.Slots? {
        var slots := s0[o].body.slots;
        forall i | 0 <= i < |slots| && slots[i].Obj? ensures slots[i].ref in image {
          assert Child(s0, SHARED, o, slots[i].ref);
          ReachesChild(s0, SHARED, root, o, slots[i].ref);
        }
      }
    }
  }

  /** Where a walk through the original ends, a walk along the same slots of the copy ends at the stand-in. */
  lemma {:induction false} CopyFollowsOriginal(s0: Store, s: Store, root: Ref, image: map<Ref, Ref>, slot: Slot, path: seq<nat>)
    requires WellFormed(s0) && IsDeepCopy(s0, s, root, image) && OriginalsKept(s0, s)
    requires slot.Obj? ==> slot.ref in image
    ensures var end := Follow(s0, SHARED, slot, path);
            && Follow(s, SHARED, Redirect(image, slot), path) == RedirectEnd(image, end)
            && (end.At? && end.slot.Obj? ==> end.slot.ref in image)
    decreases |path|
  {
    if path != [] && slot.Obj? && s0[slot.ref].kind !in SHARED && s0[slot.ref].body.Slots?
       && path[0] < |s0[slot.ref].body.slots| {
      var o, next := slot.ref, s0[slot.ref].body.slots[path[0]];
      assert ObjectOk(s0, o);
      if next.Obj? {
        assert Child(s0, SHARED, o, next.ref);
        ReachesChild(s0, SHARED, root, o, next.ref);
      }
      CopyFollowsOriginal(s0, s, root, image, next, path[1..]);
    }
  }

  function RedirectEnd(image: map<Ref, Ref>, end: End): End {
    if end.At? then At(Redirect(image, end.slot)) else end
  }

  /** Two walks meet in one object of the copy just when they meet in one object of the original. */
  lemma SharingKept(s0: Store, s: Store, root: Ref, image: map<Ref, Ref>, left: seq<nat>, right: seq<nat>)
    requires WellFormed(s0) && root in s0 && IsDeepCopy(s0, s, root, image) && OriginalsKept(s0, s)
    ensures root in image
    ensures Follow(s0, SHARED, Obj(root), left) == Follow(s0, SHARED, Obj(root), right)
            <==> Follow(s, SHARED, Obj(image[root]), left) == Follow(s, SHARED, Obj(image[root]), right)
  {
    ReachesItself(s0, SHARED, root);
    CopyFollowsOriginal(s0, s, root, image, Obj(root), left);
    CopyFollowsOriginal(s0, s, root, image, Obj(root), right);
  }

  // ---- redirecting the copies ----

  /** The store after the copies among some refs have had their slots redirected. */
  ghost function Fixed(s: Store, image: map<Ref, Ref>, refs: seq<Ref>): Store {
    map r | r in s :: if r in refs then FixedObject(image, s[r]) else s[r]
  }

  ghost function FixedObject(image: map<Ref, Ref>, obj: Object): Object {
    if obj.marked then obj else obj.(body := RedirectBody(image, obj.body))
  }

  /** The store after the marks of some objects have been cleared. */
  ghost function Cleared(s: Store, refs: seq<Ref>): Store {
    map r | r in s :: if r in refs then s[r].(marked := false) else s[r]
  }

  /** A child of a finished object knows its stand-in. */
  lemma KidHasStandIn(s0: Store, s: Store, table: seq<Ref>, o: Ref, kid: Ref)
    requires Numbering(s0, s, table) && o in Marked(s0, s) && KidsMarked(s0, COPYING, s, o) && Child(s0, SHARED, o, kid)
    ensures kid in Marked(s0, s) && 0 <= s[kid].scratch < |table|
    ensures table[s[kid].scratch] == StandIns(s0, s, table)[kid]
  {
    assert Numbered(s0, s, table, kid);
  }

  lemma Listed(s0: Store, s: Store, table: seq<Ref>, o: Ref)
    requires Numbering(s0, s, table) && o in s0 && o in s
    ensures o in table <==> s[o].marked
  {
    if s[o].marked { assert Numbered(s0, s, table, o); } else { NotListed(s0, s, table, o); }
  }

  /** Where the stand-in of an object is, and what it is once it is redirected and no longer marked. */
  lemma StandInOf(s0: Store, s: Store, table: seq<Ref>, o: Ref)
    requires Numbering(s0, s, table) && o in Marked(s0, s)
    ensures var image := StandIns(s0, s, table);
            var s' := Cleared(Fixed(s, image, table), table);
            && image[o] in s' && image[o] == StandIn(s0, s, table, o)
            && if s0[o].kind in SHARED then image[o] == o
               else
                 && image[o] !in s0
                 && s'[image[o]] == s0[o].(body := RedirectBody(image, s0[o].body), marked := false,
                                           scratch := s'[image[o]].scratch)
  {
    assert Numbered(s0, s, table, o);
    assert StandIn(s0, s, table, o) in table;
  }

  /** Different objects have different stand-ins. */
  lemma StandInsDiffer(s0: Store, s: Store, table: seq<Ref>, o: Ref, p: Ref)
    requires Numbering(s0, s, table) && o in Marked(s0, s) && p in Marked(s0, s)
    requires StandIn(s0, s, table, o) == StandIn(s0, s, table, p)
    ensures o == p
  {
    assert Numbered(s0, s, table, o) && Numbered(s0, s, table, p);
    var j, k := s[o].scratch, s[p].scratch;
    assert table[j] == table[k];
    assert j == k;
  }

  /** Numbering everything from the root, redirecting the copies and clearing the marks makes a deep copy. */
  lemma NumberedFixedCleared(s0: Store, s: Store, root: Ref, table: seq<Ref>)
    requires Numbering(s0, s, table) && Marked(s0, s0) == {} && Extends(s0, COPYING, root, s0, s) && root in Marked(s0, s)
    ensures var image := StandIns(s0, s, table);
            var s' := Cleared(Fixed(s, image, table), table);
            IsDeepCopy(s0, s', root, image) && OriginalsKept(s0, s')
  {
    hide Numbering, Extends, RedirectBody;
    var image := StandIns(s0, s, table);
    var s' := Cleared(Fixed(s, image, table), table);
    MarksAreReached(s0, COPYING, root, s);
    forall o | o in image {
      StandInOf(s0, s, table, o);
    }
    forall o, p | o in image && p in image && image[o] == image[p] {
      StandInsDiffer(s0, s, table, o, p);
    }
    forall o | o in s0
      ensures o in s' && s'[o] == s0[o].(scratch := s'[o].scratch)
    {
      IntactOf(s0, s, table, o);
      assert o !in Marked(s0, s0);
      Listed(s0, s, table, o);
    }
  }

  class DeepCopier {
    var store: Store
    var nextRef: Ref
    var objectArray: array<Ref>
    var numObjects: nat

    ghost predicate Allocating()
      reads this
    {
      forall r :: r in store ==> r < nextRef
    }

    ghost predicate Ready(s0: Store)
      reads this, objectArray
    {
      && Allocating()
      && INITIAL_CAPACITY <= objectArray.Length && numObjects <= objectArray.Length
      && Numbering(s0, store, objectArray[..numObjects])
    }

    constructor (store: Store, nextRef: Ref)
      requires forall r :: r in store ==> r < nextRef
      ensures this.store == store && this.nextRef == nextRef && Allocating()
      ensures numObjects == 0 && objectArray.Length == INITIAL_CAPACITY && fresh(objectArray)
    {
      this.store := store;
      this.nextRef := nextRef;
      objectArray := new Ref[INITIAL_CAPACITY];
      numObjects := 0;
    }

    /** Twice the room, with the same entries. */
    method GrowObjectArray()
      requires INITIAL_CAPACITY <= objectArray.Length && numObjects <= objectArray.Length
      modifies `objectArray
      ensures fresh(objectArray) && objectArray.Length == 2 * old(objectArray.Length)
      ensures objectArray[..numObjects] == old(objectArray[..numObjects])
    {
      var newArray := new Ref[2 * objectArray.Length];
      forall i | 0 <= i < numObjects {
        newArray[i] := objectArray[i];
      }
      assert newArray[..numObjects] == objectArray[..numObjects];
      objectArray := newArray;
    }

    method PutSelf(obj: Ref, ghost s0: Store)
      requires Ready(s0) && obj in s0 && obj in store && !store[obj].marked && s0[obj].kind in SHARED
      modifies this, objectArray
      ensures Ready(s0) && (objectArray == old(objectArray) || fresh(objectArray))
      ensures Marked(s0, store) == Marked(s0, old(store)) + {obj}
      ensures numObjects == old(numObjects) + 1
      ensures objectArray.Length
           == if old(numObjects) >= old(objectArray.Length) then 2 * old(objectArray.Length) else old(objectArray.Length)
    {
      hide Numbering, Marked;
      PutSelfNumbers(s0, store, objectArray[..numObjects], obj);
      ghost var table := objectArray[..numObjects];
      store := store[obj := store[obj].(marked := true, scratch := numObjects)];
      if numObjects >= objectArray.Length {
        GrowObjectArray();
      }
      objectArray[numObjects] := obj;
      numObjects := numObjects + 1;
      assert objectArray[..numObjects] == table + [obj];
    }

    /** A shallow copy in a place of its own; the collector's fields are not part of it. */
    method CopyObject(obj: Ref) returns (copy: Ref)
      requires Allocating() && obj in store
      modifies `store, `nextRef
      ensures Allocating()
      ensures copy !in old(store) && store == old(store)[copy := old(store)[obj]]
    {
      copy := nextRef;
      nextRef := nextRef + 1;
      store := store[copy := store[obj]];
    }

    method PutCopy(obj: Ref, ghost s0: Store)
      requires Ready(s0) && obj in s0 && obj in store && !store[obj].marked && s0[obj].kind !in SHARED
      modifies this, objectArray
      ensures Ready(s0) && (objectArray == old(objectArray) || fresh(objectArray))
      ensures Marked(s0, store) == Marked(s0, old(store)) + {obj}
      ensures numObjects == old(numObjects) + 2
      ensures objectArray.Length
           == if old(numObjects) + 2 >= old(objectArray.Length) then 2 * old(objectArray.Length) else old(objectArray.Length)
    {
      hide Numbering, Marked;
      ghost var table, s := objectArray[..numObjects], store;
      store := store[obj := store[obj].(marked := true, scratch := numObjects)];
      if numObjects + 2 >= objectArray.Length {
        GrowObjectArray();
      }
      var copy := CopyObject(obj);
      store := store[copy := store[copy].(marked := false)];
      objectArray[numObjects] := copy;
      objectArray[numObjects + 1] := obj;
      numObjects := numObjects + 2;
      assert objectArray[..numObjects] == table + [copy, obj];
      IntactOf(s0, s, table, obj);
      PutCopyNumbers(s0, s, table, obj, copy, store[copy]);
      assert store == s[obj := s[obj].(marked := true, scratch := |table|)][copy := store[copy]];
    }

    /** Numbers everything that an object reaches. */
    method ConstructObjectArray(obj: Ref, ghost s0: Store, ghost root: Ref)
      requires WellFormed(s0) && Ready(s0) && obj in s0 && Reaches(s0, SHARED, root, obj)
      modifies this, objectArray
      ensures Ready(s0) && (objectArray == old(objectArray) || fresh(objectArray))
      ensures Extends(s0, COPYING, root, old(store), store) && obj in Marked(s0, store)
      decreases Unmarked(s0, store), 0
    {
      hide Numbering, Extends, WellFormed, Reaches, KidsMarked;
      IntactOf(s0, store, objectArray[..numObjects], obj);
      ghost var s := store;
      ExtendsItself(s0, COPYING, root, s);
      if !store[obj].marked {
        if store[obj].kind in SHARED {
          PutSelf(obj, s0);
          NoKids(s0, store, obj);
          ExtendsItself(s0, COPYING, root, store);
          ExtendsBy(s0, COPYING, root, obj, s, store, store);
        } else if store[obj].kind.RawArrayKind? {
          PutCopy(obj, s0);
          NoKids(s0, store, obj);
          ExtendsItself(s0, COPYING, root, store);
          ExtendsBy(s0, COPYING, root, obj, s, store, store);
        } else {
          PutCopy(obj, s0);
          ghost var s1 := store;
          Recurse(obj, s0, root);
          MarksStay(s0, COPYING, root, s1, store);
          ExtendsBy(s0, COPYING, root, obj, s, s1, store);
        }
      }
    }

    method Recurse(obj: Ref, ghost s0: Store, ghost root: Ref)
      requires WellFormed(s0) && Ready(s0) && obj in Marked(s0, store) && Reaches(s0, SHARED, root, obj)
      requires s0[obj].kind !in SHARED && !s0[obj].kind.RawArrayKind?
      modifies this, objectArray
      ensures Ready(s0) && (objectArray == old(objectArray) || fresh(objectArray))
      ensures Extends(s0, COPYING, root, old(store), store) && KidsMarked(s0, COPYING, store, obj)
      decreases Unmarked(s0, store), 1
    {
      hide Numbering, Extends, WellFormed, Reaches;
      ghost var s := store;
      ExtendsItself(s0, COPYING, root, s);
      IntactOf(s0, store, objectArray[..numObjects], obj);
      WellFormedAt(s0, obj);
      var slots := store[obj].body.slots;
      var i := 0;
      while i < |slots|
        invariant 0 <= i <= |slots|
        invariant Ready(s0) && (objectArray == old(objectArray) || fresh(objectArray))
        invariant Extends(s0, COPYING, root, s, store)
        invariant forall j :: 0 <= j < i && slots[j].Obj? ==> slots[j].ref in Marked(s0, store)
      {
        if slots[i].Obj? {
          ghost var s1 := store;
          assert Child(s0, SHARED, obj, slots[i].ref);
          ReachesChild(s0, SHARED, root, obj, slots[i].ref);
          FewerUnmarked(s0, COPYING, root, s, store);
          ConstructObjectArray(slots[i].ref, s0, root);
          MarksStay(s0, COPYING, root, s1, store);
          ExtendsFurther(s0, COPYING, root, s, s1, store);
        }
        i := i + 1;
      }
    }

    /** A slot is made to refer to the stand-in of the object that it refers to. */
    function FixObjSlot(slot: Slot): Slot
      requires slot.Obj? && slot.ref in store && 0 <= store[slot.ref].scratch < numObjects <= objectArray.Length
      reads this, objectArray
    {
      Obj(objectArray[store[slot.ref].scratch])
    }

    method FixSlots(obj: Ref, ghost image: map<Ref, Ref>)
      requires obj in store && numObjects <= objectArray.Length
      requires !store[obj].marked && store[obj].body.Slots? ==>
                 forall i :: 0 <= i < |store[obj].body.slots| ==>
                   HasImage(store, image, objectArray[..numObjects], obj, store[obj].body.slots[i])
      modifies `store
      ensures store == old(store)[obj := FixedObject(image, old(store)[obj])]
    {
      if !store[obj].marked && store[obj].body.Slots? {
        ghost var s, slots := store, store[obj].body.slots;
        var i := 0;
        while i < |store[obj].body.slots|
          invariant obj in store && store[obj].body.Slots? && |store[obj].body.slots| == |slots|
          invariant 0 <= i <= |slots|
          invariant store == s[obj := s[obj].(body := store[obj].body)]
          invariant forall j :: 0 <= j < i ==> store[obj].body.slots[j] == Redirect(image, slots[j])
          invariant forall j :: i <= j < |slots| ==> store[obj].body.slots[j] == slots[j]
        {
          var now := store[obj].body.slots;
          assert HasImage(s, image, objectArray[..numObjects], obj, slots[i]);
          if now[i].Obj? {
            store := store[obj := store[obj].(body := Slots(now[i := FixObjSlot(now[i])]))];
          }
          i := i + 1;
        }
        assert store[obj].body.slots == RedirectAll(image, slots);
      }
    }

    /** Redirects the slots of every copy in the table. */
    method FixAll(ghost s0: Store, ghost root: Ref)
      requires WellFormed(s0) && Ready(s0) && Marked(s0, s0) == {} && Extends(s0, COPYING, root, s0, store)
      modifies `store
      ensures var table := objectArray[..numObjects];
              store == Fixed(old(store), StandIns(s0, old(store), table), table)
    {
      hide Numbering, Extends, WellFormed, Redirect, RedirectBody, FixedObject, HasImage, Marked;
      ghost var s, table := store, objectArray[..numObjects];
      ghost var image := StandIns(s0, s, table);
      assert Fixed(s, image, table[..0]) == s;
      var i := 0;
      while i < numObjects
        invariant 0 <= i <= numObjects
        invariant store == Fixed(s, image, table[..i])
      {
        assert objectArray[i] == table[i];
        FixingStep(s0, root, s, table, i);
        FixSlots(objectArray[i], image);
        i := i + 1;
      }
      assert table[..i] == table;
    }

    method ClearMarks()
      requires numObjects <= objectArray.Length
      requires forall i :: 0 <= i < numObjects ==> objectArray[i] in store
      modifies `store
      ensures store == Cleared(old(store), objectArray[..numObjects])
    {
      ghost var s, table := store, objectArray[..numObjects];
      assert Cleared(s, table[..0]) == s;
      var i := 0;
      while i < numObjects
        invariant 0 <= i <= numObjects
        invariant store == Cleared(s, table[..i])
      {
        assert table[i] in s;
        assert forall r :: r in table[..i + 1] <==> r in table[..i] || r == table[i];
        store := store[objectArray[i] := store[objectArray[i]].(marked := false)];
        i := i + 1;
      }
      assert table[..i] == table;
    }

    /**
      Makes a slot that refers to an object refer to a deep copy of everything that the object reaches; `image` says
      what stands for what. Nothing is left marked and no original changes.
     */
    method DoDeepCopy(slot: Slot) returns (copy: Slot, ghost image: map<Ref, Ref>)
      requires WellFormed(store) && SlotOk(store, slot) && Allocating()
      requires numObjects == 0 && objectArray.Length == INITIAL_CAPACITY
      requires forall r :: r in store ==> !store[r].marked
      modifies this, objectArray
      ensures !slot.Obj? ==> copy == slot && store == old(store)
      ensures slot.Obj? ==> IsDeepCopy(old(store), store, slot.ref, image) && OriginalsKept(old(store), store)
      ensures slot.Obj? ==> slot.ref in image && copy == Obj(image[slot.ref])
      // which objects are copied, which are shared, and what is in the copies
      ensures slot.Obj? ==> CopiedByKind(old(store), store, slot.ref, image)
    {
      hide Numbering, Extends, WellFormed, Reaches, Marked, IsDeepCopy, FixedObject, Fixed, Cleared, OriginalsKept,
        CopiedByKind;
      copy, image := slot, map[];
      if slot.Obj? {
        ghost var s0 := store;
        StartNumbering(s0);
        assert objectArray[..numObjects] == [];
        ReachesItself(s0, SHARED, slot.ref);
        ConstructObjectArray(slot.ref, s0, slot.ref);
        ghost var s, table := store, objectArray[..numObjects];
        image := StandIns(s0, s, table);
        NumberedFixedCleared(s0, s, slot.ref, table);
        TableStays(s0, s, table);
        RootHasStandIn(s0, s, table, slot.ref);
        FixAll(s0, slot.ref);
        copy := FixObjSlot(slot);
        ClearMarks();
        DeepCopyByKind(s0, store, slot.ref, image);
      }
    }
  }

  ghost predicate HasImage(s: Store, image: map<Ref, Ref>, table: seq<Ref>, obj: Ref, slot: Slot) {
    slot.Obj? ==>
      && slot.ref in image && slot.ref in s && slot.ref != obj
      && 0 <= s[slot.ref].scratch < |table| && image[slot.ref] == table[s[slot.ref].scratch]
  }

  lemma IntactOf(s0: Store, s: Store, table: seq<Ref>, o: Ref)
    requires Numbering(s0, s, table) && o in s0
    ensures Intact(s0, s, o)
  {
  }

  lemma NoKids(s0: Store, s: Store, o: Ref)
    requires o in s0 && (s0[o].kind in SHARED || (WellFormed(s0) && s0[o].kind.RawArrayKind?))
    ensures KidsMarked(s0, COPYING, s, o)
  {
    if s0[o].kind !in SHARED { WellFormedAt(s0, o); }
  }

  lemma StartNumbering(s0: Store)
    requires forall r :: r in s0 ==> !s0[r].marked
    ensures Numbering(s0, s0, []) && Marked(s0, s0) == {}
  {
  }

  /** Fixing keeps every entry of the table in the store. */
  lemma TableStays(s0: Store, s: Store, table: seq<Ref>)
    requires Numbering(s0, s, table)
    ensures forall k :: 0 <= k < |table| ==> table[k] in Fixed(s, StandIns(s0, s, table), table)
  {
    forall k | 0 <= k < |table|
      ensures table[k] in s
    {
      assert Entry(s0, s, table, k);
    }
  }

  /** The root is marked, and its scratch field says where its stand-in is, also when the copies are fixed. */
  lemma RootHasStandIn(s0: Store, s: Store, table: seq<Ref>, root: Ref)
    requires Numbering(s0, s, table) && root in Marked(s0, s)
    ensures var image := StandIns(s0, s, table);
            var s' := Fixed(s, image, table);
            && root in image && root in s' && 0 <= s'[root].scratch < |table|
            && table[s'[root].scratch] == image[root]
  {
    assert Numbered(s0, s, table, root);
  }

  /** When the first i entries are fixed, the next one is as it was, and each of its slots has an image. */
  lemma FixingStep(s0: Store, root: Ref, s: Store, table: seq<Ref>, i: nat)
    requires Numbering(s0, s, table) && WellFormed(s0) && i < |table|
    requires Marked(s0, s0) == {} && Extends(s0, COPYING, root, s0, s)
    ensures var image := StandIns(s0, s, table);
            var now, obj := Fixed(s, image, table[..i]), table[i];
            && obj in now && now[obj] == s[obj]
            && (!now[obj].marked && now[obj].body.Slots? ==>
                  forall k :: 0 <= k < |now[obj].body.slots| ==> HasImage(now, image, table, obj, now[obj].body.slots[k]))
            && Fixed(s, image, table[..i + 1]) == now[obj := FixedObject(image, now[obj])]
  {
    hide Extends;
    var image := StandIns(s0, s, table);
    var now, obj := Fixed(s, image, table[..i]), table[i];
    assert Entry(s0, s, table, i);
    assert obj !in table[..i];
    assert forall r :: r in table[..i + 1] <==> r in table[..i] || r == obj;
    if !now[obj].marked && now[obj].body.Slots? {
      var o := table[i + 1];
      assert Numbered(s0, s, table, o) && ObjectOk(s0, o);
      FinishedAt(s0, COPYING, root, s, o);
      forall k | 0 <= k < |now[obj].body.slots|
        ensures HasImage(now, image, table, obj, now[obj].body.slots[k])
      {
        var slot := s0[o].body.slots[k];
        if slot.Obj? {
          assert Child(s0, SHARED, o, slot.ref);
          KidHasStandIn(s0, s, table, o, slot.ref);
        }
      }
    }
  }
}
