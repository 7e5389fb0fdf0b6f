/**
  The archiver: numbers the objects that a value reaches, sizes and writes the archive, and builds a new graph from
  an archive.
 */
module Archivers {
  import opened ObjectGraph
  import opened Streams
  import opened Archives

  const INITIAL_CAPACITY := 32

  // ---- the numbering ----

  /** A marked object is at its number in the table. */
  ghost predicate Placed(s0: Store, s: Store, table: seq<Ref>, o: Ref)
    requires o in s0 && o in s
  {
    s[o].marked ==> s0[o].kind !in ARCHIVING.closed && 0 <= s[o].scratch < |table| && table[s[o].scratch] == o
  }

  ghost predicate Holds(s: Store, table: seq<Ref>, k: nat)
    requires k < |table|
  {
    table[k] in s && s[table[k]].marked && s[table[k]].scratch == k
  }

  ghost predicate Listing(s0: Store, s: Store, table: seq<Ref>) {
    && s.Keys == s0.Keys
    && (forall o {:trigger Intact(s0, s, o)} :: o in s0 ==> Intact(s0, s, o))
    && (forall o {:trigger Placed(s0, s, table, o)} :: o in s0 && o in s ==> Placed(s0, s, table, o))
    && (forall k {:trigger Holds(s, table, k)} :: 0 <= k < |table| ==> Holds(s, table, k))
  }

  lemma PutObjectLists(s0: Store, s: Store, table: seq<Ref>, o: Ref)
    requires Listing(s0, s, table) && o in s0 && o in s && !s[o].marked && s0[o].kind !in ARCHIVING.closed
    ensures var s' := s[o := s[o].(marked := true, scratch := |table|)];
            Listing(s0, s', table + [o]) && Marked(s0, s') == Marked(s0, s) + {o}
  {
    var s', table' := s[o := s[o].(marked := true, scratch := |table|)], table + [o];
    forall p | p in s0
      ensures Intact(s0, s', p) && Placed(s0, s', table', p)
    {
      assert Intact(s0, s, p) && Placed(s0, s, table, p);
    }
    forall k | 0 <= k < |table'|
      ensures Holds(s', table', k)
    {
      assert k < |table| ==> Holds(s, table, k);
    }
  }

  lemma IntactIn(s0: Store, s: Store, table: seq<Ref>, o: Ref)
    requires Listing(s0, s, table) && o in s0
    ensures Intact(s0, s, o)
  {
  }

  /** A method, a thread or a frame is reachable, without entering a class, the process or the interpreter. */
  ghost predicate RefusedReached(s0: Store, root: Ref) {
    exists o ::
      && Reaches(s0, {ClassKind, ProcessKind, InterpreterKind, MethodKind, ThreadKind, FrameKind}, root, o)
      && o in s0 && s0[o].kind in {MethodKind, ThreadKind, FrameKind}
  }

  lemma KindsOfArchiving()
    ensures ARCHIVING.closed == {ClassKind, ProcessKind, InterpreterKind, MethodKind, ThreadKind, FrameKind}
    ensures NAMED == {ClassKind, ProcessKind, InterpreterKind} && REFUSED == {MethodKind, ThreadKind, FrameKind}
  {
  }

  lemma RefusesAt(s0: Store, root: Ref, o: Ref)
    requires Reaches(s0, ARCHIVING.closed, root, o) && o in s0 && s0[o].kind in REFUSED
    ensures RefusedReached(s0, root)
  {
    hide Reaches;
    KindsOfArchiving();
  }

  /** Frames are refused, and every closure has one, so whatever reaches a closure is refused. */
  lemma ClosureIsRefused(s0: Store, root: Ref, o: Ref)
    requires ClosuresFramed(s0) && o in s0 && s0[o].kind.FunctionKind? && Reaches(s0, ARCHIVING.closed, root, o)
    ensures RefusedReached(s0, root)
  {
    hide Reaches;
    var f := s0[o].body.slots[1].ref;
    assert Child(s0, ARCHIVING.closed, o, f);
    ReachesChild(s0, ARCHIVING.closed, root, o, f);
    RefusesAt(s0, root, f);
  }

  lemma NoKids(s0: Store, s: Store, o: Ref)
    requires WellFormed(s0) && o in s0 && s0[o].kind.RawArrayKind?
    ensures KidsMarked(s0, ARCHIVING, s, o)
  {
    assert ObjectOk(s0, o);
  }

  /** A finished walk has met nothing that it refuses. */
  lemma NothingRefused(s0: Store, s: Store, root: Ref, table: seq<Ref>)
    requires Listing(s0, s, table) && Marked(s0, s0) == {}
    requires Extends(s0, ARCHIVING, root, s0, s) && Seen(s0, ARCHIVING, s, root)
    ensures !RefusedReached(s0, root)
    ensures forall o :: o in table <==> Reaches(s0, ARCHIVING.closed, root, o) && o in s0 && s0[o].kind !in NAMED
  {
    KindsOfArchiving();
    MarksAreReached(s0, ARCHIVING, root, s);
    forall o | o in s0 && Seen(s0, ARCHIVING, s, o)
      ensures s0[o].kind !in REFUSED && (o in table <==> s0[o].kind !in NAMED)
    {
      assert Placed(s0, s, table, o);
      InTable(s0, s, table, o);
    }
    forall o | o in table
      ensures o in s0 && Reaches(s0, ARCHIVING.closed, root, o)
    {
      var k :| 0 <= k < |table| && table[k] == o;
      assert Holds(s, table, k);
      assert o in Marked(s0, s);
    }
  }

  lemma InTable(s0: Store, s: Store, table: seq<Ref>, o: Ref)
    requires Listing(s0, s, table) && o in s0 && o in s
    ensures o in table <==> s[o].marked
  {
    assert Placed(s0, s, table, o);
    if o in table {
      var k :| 0 <= k < |table| && table[k] == o;
      assert Holds(s, table, k);
    }
  }

  class Archiver {
    const world: World
    const stream: ByteStream
    var store: Store
    var nextRef: Ref
    var objectArray: array<Ref>
    var numObjects: nat
    var topSlot: Slot

    constructor (world: World, store: Store, nextRef: Ref, stream: ByteStream)
      ensures this.world == world && this.store == store && this.nextRef == nextRef && this.stream == stream
      ensures numObjects == 0 && objectArray.Length == INITIAL_CAPACITY && fresh(objectArray)
    {
      this.world, this.store, this.nextRef, this.stream := world, store, nextRef, stream;
      objectArray := new Ref[INITIAL_CAPACITY];
      numObjects, topSlot := 0, Nil;
    }

    ghost predicate Ready(s0: Store)
      reads this, objectArray
    {
      && INITIAL_CAPACITY <= objectArray.Length && numObjects <= objectArray.Length
      && Listing(s0, store, objectArray[..numObjects])
    }

    method GrowObjectArray()
      requires INITIAL_CAPACITY <= objectArray.Length && numObjects <= objectArray.Length
      modifies `objectArray
      ensures fresh(objectArray) && objectArray.Length == 2 * old(objectArray.Length)
      ensures objectArray[..numObjects] == old(objectArray[..numObjects])
    {
      var newArray := new Ref[2 * objectArray.Length];
      forall i | 0 <= i < numObjects {
        newArray[i] := objectArray[i];
      }
      assert newArray[..numObjects] == objectArray[..numObjects];
      objectArray := newArray;
    }

    method PutObject(obj: Ref, ghost s0: Store)
      requires Ready(s0) && obj in s0 && obj in store && !store[obj].marked && s0[obj].kind !in ARCHIVING.closed
      modifies `store, `objectArray, `numObjects, objectArray
      ensures Ready(s0) && (objectArray == old(objectArray) || fresh(objectArray))
      ensures objectArray[..numObjects] == old(objectArray[..numObjects]) + [obj]
      ensures objectArray.Length
           == if old(numObjects) >= old(objectArray.Length) then 2 * old(objectArray.Length) else old(objectArray.Length)
      ensures Marked(s0, store) == Marked(s0, old(store)) + {obj}
    {
      hide Listing, Marked;
      PutObjectLists(s0, store, objectArray[..numObjects], obj);
      ghost var table := objectArray[..numObjects];
      store := store[obj := store[obj].(marked := true, scratch := numObjects)];
      if numObjects >= objectArray.Length {
        GrowObjectArray();
      }
      objectArray[numObjects] := obj;
      numObjects := numObjects + 1;
      assert objectArray[..numObjects] == table + [obj];
    }

    /** Numbers everything that an object reaches, or refuses it. */
    method ConstructObjectArray(obj: Ref, ghost s0: Store, ghost root: Ref) returns (ok: bool)
      requires WellFormed(s0) && Ready(s0) && obj in s0 && Reaches(s0, ARCHIVING.closed, root, obj)
      modifies `store, `objectArray, `numObjects, objectArray
      ensures Ready(s0) && (objectArray == old(objectArray) || fresh(objectArray))
      ensures old(objectArray[..numObjects]) <= objectArray[..numObjects]
      ensures ok && old(numObjects) == 0 && s0[obj].kind !in NAMED ==> numObjects > 0 && objectArray[0] == obj
      ensures s0[obj].kind in NAMED ==> ok && numObjects == old(numObjects)
      ensures Marked(s0, old(store)) <= Marked(s0, store)
      ensures if s0[obj].kind in ARCHIVING.closed then store == old(store) else obj in Marked(s0, store)
      ensures ok ==> Extends(s0, ARCHIVING, root, old(store), store) && Seen(s0, ARCHIVING, store, obj)
      ensures !ok ==> RefusedReached(s0, root)
      decreases Unmarked(s0, store), 0
    {
      hide Listing, Extends, WellFormed, Reaches, KidsMarked, RefusedReached;
      IntactIn(s0, store, objectArray[..numObjects], obj);
      ghost var s := store;
      ExtendsItself(s0, ARCHIVING, root, s);
      ok := true;
      if !store[obj].marked {
        if store[obj].kind in NAMED {
        } else if store[obj].kind in REFUSED {
          RefusesAt(s0, root, obj);
          ok := false;
        } else {
          PutObject(obj, s0);
          ghost var s1 := store;
          IntactIn(s0, store, objectArray[..numObjects], obj);
          if store[obj].kind.RawArrayKind? {
            NoKids(s0, store, obj);
            ExtendsItself(s0, ARCHIVING, root, store);
          } else {
            ok := Recurse(obj, s0, root);
          }
          if ok {
            MarksStay(s0, ARCHIVING, root, s1, store);
            ExtendsBy(s0, ARCHIVING, root, obj, s, s1, store);
          }
        }
      } else {
        SomethingListed(s0, s, objectArray[..numObjects], obj);
      }
    }

    method Recurse(obj: Ref, ghost s0: Store, ghost root: Ref) returns (ok: bool)
      requires WellFormed(s0) && Ready(s0) && obj in Marked(s0, store) && Reaches(s0, ARCHIVING.closed, root, obj)
      requires s0[obj].kind !in ARCHIVING.closed && !s0[obj].kind.RawArrayKind?
      modifies `store, `objectArray, `numObjects, objectArray
      ensures Ready(s0) && (objectArray == old(objectArray) || fresh(objectArray))
      ensures old(objectArray[..numObjects]) <= objectArray[..numObjects]
      ensures Marked(s0, old(store)) <= Marked(s0, store)
      ensures ok ==> Extends(s0, ARCHIVING, root, old(store), store) && KidsMarked(s0, ARCHIVING, store, obj)
      ensures !ok ==> RefusedReached(s0, root)
      decreases Unmarked(s0, store), 1
    {
      hide Listing, Extends, WellFormed, Reaches, RefusedReached;
      ghost var s := store;
      ExtendsItself(s0, ARCHIVING, root, s);
      IntactIn(s0, store, objectArray[..numObjects], obj);
      WellFormedAt(s0, obj);
      var slots := store[obj].body.slots;
      ok := true;
      var i := 0;
      while i < |slots| && ok
        invariant 0 <= i <= |slots|
        invariant Ready(s0) && (objectArray == old(objectArray) || fresh(objectArray))
        invariant old(objectArray[..numObjects]) <= objectArray[..numObjects]
        invariant Marked(s0, s) <= Marked(s0, store)
        invariant ok ==> Extends(s0, ARCHIVING, root, s, store)
        invariant ok ==> forall j :: 0 <= j < i && slots[j].Obj? ==> Seen(s0, ARCHIVING, store, slots[j].ref)
        invariant !ok ==> RefusedReached(s0, root)
      {
        if slots[i].Obj? {
          ghost var s1 := store;
          assert Child(s0, ARCHIVING.closed, obj, slots[i].ref);
          ReachesChild(s0, ARCHIVING.closed, root, obj, slots[i].ref);
          FewerUnmarked(s0, ARCHIVING, root, s, store);
          ok := ConstructObjectArray(slots[i].ref, s0, root);
          if ok {
            MarksStay(s0, ARCHIVING, root, s1, store);
            ExtendsFurther(s0, ARCHIVING, root, s, s1, store);
          }
        }
        i := i + 1;
      }
    }

    /**
      Takes a value and numbers what it reaches. It fails just when something is reached that cannot be archived;
      otherwise every object on the way is in the table at its number, the value itself first. When it fails, marks are
      left behind unless it is the value itself that cannot be archived.
     */
    method PrepareToWriteArchive(slot: Slot) returns (ok: bool)
      requires WellFormed(store) && SlotOk(store, slot) && WorldKnows(world, store)
      requires numObjects == 0 && objectArray.Length == INITIAL_CAPACITY
      requires forall r :: r in store ==> !store[r].marked
      modifies `topSlot, `store, `objectArray, `numObjects, objectArray
      ensures ok <==> !(slot.Obj? && RefusedReached(old(store), slot.ref))
      ensures topSlot == slot && numObjects <= objectArray.Length
      ensures objectArray == old(objectArray) || fresh(objectArray)
      ensures store.Keys == old(store).Keys && forall o :: o in old(store) ==> Intact(old(store), store, o)
      ensures ok ==> Prepared(world, store, objectArray[..numObjects], slot)
      ensures !ok ==> ((exists o :: o in store && store[o].marked) <==> old(store)[slot.ref].kind !in {MethodKind, ThreadKind, FrameKind})
      ensures ok && slot.Obj? ==>
                forall o :: o in objectArray[..numObjects]
                            <==> Reaches(old(store), ARCHIVING.closed, slot.ref, o) && o in old(store)
                                 && old(store)[o].kind !in {ClassKind, ProcessKind, InterpreterKind}
    {
      hide Extends, WellFormed, Reaches, RefusedReached, Prepared, Marked, Seen;
      topSlot := slot;
      ok := true;
      ghost var s0 := store;
      StartListing(s0);
      assert objectArray[..numObjects] == [];
      if slot.Obj? {
        ReachesItself(s0, ARCHIVING.closed, slot.ref);
        ok := ConstructObjectArray(slot.ref, s0, slot.ref);
        if ok {
          NothingRefused(s0, store, slot.ref, objectArray[..numObjects]);
          ListedIsPrepared(world, s0, store, objectArray[..numObjects], slot.ref);
        } else {
          MarksLeft(s0, store, slot.ref);
        }
      } else {
        NothingPrepared(world, s0, slot);
      }
    }

    // ---- writing ----

    ghost function Table(): seq<Ref>
      requires numObjects <= objectArray.Length
      reads this, objectArray
    {
      objectArray[..numObjects]
    }

    ghost predicate Writable()
      reads this, objectArray
    {
      && numObjects <= objectArray.Length && numObjects < INT_LIMIT
      && Prepared(world, store, Table(), topSlot) && SlotTyped(topSlot) && StoreTyped(store)
      && ClosuresFramed(store)
    }

    /** The size of what follows the tag of a slot; a raw pointer has none. */
    method SizeOfElem(slot: Slot) returns (ok: bool, size: nat)
      requires SlotKnown(world, store, slot) && TokenTyped(ToToken(world, store, slot))
      requires slot.Obj? ==> !store[slot.ref].kind.FrameKind?
      ensures ok <==> !slot.Ptr?
      ensures ok ==> size + TokenCut(ToToken(world, store, slot)) + 1 == |TokenBytes(ToToken(world, store, slot))|
    {
      hide Cut;
      ok, size := true, 0;
      match slot
      case Obj(obj) =>
        if store[obj].kind.ClassKind? {
          size := SymbolLength(world.names[obj]) + 1;
        } else if store[obj].kind.ProcessKind? || store[obj].kind.InterpreterKind? {
          size := 0;
        } else {
          size := 4;
        }
      case Int(_) => size := 4;
      case Sym(name) => size := SymbolLength(name) + 1;
      case Char(_) => size := 4;
      case Nil => size := 0;
      case False => size := 0;
      case True => size := 0;
      case Ptr(_) => ok := false;
      case Float(_) => size := 8;
    }

    method SizeOfSlots(slots: seq<Slot>) returns (ok: bool, size: nat)
      requires BodySizable(world, store, Slots(slots))
      ensures ok <==> PtrFreeBody(Slots(slots))
      ensures ok ==> var c := ToContents(world, store, Slots(slots)); size + Sum(Cuts(c)) == |Flat(Parts(c))|
    {
      hide Flat, Sum, Cuts, TokenCut, Parts, ToContents;
      ghost var parts := Parts(ToContents(world, store, Slots(slots)));
      ghost var cuts := Cuts(ToContents(world, store, Slots(slots)));
      FlatEnds(parts);
      SumEnds(cuts);
      ok, size := true, |slots|;
      var j := 0;
      while j < |slots| && ok
        invariant 0 <= j <= |slots|
        invariant ok <==> forall k :: 0 <= k < j ==> !slots[k].Ptr?
        invariant ok ==> size + Sum(cuts[..j]) == |slots| - j + |Flat(parts[..j])|
      {
        SlotSizable(world, store, slots, j);
        var more;
        ok, more := SizeOfElem(slots[j]);
        size := size + more;
        FlatStep(parts, j);
        SumStep(cuts, j);
        j := j + 1;
      }
    }

    method SizeOfNames(names: seq<Name>) returns (size: nat)
      requires |names| < INT_LIMIT
      ensures size + Sum(Cuts(NamesOf(names))) == |Flat(Parts(NamesOf(names)))|
    {
      hide Flat, Sum, Cut;
      ghost var parts, cuts := Parts(NamesOf(names)), Cuts(NamesOf(names));
      FlatEnds(parts);
      SumEnds(cuts);
      size := 0;
      var j := 0;
      while j < |names|
        invariant 0 <= j <= |names|
        invariant size + Sum(cuts[..j]) == |Flat(parts[..j])|
      {
        size := size + SymbolLength(names[j]) + 1;
        FlatStep(parts, j);
        SumStep(cuts, j);
        j := j + 1;
      }
    }

    /** The size of the elements of an object, with a tag for each slot. */
    method SizeOfBody(obj: Ref) returns (ok: bool, size: nat)
      requires obj in store && BodySizable(world, store, store[obj].body)
      ensures ok <==> PtrFreeBody(store[obj].body)
      ensures ok ==> var c := ToContents(world, store, store[obj].body); size + Sum(Cuts(c)) == |Flat(Parts(c))|
    {
      match store[obj].body
      case Slots(slots) => ok, size := SizeOfSlots(slots);
      case Symbols(names) =>
        size := SizeOfNames(names);
        ok := true;
      case Words(format, words) =>
        ok, size := true, |words| * Width(format);
        FlatWidth(Parts(WordsOf(format, words)), Width(format));
        ContentsCut(WordsOf(format, words));
    }

    /** The size of the header and of the body of an object. */
    method SizeOfEntry(i: nat) returns (ok: bool, size: nat)
      requires Writable() && i < numObjects
      ensures ArchiveReady(world, store, Table(), topSlot) && Table()[i] in store
      ensures ok <==> PtrFreeBody(store[Table()[i]].body)
      ensures var records := ToRecords(world, store, Table());
              ok ==> size + RecordCuts(records)[i] == |Headers(records)[i]| + |Bodies(records)[i]|
    {
      hide Prepared, StoreTyped, NoClosures, ClosuresFramed, Flat, Parts, ToContents, BodySizable, HeaderBytes,
        PtrFreeBody, Sum, Cuts, Cut;
      var obj := objectArray[i];
      assert obj == Table()[i];
      EntrySizable(world, store, Table(), topSlot, i);
      EntryCut(world, store, Table(), i);
      var more;
      ok, more := SizeOfBody(obj);
      size := SymbolLength(store[obj].cls) + 1 + 4 + more;
    }

    /**
      The size of the archive as the code counts it, unless there is a raw pointer. It is never too large, and it is
      right if and only if every symbol and class name that is written is shorter than 256.
     */
    method CalcArchiveSize() returns (ok: bool, size: nat)
      requires Writable()
      ensures ok <==> PtrFree(store, Table(), topSlot)
      ensures ArchiveReady(world, store, Table(), topSlot)
      ensures var a := ToArchive(world, store, Table(), topSlot);
              ok ==> size + ArchiveCut(a) == |ArchiveBytes(a)| && (size == |ArchiveBytes(a)| <==> NamesFit(a))
    {
      hide Prepared, StoreTyped, NoClosures, ClosuresFramed, Flat, Parts, ToContents, BodySizable, Headers, Bodies,
        PtrFreeBody,
        Sum, RecordCuts, TokenCut, NamesFit, TokenBytes;
      TopSizable(world, store, Table(), topSlot);
      NothingCut(ToArchive(world, store, Table(), topSlot));
      ok, size := true, HEADER_SIZE;
      if numObjects == 0 {
        ok, size := SizeOfElem(topSlot);
        size := size + HEADER_SIZE + 1;
      } else {
        ghost var table := Table();
        ghost var records := ToRecords(world, store, table);
        FlatEnds(Headers(records));
        FlatEnds(Bodies(records));
        SumEnds(RecordCuts(records));
        var i := 0;
        while i < numObjects && ok
          invariant 0 <= i <= numObjects
          invariant ok <==> forall k :: 0 <= k < i ==> PtrFreeBody(store[table[k]].body)
          invariant ok ==> size + Sum(RecordCuts(records)[..i])
                           == HEADER_SIZE + |Flat(Headers(records)[..i])| + |Flat(Bodies(records)[..i])|
        {
          var more;
          ok, more := SizeOfEntry(i);
          size := size + more;
          FlatStep(Headers(records), i);
          FlatStep(Bodies(records), i);
          SumStep(RecordCuts(records), i);
          i := i + 1;
        }
      }
    }

    method WriteSlot(slot: Slot)
      requires SlotKnown(world, store, slot) && TokenTyped(ToToken(world, store, slot))
      modifies stream`written
      ensures stream.written == old(stream.written) + TokenBytes(ToToken(world, store, slot))
    {
      hide BigEndian, Int32Bytes, SymbolBytes;
      match slot
      case Obj(obj) =>
        if store[obj].kind.ClassKind? {
          stream.WriteUInt8(CLASS_TAG);
          stream.WriteSymbol(world.names[obj]);
        } else if store[obj].kind.ProcessKind? {
          stream.WriteUInt8(PROCESS_TAG);
        } else if store[obj].kind.InterpreterKind? {
          stream.WriteUInt8(INTERPRETER_TAG);
        } else {
          stream.WriteUInt8(OBJECT_TAG);
          stream.WriteInt32(store[obj].scratch);
        }
      case Int(value) =>
        stream.WriteUInt8(INT_TAG);
        stream.WriteInt32(value);
      case Sym(name) =>
        stream.WriteUInt8(SYMBOL_TAG);
        stream.WriteSymbol(name);
      case Char(code) =>
        stream.WriteUInt8(CHAR_TAG);
        stream.WriteInt32(code);
      case Nil => stream.WriteUInt8(NIL_TAG);
      case False => stream.WriteUInt8(FALSE_TAG);
      case True => stream.WriteUInt8(TRUE_TAG);
      case Ptr(_) => stream.WriteUInt8(NIL_TAG);
      case Float(bits) =>
        stream.WriteUInt8(FLOAT_TAG);
        stream.WriteDouble(bits);
    }

    method WriteObjectHeader(obj: Ref)
      requires obj in store && BodySize(store[obj].body) < INT_LIMIT
      modifies `store, stream`written
      ensures store == old(store)[obj := old(store)[obj].(marked := false)]
      ensures stream.written
           == old(stream.written) + (SymbolBytes(store[obj].cls) + Int32Bytes(BodySize(store[obj].body)))
    {
      store := store[obj := store[obj].(marked := false)];
      stream.WriteSymbol(store[obj].cls);
      stream.WriteInt32(BodySize(store[obj].body));
    }

    method WriteWords(format: Format, words: seq<nat>)
      requires |words| < INT_LIMIT
      modifies stream`written
      ensures stream.written == old(stream.written) + Flat(Parts(WordsOf(format, words)))
    {
      hide Flat;
      ghost var parts := Parts(WordsOf(format, words));
      FlatEnds(parts);
      if Width(format) == 1 {
        var data: seq<Byte> := seq(|words|, i requires 0 <= i < |words| => words[i] % 256);
        stream.WriteData(data);
        FlatSingles(parts, data);
      } else {
        var i := 0;
        while i < |words|
          invariant 0 <= i <= |words|
          invariant stream.written == old(stream.written) + Flat(parts[..i])
        {
          if format.Int16? {
            stream.WriteInt16(words[i]);
          } else if format.Double? {
            stream.WriteDouble(words[i]);
          } else {
            stream.WriteWord32(words[i]);
          }
          FlatStep(parts, i);
          i := i + 1;
        }
      }
    }

    method WriteNames(names: seq<Name>)
      requires |names| < INT_LIMIT
      modifies stream`written
      ensures stream.written == old(stream.written) + Flat(Parts(NamesOf(names)))
    {
      hide Flat;
      ghost var parts := Parts(NamesOf(names));
      FlatEnds(parts);
      var i := 0;
      while i < |names|
        invariant 0 <= i <= |names|
        invariant stream.written == old(stream.written) + Flat(parts[..i])
      {
        stream.WriteSymbol(names[i]);
        FlatStep(parts, i);
        i := i + 1;
      }
    }

    method WriteElements(slots: seq<Slot>)
      requires BodySizable(world, store, Slots(slots))
      modifies stream`written
      ensures stream.written == old(stream.written) + Flat(Parts(ToContents(world, store, Slots(slots))))
    {
      hide Flat, BodySizable, TokenBytes, Parts, ToContents;
      ghost var parts := SlotParts(world, store, slots);
      FlatEnds(parts);
      var i := 0;
      while i < |slots|
        invariant 0 <= i <= |slots|
        invariant stream.written == old(stream.written) + Flat(parts[..i])
      {
        SlotSizable(world, store, slots, i);
        WriteSlot(slots[i]);
        FlatStep(parts, i);
        i := i + 1;
      }
    }

    method WriteClosure(obj: Ref)
      requires obj in store && ClosureTyped(store, store[obj])
      requires forall slot :: slot in store[obj].body.slots ==>
                 SlotKnown(world, store, slot) && TokenTyped(ToToken(world, store, slot))
      modifies stream`written
      ensures stream.written
           == old(stream.written) + TokenBytes(ToToken(world, store, store[obj].body.slots[0]))
              + TokenBytes(ToToken(world, store, WrittenContext(store, store[obj])))
      // the seventh variable of the block says whether the context is written
      ensures var block, context := store[obj].body.slots[0], store[obj].body.slots[1];
              TokenBytes(ToToken(world, store, WrittenContext(store, store[obj])))
              == if store[block.ref].body.slots[6] == Nil then ['N' as int] else TokenBytes(ToToken(world, store, context))
    {
      var block := store[obj].body.slots[0].ref;
      if !store[block].body.slots[CONTEXT_DEF].Nil? {
        WriteSlot(store[obj].body.slots[0]);
        WriteSlot(store[obj].body.slots[1]);
      } else {
        WriteSlot(store[obj].body.slots[0]);
        WriteSlot(Nil);
      }
    }

    /** Writes the elements of an object; of a closure, its block and its context. */
    method WriteSlots(obj: Ref)
      requires obj in store && (store[obj].kind.RawArrayKind? <==> !store[obj].body.Slots?)
      requires if store[obj].kind.FunctionKind? then
                 && ClosureTyped(store, store[obj])
                 && forall slot :: slot in store[obj].body.slots ==>
                      SlotKnown(world, store, slot) && TokenTyped(ToToken(world, store, slot))
               else BodySizable(world, store, store[obj].body)
      modifies stream`written
      ensures stream.written
           == old(stream.written)
              + if store[obj].kind.FunctionKind? then
                  TokenBytes(ToToken(world, store, store[obj].body.slots[0]))
                  + TokenBytes(ToToken(world, store, WrittenContext(store, store[obj])))
                else Flat(Parts(ToContents(world, store, store[obj].body)))
    {
      hide Flat, BodySizable, Parts, ToContents, TokenBytes;
      if store[obj].kind.FunctionKind? {
        WriteClosure(obj);
      } else if store[obj].kind.RawArrayKind? {
        WordsSizable(world, store, store[obj].body);
        if store[obj].body.Words? {
          WriteWords(store[obj].body.format, store[obj].body.words);
        } else {
          WriteNames(store[obj].body.names);
        }
      } else {
        WriteElements(store[obj].body.slots);
      }
    }

    method WriteArchiveHeader()
      requires numObjects < INT_LIMIT
      modifies stream`written
      ensures stream.written == old(stream.written) + HeadBytes(numObjects)
    {
      hide Int32Bytes;
      stream.WriteInt32(MAGIC);
      stream.WriteInt32(VERSION);
      stream.WriteInt32(numObjects);
    }

    method WriteHeaders()
      requires Writable()
      modifies `store, stream`written
      ensures SameButMarks(old(store), store)
      ensures forall k :: 0 <= k < numObjects ==> objectArray[k] in store && !store[objectArray[k]].marked
      ensures ArchiveReady(world, old(store), Table(), topSlot)
      ensures stream.written
           == old(stream.written) + Flat(Headers(ToRecords(world, old(store), Table())))
    {
      hide Prepared, StoreTyped, NoClosures, ClosuresFramed, Flat, Headers, ToRecords, TableKnown, ToContents,
        BodySizable, SymbolBytes,
        SameButMarks, ClearUpto, ArchiveReady;
      ghost var s, table := store, Table();
      TopSizable(world, s, table, topSlot);
      ghost var parts := Headers(ToRecords(world, s, table));
      FlatEnds(parts);
      UnmarkEnds(s, table);
      var i := 0;
      while i < numObjects
        invariant 0 <= i <= numObjects
        invariant SameButMarks(s, store) && ClearUpto(store, table, i)
        invariant stream.written == old(stream.written) + Flat(parts[..i])
      {
        assert objectArray[i] == table[i];
        EntrySizable(world, s, table, topSlot, i);
        SizeTyped(world, s, s[table[i]].body);
        UnmarkStep(s, store, table, i);
        WriteObjectHeader(objectArray[i]);
        FlatStep(parts, i);
        i := i + 1;
      }
      UnmarkEnds(store, table);
    }

    method WriteBodies(ghost s: Store)
      requires numObjects <= objectArray.Length && numObjects < INT_LIMIT
      requires Prepared(world, s, Table(), topSlot) && SlotTyped(topSlot) && StoreTyped(s) && NoClosures(s, Table())
      requires SameButMarks(s, store)
      modifies stream`written
      ensures ArchiveReady(world, s, Table(), topSlot)
      ensures stream.written == old(stream.written) + Flat(Bodies(ToRecords(world, s, Table())))
    {
      hide Prepared, StoreTyped, NoClosures, ClosuresFramed, Flat, Headers, Bodies, ToContents, BodySizable, Parts;
      ghost var table := Table();
      TopSizable(world, s, table, topSlot);
      ghost var parts := Bodies(ToRecords(world, s, table));
      FlatEnds(parts);
      var i := 0;
      while i < numObjects
        invariant 0 <= i <= numObjects
        invariant stream.written == old(stream.written) + Flat(parts[..i])
      {
        assert objectArray[i] == table[i];
        EntrySizable(world, s, table, topSlot, i);
        EntryShape(world, s, table, topSlot, i);
        SizableButMarks(world, s, store, s[table[i]].body);
        WriteSlots(objectArray[i]);
        FlatStep(parts, i);
        i := i + 1;
      }
    }

    /** Writes the archive, and leaves no object of the table marked. */
    method WriteArchive()
      requires Writable()
      modifies `store, stream`written
      ensures SameButMarks(old(store), store)
      ensures forall k :: 0 <= k < numObjects ==> objectArray[k] in store && !store[objectArray[k]].marked
      ensures ArchiveReady(world, old(store), Table(), topSlot)
      ensures stream.written
           == old(stream.written) + ArchiveBytes(ToArchive(world, old(store), Table(), topSlot))
    {
      hide Prepared, StoreTyped, NoClosures, ClosuresFramed, Flat, Headers, Bodies, ToRecords, HeadBytes, TokenBytes,
        TableKnown, TokenTyped;
      TopSizable(world, store, Table(), topSlot);
      WriteArchiveHeader();
      if numObjects == 0 {
        WriteSlot(topSlot);
      } else {
        ghost var s := store;
        PreparedHasNoClosures(world, s, Table(), topSlot);
        WriteHeaders();
        WriteBodies(s);
      }
    }

    // ---- reading ----

    ghost predicate Allocating()
      reads this
    {
      forall r :: r in store ==> r < nextRef
    }

    /** A new object of a class, with room for some elements if the class is indexable. */
    method InstantiateObject(cls: Name, size: nat) returns (obj: Ref)
      requires cls in world.classes && Allocating()
      modifies `store, `nextRef
      ensures Allocating() && obj == old(nextRef) && nextRef == obj + 1
      ensures store == old(store)[obj := Blank(world, cls, size)]
    {
      obj := nextRef;
      nextRef := nextRef + 1;
      store := store[obj := Blank(world, cls, size)];
    }

    method ReadObjectHeader(ghost r: Record, ghost rest: seq<Byte>) returns (obj: Ref)
      requires RecordFits(r) && RecordReadable(world, r) && stream.left == HeaderBytes(r) + rest && Allocating()
      modifies `store, `nextRef, stream`left
      ensures stream.left == rest && Allocating()
      ensures obj == old(nextRef) && nextRef == obj + 1
      ensures store == old(store)[obj := Blank(world, r.cls, SizeOf(r.contents))]
    {
      FrontName(r.cls, Int32Bytes(SizeOf(r.contents)) + rest);
      assert HeaderBytes(r) + rest == SymbolBytes(r.cls) + (Int32Bytes(SizeOf(r.contents)) + rest);
      var cls := stream.ReadSymbol();
      FrontInt32(SizeOf(r.contents), rest);
      var size := stream.ReadInt32();
      if world.classes[cls].indexable {
        obj := InstantiateObject(cls, size);
      } else {
        obj := InstantiateObject(cls, 0);
      }
    }

    method ReadObjectID(ghost index: nat, ghost rest: seq<Byte>) returns (obj: Ref)
      requires index < numObjects <= objectArray.Length && index < INT_LIMIT
      requires stream.left == Int32Bytes(index) + rest
      modifies stream`left
      ensures stream.left == rest && obj == objectArray[index]
    {
      FrontInt32(index, rest);
      var objID := stream.ReadInt32();
      obj := objectArray[objID];
    }

    method ReadSlot(ghost t: Token, ghost rest: seq<Byte>) returns (slot: Slot)
      requires numObjects <= objectArray.Length
      requires TokenFits(t) && TokenReadable(world, numObjects, t) && stream.left == TokenBytes(t) + rest
      modifies stream`left
      ensures stream.left == rest && slot == ToSlot(world, objectArray[..numObjects], t)
    {
      hide BigEndian, FromBigEndian, Int32Bytes, SymbolBytes, FrontSymbol, Power;
      ghost var more := TokenTail(t) + rest;
      assert stream.left == [TokenTag(t)] + more;
      var tag := stream.ReadUInt8();
      assert stream.left == more;
      if tag == OBJECT_TAG {
        var obj := ReadObjectID(t.index, rest);
        slot := Obj(obj);
      } else if tag == CLASS_TAG {
        FrontName(t.name, rest);
        var name := stream.ReadSymbol();
        slot := Obj(world.classes[name].ref);
      } else if tag == PROCESS_TAG {
        slot := Obj(world.process);
      } else if tag == INTERPRETER_TAG {
        slot := Obj(world.interpreter);
      } else if tag == INT_TAG {
        FrontInt32(t.slot.value, rest);
        var value := stream.ReadInt32();
        slot := Int(value);
      } else if tag == SYMBOL_TAG {
        FrontName(t.slot.name, rest);
        var name := stream.ReadSymbol();
        slot := Sym(name);
      } else if tag == CHAR_TAG {
        FrontInt32(t.slot.code, rest);
        var code := stream.ReadInt32();
        slot := Char(code);
      } else if tag == FLOAT_TAG {
        FrontWord(8, t.slot.bits, rest);
        var bits := stream.ReadDouble();
        slot := Float(bits);
      } else if tag == TRUE_TAG {
        slot := True;
      } else if tag == FALSE_TAG {
        slot := False;
      } else {
        slot := Nil;
      }
    }

    method ReadWords(format: Format, size: nat, ghost words: seq<nat>, ghost rest: seq<Byte>) returns (data: seq<nat>)
      requires |words| == size && ContentsFit(WordsOf(format, words))
      requires stream.left == Flat(Parts(WordsOf(format, words))) + rest
      modifies stream`left
      ensures stream.left == rest && data == words
    {
      hide Flat, FromBigEndian, Power;
      ghost var parts := Parts(WordsOf(format, words));
      FlatEnds(parts);
      data := [];
      while |data| < size
        invariant |data| <= size && data == words[..|data|]
        invariant stream.left == Flat(parts[|data|..]) + rest
      {
        ghost var i, width := |data|, Width(format);
        FlatStep(parts, i);
        ghost var more := Flat(parts[i + 1..]) + rest;
        assert stream.left == BigEndian(width, words[i]) + more;
        FrontWord(width, words[i], more);
        var word: nat;
        if Width(format) == 1 {
          assert FromBigEndian(stream.left[..1]) == stream.left[0] by { OneByte(stream.left[0]); assert stream.left[..1] == [stream.left[0]]; }
          word := stream.ReadUInt8();
        } else if format.Int16? {
          word := stream.ReadInt16();
        } else if format.Double? {
          word := stream.ReadDouble();
        } else {
          word := stream.ReadWord32();
        }
        data := data + [word];
      }
    }

    method ReadNames(size: nat, ghost names: seq<Name>, ghost rest: seq<Byte>) returns (data: seq<Name>)
      requires |names| == size && ContentsFit(NamesOf(names))
      requires stream.left == Flat(Parts(NamesOf(names))) + rest
      modifies stream`left
      ensures stream.left == rest && data == names
    {
      hide Flat, FrontSymbol, SymbolBytes;
      ghost var parts := Parts(NamesOf(names));
      FlatEnds(parts);
      data := [];
      while |data| < size
        invariant |data| <= size && data == names[..|data|]
        invariant stream.left == Flat(parts[|data|..]) + rest
      {
        ghost var i := |data|;
        FlatStep(parts, i);
        ghost var more := Flat(parts[i + 1..]) + rest;
        assert stream.left == SymbolBytes(names[i]) + more;
        FrontName(names[i], more);
        var name := stream.ReadSymbol();
        data := data + [name];
      }
    }

    method ReadElements(size: nat, ghost tokens: seq<Token>, ghost rest: seq<Byte>) returns (slots: seq<Slot>)
      requires numObjects <= objectArray.Length && |tokens| == size
      requires ContentsFit(TokensOf(tokens)) && ContentsReadable(world, numObjects, TokensOf(tokens))
      requires stream.left == Flat(Parts(TokensOf(tokens))) + rest
      modifies stream`left
      ensures stream.left == rest
      ensures Slots(slots) == ToBody(world, objectArray[..numObjects], TokensOf(tokens))
    {
      hide Flat, TokenBytes, TokenReadable, TokenFits, TokenTyped, ToSlot;
      FitsIsTyped(TokensOf(tokens));
      ghost var parts := Parts(TokensOf(tokens));
      FlatEnds(parts);
      slots := [];
      while |slots| < size
        invariant |slots| <= size
        invariant forall j :: 0 <= j < |slots| ==> slots[j] == ToSlot(world, objectArray[..numObjects], tokens[j])
        invariant stream.left == Flat(parts[|slots|..]) + rest
      {
        ghost var i := |slots|;
        FlatStep(parts, i);
        ghost var more := Flat(parts[i + 1..]) + rest;
        assert stream.left == TokenBytes(tokens[i]) + more;
        var slot := ReadSlot(tokens[i], more);
        slots := slots + [slot];
      }
    }

    /** Reads the elements of an object that has room for them. */
    method ReadSlots(obj: Ref, ghost r: Record, ghost rest: seq<Byte>)
      requires obj in store && numObjects <= objectArray.Length
      requires RecordFits(r) && RecordReadable(world, r) && ContentsReadable(world, numObjects, r.contents)
      requires store[obj] == Blank(world, r.cls, SizeOf(r.contents))
      requires stream.left == Flat(Parts(r.contents)) + rest
      modifies `store, stream`left
      ensures stream.left == rest
      ensures store == old(store)[obj := Filled(world, objectArray[..numObjects], r)]
    {
      hide Flat, Parts, ContentsFit, ContentsReadable, ToBody;
      var size := BodySize(store[obj].body);
      var body;
      if store[obj].kind.RawArrayKind? {
        if store[obj].body.Words? {
          var data := ReadWords(store[obj].body.format, size, r.contents.words, rest);
          body := Words(store[obj].body.format, data);
          RawBody(world, objectArray[..numObjects], r.contents);
        } else {
          var data := ReadNames(size, r.contents.names, rest);
          body := Symbols(data);
          RawBody(world, objectArray[..numObjects], r.contents);
        }
      } else {
        var slots := ReadElements(size, r.contents.tokens, rest);
        body := Slots(slots);
      }
      store := store[obj := store[obj].(body := body)];
    }

    method ReadArchiveHeader(ghost a: Archive, ghost rest: seq<Byte>) returns (ok: bool)
      requires |stream.left| >= HEADER_SIZE && INITIAL_CAPACITY <= objectArray.Length
      requires HasMagic(stream.left) ==> |a.records| < INT_LIMIT && stream.left == HeadBytes(|a.records|) + rest
      modifies stream`left, `numObjects, `objectArray
      ensures ok <==> HasMagic(old(stream.left))
      ensures objectArray == old(objectArray) || fresh(objectArray)
      ensures ok ==> numObjects == |a.records| <= objectArray.Length && stream.left == rest
    {
      hide FromBigEndian, BigEndian;
      ghost var left := stream.left;
      var magicNumber := stream.ReadInt32();
      ok := magicNumber == MAGIC;
      if ok {
        ghost var count := |a.records|;
        ghost var more := Int32Bytes(count) + rest;
        assert left == Int32Bytes(MAGIC) + (Int32Bytes(VERSION) + more);
        FrontInt32(VERSION, more);
        var version := stream.ReadInt32();
        FrontInt32(count, rest);
        assert stream.left == Int32Bytes(count) + rest;
        var n := stream.ReadInt32();
        numObjects := n;
        if numObjects > INITIAL_CAPACITY {
          objectArray := new Ref[numObjects];
        }
      }
    }

    method ReadHeaders(ghost a: Archive, ghost rest: seq<Byte>)
      requires ArchiveFits(a) && ArchiveTyped(a) && Readable(world, a) && Allocating()
      requires numObjects == |a.records| <= objectArray.Length
      requires stream.left == Flat(Headers(a.records)) + rest
      modifies `store, `nextRef, objectArray, stream`left
      ensures stream.left == rest && Allocating()
      ensures Instances(old(store), store, Table(), Blanks(world, a))
    {
      hide Flat, HeaderBytes, RecordFits, RecordReadable, ContentsReadable, Blank, ArchiveFits;
      ghost var parts, s0, objs := Headers(a.records), store, Blanks(world, a);
      FlatEnds(parts);
      var i := 0;
      while i < numObjects
        invariant 0 <= i <= numObjects
        invariant Allocating()
        invariant Instances(s0, store, objectArray[..i], objs[..i])
        invariant stream.left == Flat(parts[i..]) + rest
      {
        FlatStep(parts, i);
        ghost var more, r, s, table := Flat(parts[i + 1..]) + rest, a.records[i], store, objectArray[..i];
        RecordAt(world, a, i);
        assert stream.left == HeaderBytes(r) + more;
        var obj := ReadObjectHeader(r, more);
        InstancesAdd(s0, s, table, objs[..i], obj, store[obj]);
        objectArray[i] := obj;
        assert objectArray[..i + 1] == table + [obj];
        assert objs[..i + 1] == objs[..i] + [store[obj]];
        i := i + 1;
      }
      assert objs[..i] == objs;
    }

    method ReadBodies(ghost a: Archive, ghost rest: seq<Byte>, ghost s0: Store)
      requires ArchiveFits(a) && ArchiveTyped(a) && Readable(world, a)
      requires numObjects == |a.records| <= objectArray.Length
      requires Instances(s0, store, Table(), Blanks(world, a))
      requires stream.left == Flat(Bodies(a.records)) + rest
      modifies `store, stream`left
      ensures stream.left == rest
      ensures Instances(s0, store, Table(), Fills(world, Table(), a))
    {
      hide Flat, Parts, RecordFits, RecordReadable, ContentsReadable, Blank, Filled, Instances, ArchiveFits, Mixed;
      ghost var parts, table := Bodies(a.records), Table();
      ghost var blanks, fills := Blanks(world, a), Fills(world, table, a);
      FlatEnds(parts);
      MixedEnds(fills, blanks);
      var i := 0;
      while i < numObjects
        invariant 0 <= i <= numObjects
        invariant Instances(s0, store, table, Mixed(fills, blanks, i))
        invariant stream.left == Flat(parts[i..]) + rest
      {
        FlatStep(parts, i);
        ghost var more, r, s := Flat(parts[i + 1..]) + rest, a.records[i], store;
        RecordAt(world, a, i);
        MixedStep(fills, blanks, i);
        InstanceAt(s0, s, table, Mixed(fills, blanks, i), i);
        assert objectArray[i] == table[i];
        assert stream.left == Flat(Parts(r.contents)) + more;
        ReadSlots(objectArray[i], r, more);
        InstancesSet(s0, s, table, Mixed(fills, blanks, i), i, fills[i]);
        i := i + 1;
      }
    }

    /**
      Reads an archive that some archiver has written, followed by anything. Without the magic number nothing is
      read; otherwise there is a new object for each record, and the value is the one that was archived.
     */
    method ReadArchive(ghost a: Archive, ghost rest: seq<Byte>) returns (ok: bool, slot: Slot)
      requires Allocating() && INITIAL_CAPACITY <= objectArray.Length && |stream.left| >= HEADER_SIZE
      requires HasMagic(stream.left) ==> ArchiveFits(a) && ArchiveTyped(a) && Readable(world, a)
                                         && stream.left == ArchiveBytes(a) + rest
      modifies `store, `nextRef, `numObjects, `objectArray, objectArray, stream`left
      ensures ok <==> HasMagic(old(stream.left))
      ensures !ok ==> slot == Nil && store == old(store)
      ensures ok ==> numObjects == |a.records| <= objectArray.Length && stream.left == rest
      ensures ok ==> Instances(old(store), store, Table(), Fills(world, Table(), a))
      ensures ok ==> slot == ToSlot(world, Table(), a.top)
    {
      hide Flat, RecordFits, RecordReadable, ContentsReadable, Blank, Filled, HeadBytes, TokenBytes, Headers, Bodies;
      hide HasMagic, Instances;
      slot := Nil;
      ghost var s0 := store;
      ghost var tail := ArchiveTail(a, rest, HasMagic(stream.left));
      ok := ReadArchiveHeader(a, tail);
      if ok {
        if numObjects == 0 {
          slot := ReadSlot(a.top, rest);
          NoInstances(s0, objectArray[..numObjects], Fills(world, Table(), a));
        } else {
          ReadHeaders(a, Flat(Bodies(a.records)) + rest);
          ReadBodies(a, rest, s0);
          slot := Obj(objectArray[0]);
        }
      }
    }
  }

  lemma SomethingListed(s0: Store, s: Store, table: seq<Ref>, o: Ref)
    requires Listing(s0, s, table) && o in s0 && o in s && s[o].marked
    ensures |table| > 0 && s0[o].kind !in ARCHIVING.closed && Seen(s0, ARCHIVING, s, o)
  {
    assert Placed(s0, s, table, o);
  }

  lemma MarksLeft(s0: Store, s: Store, o: Ref)
    ensures o in Marked(s0, s) ==> o in s && s[o].marked
  {
  }

  lemma StartListing(s0: Store)
    requires forall r :: r in s0 ==> !s0[r].marked
    ensures Listing(s0, s0, []) && Marked(s0, s0) == {}
  {
  }

  lemma NothingPrepared(w: World, s: Store, slot: Slot)
    requires !slot.Obj?
    ensures Prepared(w, s, [], slot)
  {
  }

  /** A finished numbering from the root is ready to be written. */
  lemma ListedIsPrepared(w: World, s0: Store, s: Store, table: seq<Ref>, root: Ref)
    requires WellFormed(s0) && WorldKnows(w, s0) && Listing(s0, s, table) && Marked(s0, s0) == {}
    requires Extends(s0, ARCHIVING, root, s0, s) && Seen(s0, ARCHIVING, s, root)
    requires if s0[root].kind in NAMED then table == [] else table != [] && table[0] == root
    ensures Prepared(w, s, table, Obj(root))
  {
    hide Extends, WellFormed;
    IntactIn(s0, s, table, root);
    SeenIsListed(w, s0, s, table, root);
    forall k | 0 <= k < |table|
      ensures EntryReady(w, s, table, k)
    {
      var o := table[k];
      assert Holds(s, table, k);
      IntactIn(s0, s, table, o);
      assert Placed(s0, s, table, o);
      FinishedAt(s0, ARCHIVING, root, s, o);
      WellFormedAt(s0, o);
      if s[o].body.Slots? {
        forall i | 0 <= i < |s[o].body.slots|
          ensures SlotListed(w, s, table, s[o].body.slots[i])
        {
          var slot := s[o].body.slots[i];
          if slot.Obj? {
            assert Child(s0, ARCHIVING.closed, o, slot.ref);
            SeenIsListed(w, s0, s, table, slot.ref);
          }
        }
      }
    }
  }

  lemma SeenIsListed(w: World, s0: Store, s: Store, table: seq<Ref>, o: Ref)
    requires WorldKnows(w, s0) && Listing(s0, s, table) && Seen(s0, ARCHIVING, s, o)
    ensures SlotListed(w, s, table, Obj(o))
  {
    assert Intact(s0, s, o) && Placed(s0, s, table, o);
  }
}
