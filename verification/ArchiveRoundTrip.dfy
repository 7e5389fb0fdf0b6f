/**
  Reading what was written builds the graph that was archived: whatever a walk along slots finds in the one, the same
  walk finds in the other, and objects are shared in the one just where they are shared in the other.
 */
module ArchiveRoundTrips {
  import opened ObjectGraph
  import opened Streams
  import opened Archives
  import opened Archivers

  // ---- what can be read back ----

  /** A slot whose symbol or class name fits the length byte, and whose class the reader knows. */
  ghost predicate SlotReadable(w: World, w2: World, s: Store, slot: Slot) {
    && (slot.Sym? ==> NameFits(slot.name))
    && (slot.Float? ==> slot.bits < Power(8))
    && (slot.Obj? && slot.ref in s && s[slot.ref].kind.ClassKind? && slot.ref in w.names ==>
          NameFits(w.names[slot.ref]) && w.names[slot.ref] in w2.classes)
  }

  ghost predicate BodyReadable(w: World, w2: World, s: Store, body: Body) {
    match body
    case Slots(slots) => forall i :: 0 <= i < |slots| ==> SlotReadable(w, w2, s, slots[i])
    case Words(format, words) => forall i :: 0 <= i < |words| ==> words[i] < Power(Width(format))
    case Symbols(names) => forall i :: 0 <= i < |names| ==> NameFits(names[i])
  }

  /** The reader has the class of an object, with instances laid out as in the writer. */
  ghost predicate ClassReadable(w2: World, obj: Object) {
    && NameFits(obj.cls) && obj.cls in w2.classes
    && var info := w2.classes[obj.cls];
       && info.kind == obj.kind
       && (match info.layout
           case SlotLayout => obj.body.Slots?
           case WordLayout(format) => obj.body.Words? && obj.body.format == format
           case SymbolLayout => obj.body.Symbols?)
       && (!info.indexable ==> BodySize(obj.body) == info.instSize)
  }

  ghost predicate TableReadable(w: World, w2: World, s: Store, table: seq<Ref>) {
    forall k {:trigger table[k]} :: 0 <= k < |table| && table[k] in s ==>
      ClassReadable(w2, s[table[k]]) && BodyReadable(w, w2, s, s[table[k]].body)
  }

  /** What one archiver can write, and the reader has the classes for, the reader can read. */
  lemma WrittenIsReadable(w: World, w2: World, s: Store, table: seq<Ref>, top: Slot)
    requires Prepared(w, s, table, top) && SlotTyped(top) && StoreTyped(s) && |table| < INT_LIMIT
    requires NoClosures(s, table) && TableReadable(w, w2, s, table) && SlotReadable(w, w2, s, top)
    ensures ArchiveReady(w, s, table, top)
    ensures ArchiveFits(ToArchive(w, s, table, top)) && Readable(w2, ToArchive(w, s, table, top))
  {
    hide StoreTyped, ContentsTyped;
    TopSizable(w, s, table, top);
    var a := ToArchive(w, s, table, top);
    forall k | 0 <= k < |table|
      ensures RecordFits(a.records[k]) && RecordReadable(w2, a.records[k])
      ensures ContentsReadable(w2, |a.records|, a.records[k].contents)
    {
      RecordIsReadable(w, w2, s, table, top, k);
    }
    assert table != [] ==> EntryReady(w, s, table, 0);
  }

  lemma RecordIsReadable(w: World, w2: World, s: Store, table: seq<Ref>, top: Slot, k: nat)
    requires Prepared(w, s, table, top) && StoreTyped(s) && k < |table| < INT_LIMIT
    requires NoClosures(s, table) && TableReadable(w, w2, s, table) && TableKnown(w, s, table)
    ensures var r := ToRecords(w, s, table)[k];
            RecordFits(r) && RecordReadable(w2, r) && ContentsReadable(w2, |table|, r.contents)
  {
    var obj := s[table[k]];
    assert EntryReady(w, s, table, k) && ClassReadable(w2, obj) && BodyReadable(w, w2, s, obj.body);
    assert BodyTyped(obj.body);
    if obj.body.Slots? {
      forall i | 0 <= i < |obj.body.slots|
        ensures var t := ToToken(w, s, obj.body.slots[i]); TokenFits(t) && TokenReadable(w2, |table|, t)
      {
        var slot := obj.body.slots[i];
        assert SlotListed(w, s, table, slot) && SlotReadable(w, w2, s, slot) && SlotTyped(slot);
      }
    }
  }

  // ---- the graph that is read ----

  /** What stands in the new graph for a slot of the archived one. */
  ghost function Counterpart(w: World, s: Store, w2: World, table2: seq<Ref>, slot: Slot): Slot
    requires SlotKnown(w, s, slot)
  {
    ToSlot(w2, table2, ToToken(w, s, slot))
  }

  /**
    What a slot has to become: an object of the table the new object at the same place, a class the reader's class of
    that name, the process and the interpreter the reader's own, a raw pointer nil, and anything else itself.
   */
  ghost predicate StandsFor(w: World, s: Store, table: seq<Ref>, w2: World, table2: seq<Ref>, slot: Slot, slot2: Slot) {
    match slot
    case Obj(ref) =>
      && ref in s
      && (match s[ref].kind
          case ClassKind => ref in w.names && slot2 == ReadersClass(w2, w.names[ref])
          case ProcessKind => slot2 == Obj(w2.process)
          case InterpreterKind => slot2 == Obj(w2.interpreter)
          case _ => |table2| == |table| && exists k :: 0 <= k < |table| && table[k] == ref && slot2 == Obj(table2[k]))
    case Ptr(_) => slot2 == Nil
    case Int(value) => slot2 == Int(value)
    case Sym(name) => slot2 == Sym(name)
    case Char(code) => slot2 == Char(code)
    case Nil => slot2 == Nil
    case False => slot2 == False
    case True => slot2 == True
    case Float(bits) => slot2 == Float(bits)
  }

  ghost function ReadersClass(w2: World, name: Name): Slot {
    if name in w2.classes then Obj(w2.classes[name].ref) else Nil
  }

  lemma CounterpartStands(w: World, s: Store, table: seq<Ref>, w2: World, table2: seq<Ref>, slot: Slot)
    requires SlotListed(w, s, table, slot) && |table2| == |table|
    ensures SlotKnown(w, s, slot) && StandsFor(w, s, table, w2, table2, slot, Counterpart(w, s, w2, table2, slot))
  {
  }

  /** In the reader, classes, the process and the interpreter are objects of those kinds. */
  ghost predicate WorldSettled(w2: World, s: Store) {
    && (forall name :: name in w2.classes ==> w2.classes[name].ref in s && s[w2.classes[name].ref].kind in NAMED)
    && w2.process in s && s[w2.process].kind in NAMED
    && w2.interpreter in s && s[w2.interpreter].kind in NAMED
  }

  /** A graph that was archived from `s`, and the graph that was read from the archive into `s2`. */
  ghost predicate ReadBack(w: World, s: Store, table: seq<Ref>, top: Slot,
                           w2: World, before: Store, s2: Store, table2: seq<Ref>) {
    && Prepared(w, s, table, top) && TableReadable(w, w2, s, table)
    && ArchiveReady(w, s, table, top) && Readable(w2, ToArchive(w, s, table, top))
    && WorldSettled(w2, before)
    && Instances(before, s2, table2, Fills(w2, table2, ToArchive(w, s, table, top)))
  }

  /** Each object has a counterpart like it, slot by slot. */
  lemma CounterpartObject(w: World, s: Store, table: seq<Ref>, top: Slot,
                          w2: World, before: Store, s2: Store, table2: seq<Ref>, k: nat)
    requires ReadBack(w, s, table, top, w2, before, s2, table2) && k < |table|
    ensures |table2| == |table| && table[k] in s && table2[k] in s2
    ensures s2[table2[k]].cls == s[table[k]].cls && s2[table2[k]].kind == s[table[k]].kind
    ensures var body, body2 := s[table[k]].body, s2[table2[k]].body;
            if body.Slots? then
              && body2.Slots? && |body2.slots| == |body.slots|
              && forall i :: 0 <= i < |body.slots| ==>
                   SlotListed(w, s, table, body.slots[i])
                   && body2.slots[i] == Counterpart(w, s, w2, table2, body.slots[i])
                   && StandsFor(w, s, table, w2, table2, body.slots[i], body2.slots[i])
            else body2 == body
  {
    hide StandsFor;
    var a := ToArchive(w, s, table, top);
    assert EntryReady(w, s, table, k);
    assert a.records[k] == Record(s[table[k]].cls, ToContents(w, s, s[table[k]].body));
    assert s2[table2[k]] == Fills(w2, table2, a)[k] == Filled(w2, table2, a.records[k]);
    assert ClassReadable(w2, s[table[k]]);
    if s[table[k]].body.Slots? {
      forall i | 0 <= i < |s[table[k]].body.slots|
        ensures SlotListed(w, s, table, s[table[k]].body.slots[i])
        ensures StandsFor(w, s, table, w2, table2, s[table[k]].body.slots[i],
                          Counterpart(w, s, w2, table2, s[table[k]].body.slots[i]))
      {
        CounterpartStands(w, s, table, w2, table2, s[table[k]].body.slots[i]);
      }
    }
  }

  ghost predicate EndStandsFor(w: World, s: Store, table: seq<Ref>, w2: World, table2: seq<Ref>, end: End, end2: End) {
    if end.At? then end2.At? && StandsFor(w, s, table, w2, table2, end.slot, end2.slot) else end2 == Nowhere
  }

  function CounterpartEnd(w: World, s: Store, w2: World, table2: seq<Ref>, end: End): End
    requires end.At? ==> SlotKnown(w, s, end.slot)
  {
    if end.At? then At(ToSlot(w2, table2, ToToken(w, s, end.slot))) else end
  }

  /** Where a walk through the archived graph ends, the same walk through the new graph ends at the counterpart. */
  lemma {:induction false} ReadFollowsWritten(w: World, s: Store, table: seq<Ref>, top: Slot,
      w2: World, before: Store, s2: Store, table2: seq<Ref>, slot: Slot, path: seq<nat>)
    requires ReadBack(w, s, table, top, w2, before, s2, table2) && SlotListed(w, s, table, slot)
    ensures var end := Follow(s, ARCHIVING.closed, slot, path);
            && (end.At? ==> SlotListed(w, s, table, end.slot))
            && Follow(s2, ARCHIVING.closed, Counterpart(w, s, w2, table2, slot), path)
               == CounterpartEnd(w, s, w2, table2, end)
    ensures EndStandsFor(w, s, table, w2, table2, Follow(s, ARCHIVING.closed, slot, path),
                         Follow(s2, ARCHIVING.closed, Counterpart(w, s, w2, table2, slot), path))
    decreases |path|
  {
    hide Prepared, TableReadable, ArchiveReady, Readable, Instances, WorldSettled, StandsFor;
    SameLength(w, s, table, top, w2, before, s2, table2);
    if path == [] { CounterpartStands(w, s, table, w2, table2, slot); }
    if path != [] && slot.Obj? {
      if s[slot.ref].kind in NAMED {
        NamedCounterpart(w, s, table, top, w2, before, s2, table2, slot);
      } else {
        var k := s[slot.ref].scratch;
        CounterpartObject(w, s, table, top, w2, before, s2, table2, k);
        assert Counterpart(w, s, w2, table2, slot) == Obj(table2[k]);
        if s[slot.ref].body.Slots? && path[0] < |s[slot.ref].body.slots| {
          var next := s[slot.ref].body.slots[path[0]];
          ReadFollowsWritten(w, s, table, top, w2, before, s2, table2, next, path[1..]);
        }
      }
    }
  }

  lemma SameLength(w: World, s: Store, table: seq<Ref>, top: Slot,
                   w2: World, before: Store, s2: Store, table2: seq<Ref>)
    requires ReadBack(w, s, table, top, w2, before, s2, table2)
    ensures |table2| == |table|
  {
  }

  lemma NamedCounterpart(w: World, s: Store, table: seq<Ref>, top: Slot,
                         w2: World, before: Store, s2: Store, table2: seq<Ref>, slot: Slot)
    requires ReadBack(w, s, table, top, w2, before, s2, table2) && SlotListed(w, s, table, slot)
    requires slot.Obj? && s[slot.ref].kind in NAMED
    ensures var c := Counterpart(w, s, w2, table2, slot);
            c.Obj? ==> c.ref in s2 && s2[c.ref].kind in NAMED
  {
  }

  /** Two walks meet in one object of the new graph just when they meet in one object of the archived graph. */
  lemma SharingKept(w: World, s: Store, table: seq<Ref>, top: Slot,
      w2: World, before: Store, s2: Store, table2: seq<Ref>, left: seq<nat>, right: seq<nat>)
    requires ReadBack(w, s, table, top, w2, before, s2, table2)
    requires var l := Follow(s, ARCHIVING.closed, top, left);
             l.At? && l.slot.Obj? && l.slot.ref in s && s[l.slot.ref].kind !in NAMED
    requires var r := Follow(s, ARCHIVING.closed, top, right);
             r.At? && r.slot.Obj? && r.slot.ref in s && s[r.slot.ref].kind !in NAMED
    ensures SlotKnown(w, s, top)
    ensures var top2 := Counterpart(w, s, w2, table2, top);
            Follow(s, ARCHIVING.closed, top, left) == Follow(s, ARCHIVING.closed, top, right)
            <==> Follow(s2, ARCHIVING.closed, top2, left) == Follow(s2, ARCHIVING.closed, top2, right)
  {
    hide TableReadable, ArchiveReady, Readable, Follow, Instances, WorldSettled;
    ReadFollowsWritten(w, s, table, top, w2, before, s2, table2, top, left);
    ReadFollowsWritten(w, s, table, top, w2, before, s2, table2, top, right);
    var l, r := Follow(s, ARCHIVING.closed, top, left).slot.ref, Follow(s, ARCHIVING.closed, top, right).slot.ref;
    Apart(w, s, table, top, w2, before, s2, table2, l, r);
  }

  /** Different objects of the table have different counterparts. */
  lemma Apart(w: World, s: Store, table: seq<Ref>, top: Slot,
              w2: World, before: Store, s2: Store, table2: seq<Ref>, l: Ref, r: Ref)
    requires ReadBack(w, s, table, top, w2, before, s2, table2)
    requires l in s && r in s && s[l].kind !in NAMED && s[r].kind !in NAMED
    requires SlotListed(w, s, table, Obj(l)) && SlotListed(w, s, table, Obj(r))
    ensures Counterpart(w, s, w2, table2, Obj(l)) == Counterpart(w, s, w2, table2, Obj(r)) <==> l == r
  {
    hide TableReadable, ArchiveReady, Readable, WorldSettled;
    CounterpartObject(w, s, table, top, w2, before, s2, table2, s[l].scratch);
    assert s[l].scratch != s[r].scratch ==> table2[s[l].scratch] != table2[s[r].scratch];
  }

  // ---- one archiver writes, another reads ----

  /** Everything that a value reaches and that may be archived can be read back. */
  ghost predicate GraphReadable(w: World, w2: World, s: Store, top: Slot) {
    top.Obj? ==> forall o {:trigger s[o].body} ::
      o in s && s[o].kind !in ARCHIVING.closed && Reaches(s, ARCHIVING.closed, top.ref, o) ==>
        ClassReadable(w2, s[o]) && BodyReadable(w, w2, s, s[o].body)
  }

  lemma ReadableStays(w: World, w2: World, s0: Store, s: Store, table: seq<Ref>, top: Slot)
    requires GraphReadable(w, w2, s0, top) && StoreTyped(s0) && ClosuresFramed(s0) && SlotReadable(w, w2, s0, top)
    requires s.Keys == s0.Keys && forall o :: o in s0 ==> Intact(s0, s, o)
    requires Prepared(w, s, table, top)
    requires top.Obj? ==> forall o :: o in table ==> Reaches(s0, ARCHIVING.closed, top.ref, o)
    ensures StoreTyped(s) && TableReadable(w, w2, s, table) && SlotReadable(w, w2, s, top)
    ensures ClosuresFramed(s) && NoClosures(s, table)
  {
    forall o | o in s && s[o].kind.FunctionKind? ensures Framed(s, s[o]) {
      assert Intact(s0, s, o) && Framed(s0, s0[o]) && Intact(s0, s, s0[o].body.slots[1].ref);
    }
    PreparedHasNoClosures(w, s, table, top);
    assert top.Obj? && top.ref in s ==> Intact(s0, s, top.ref);
    forall o | o in s
      ensures BodyTyped(s[o].body)
    {
      assert Intact(s0, s, o) && BodyTyped(s0[o].body);
    }
    forall k | 0 <= k < |table| && table[k] in s
      ensures ClassReadable(w2, s[table[k]]) && BodyReadable(w, w2, s, s[table[k]].body)
    {
      var o := table[k];
      assert Intact(s0, s, o) && EntryReady(w, s, table, k) && o in table;
      assert s0[o].body == s[o].body;
      if s[o].body.Slots? {
        forall i | 0 <= i < |s[o].body.slots|
          ensures SlotReadable(w, w2, s, s[o].body.slots[i])
        {
          var slot := s[o].body.slots[i];
          assert SlotReadable(w, w2, s0, slot) && SlotListed(w, s, table, slot);
          assert slot.Obj? ==> Intact(s0, s, slot.ref);
        }
      }
    }
  }

  lemma {:induction false} DistinctFit(table: seq<Ref>, room: set<Ref>)
    requires AllDistinct(table) && forall k :: 0 <= k < |table| ==> table[k] in room
    ensures |table| <= |room|
  {
    if table != [] {
      var n := |table| - 1;
      DistinctFit(table[..n], room - {table[n]});
    }
  }

  lemma FewEntries(w: World, s: Store, table: seq<Ref>, top: Slot)
    requires Prepared(w, s, table, top)
    ensures |table| <= |s|
  {
    forall k | 0 <= k < |table|
      ensures table[k] in s && s[table[k]].scratch == k
    {
      assert EntryReady(w, s, table, k);
    }
    DistinctFit(table, s.Keys);
  }

  lemma BeginsWithMagic(a: Archive)
    requires ArchiveTyped(a)
    ensures |ArchiveBytes(a)| >= HEADER_SIZE && HasMagic(ArchiveBytes(a)) && ArchiveBytes(a) + [] == ArchiveBytes(a)
  {
    hide BigEndian, FromBigEndian, Headers, Bodies, TokenBytes;
    var rest := Int32Bytes(VERSION) + Int32Bytes(|a.records|)
                + if a.records == [] then TokenBytes(a.top) else Flat(Headers(a.records)) + Flat(Bodies(a.records));
    assert ArchiveBytes(a) == Int32Bytes(MAGIC) + rest;
    FrontWord(4, MAGIC, rest);
  }

  /** The same objects, apart from their scratch fields. */
  ghost predicate SameGraph(s0: Store, s: Store) {
    s.Keys == s0.Keys && forall o :: o in s0 ==> Intact(s0, s, o)
  }

  /** A numbered graph and the archive that can be written of it and read again. */
  ghost predicate Archived(w: World, s: Store, table: seq<Ref>, top: Slot, w2: World, a: Archive) {
    && Prepared(w, s, table, top) && TableReadable(w, w2, s, table) && ArchiveReady(w, s, table, top)
    && ArchiveTyped(a) && ArchiveFits(a) && Readable(w2, a) && a == ToArchive(w, s, table, top)
  }

  /** The whole way to the bytes: it fails just when the value reaches something that is refused. */
  method ArchiveValue(writer: Archiver, slot: Slot, ghost w2: World)
      returns (ok: bool, ghost archived: Store, ghost a: Archive)
    requires writer.stream.written == []
    requires writer.numObjects == 0 && writer.objectArray.Length == INITIAL_CAPACITY
    requires WellFormed(writer.store) && SlotOk(writer.store, slot) && WorldKnows(writer.world, writer.store)
    requires forall r :: r in writer.store ==> !writer.store[r].marked
    requires StoreTyped(writer.store) && SlotTyped(slot) && |writer.store| < INT_LIMIT
    requires ClosuresFramed(writer.store)
    requires GraphReadable(writer.world, w2, writer.store, slot) && SlotReadable(writer.world, w2, writer.store, slot)
    modifies writer, writer.objectArray, writer.stream`written
    ensures ok <==> !(slot.Obj? && RefusedReached(old(writer.store), slot.ref))
    ensures writer.numObjects <= writer.objectArray.Length
    ensures writer.objectArray == old(writer.objectArray) || fresh(writer.objectArray)
    ensures ok ==>
      && SameGraph(old(writer.store), archived) && SameButMarks(archived, writer.store)
      && Archived(writer.world, archived, writer.Table(), slot, w2, a) && writer.stream.written == ArchiveBytes(a)
  {
    hide Prepared, WellFormed, StoreTyped, GraphReadable, TableReadable, Readable, ArchiveFits, ArchiveBytes;
    hide RefusedReached, WorldKnows, SlotReadable, NoClosures, ClosuresFramed, Reaches, ArchiveTyped, TableKnown,
      SlotKnown;
    ghost var s0 := writer.store;
    ok := writer.PrepareToWriteArchive(slot);
    archived, a := writer.store, Archive(TheProcess, []);
    if ok {
      ghost var w, table := writer.world, writer.Table();
      FewEntries(w, archived, table, slot);
      assert |archived.Keys| == |s0.Keys|;
      ReadableStays(w, w2, s0, archived, table, slot);
      WrittenIsReadable(w, w2, archived, table, slot);
      a := ToArchive(w, archived, table, slot);
      writer.WriteArchive();
    }
  }

  /** Archives a value with one archiver and reads it with another: the two graphs correspond. */
  method ArchiveAndRead(writer: Archiver, reader: Archiver, slot: Slot)
      returns (ok: bool, copy: Slot, ghost archived: Store)
    requires writer != reader && writer.stream != reader.stream && writer.stream.written == []
    requires writer.objectArray != reader.objectArray
    requires writer.numObjects == 0 && writer.objectArray.Length == INITIAL_CAPACITY
    requires reader.Allocating() && reader.objectArray.Length == INITIAL_CAPACITY
    requires WellFormed(writer.store) && SlotOk(writer.store, slot) && WorldKnows(writer.world, writer.store)
    requires forall r :: r in writer.store ==> !writer.store[r].marked
    requires StoreTyped(writer.store) && SlotTyped(slot) && |writer.store| < INT_LIMIT
    requires ClosuresFramed(writer.store)
    requires GraphReadable(writer.world, reader.world, writer.store, slot)
    requires SlotReadable(writer.world, reader.world, writer.store, slot)
    requires WorldSettled(reader.world, reader.store)
    modifies writer, writer.objectArray, writer.stream, reader, reader.objectArray, reader.stream
    ensures ok <==> !(slot.Obj? && RefusedReached(old(writer.store), slot.ref))
    ensures ok ==>
      && SameGraph(old(writer.store), archived)
      && writer.numObjects <= writer.objectArray.Length && reader.numObjects <= reader.objectArray.Length
      && ReadBack(writer.world, archived, writer.Table(), slot,
                  reader.world, old(reader.store), reader.store, reader.Table())
      && copy == Counterpart(writer.world, archived, reader.world, reader.Table(), slot)
      && StandsFor(writer.world, archived, writer.Table(), reader.world, reader.Table(), slot, copy)
  {
    hide Prepared, WellFormed, StoreTyped, GraphReadable, Readable, ArchiveFits, Instances, WorldSettled;
    hide RefusedReached, WorldKnows, ArchiveBytes, SlotReadable, HasMagic, Reaches, ArchiveTyped, SameGraph, Archived;
    hide SameButMarks, Fills, ReadBack, SlotKnown, SlotOk, ClosuresFramed, StandsFor;
    copy := Nil;
    ghost var a;
    ok, archived, a := ArchiveValue(writer, slot, reader.world);
    if ok {
      ghost var table := writer.Table();
      ArchivedFacts(writer.world, archived, table, slot, reader.world, a);
      reader.stream.left := writer.stream.written;
      var read;
      read, copy := reader.ReadArchive(a, []);
      assert writer.Table() == table;
      IsReadBack(writer.world, archived, table, slot, reader.world, old(reader.store), reader.store, reader.Table(), a);
    }
  }

  lemma ArchivedFacts(w: World, s: Store, table: seq<Ref>, top: Slot, w2: World, a: Archive)
    requires Archived(w, s, table, top, w2, a)
    ensures ArchiveTyped(a) && ArchiveFits(a) && Readable(w2, a) && |a.records| == |table|
    ensures |ArchiveBytes(a)| >= HEADER_SIZE && HasMagic(ArchiveBytes(a)) && ArchiveBytes(a) + [] == ArchiveBytes(a)
  {
    BeginsWithMagic(a);
  }

  lemma IsReadBack(w: World, s: Store, table: seq<Ref>, top: Slot,
                   w2: World, before: Store, s2: Store, table2: seq<Ref>, a: Archive)
    requires Archived(w, s, table, top, w2, a) && WorldSettled(w2, before)
    requires Readable(w2, a) && Instances(before, s2, table2, Fills(w2, table2, a))
    ensures ReadBack(w, s, table, top, w2, before, s2, table2)
    ensures SlotKnown(w, s, top) && ToSlot(w2, table2, a.top) == Counterpart(w, s, w2, table2, top)
    ensures StandsFor(w, s, table, w2, table2, top, Counterpart(w, s, w2, table2, top))
  {
    hide StandsFor;
    CounterpartStands(w, s, table, w2, table2, top);
  }
}
