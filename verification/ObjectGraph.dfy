/**
  The object store of the language as a graph. An object has a class, a kind (which of the core classes the copier
  and the archiver ask about it descends from), a body, and the two scratch fields that graph walks use: the mark
  and scratch1.
 */
module ObjectGraph {
  type Ref = nat

  type Byte = x: int | 0 <= x < 256

  /** The characters of a symbol, without the terminating zero. */
  type Name = seq<Byte>

  datatype Kind =
    | ClassKind | ProcessKind | InterpreterKind | MethodKind | ThreadKind | FrameKind | FunctionKind
    | RawArrayKind | ArrayKind | PlainKind

  /** A tagged value. A float is its 64 bits. */
  datatype Slot =
    | Obj(ref: Ref) | Int(value: int) | Sym(name: Name) | Char(code: int)
    | Nil | False | True | Ptr(address: nat) | Float(bits: nat)

  datatype Format = Double | SingleFloat | Int32 | Int16 | Int8 | CharFormat

  /** Slots are the formats up to `obj_slot`; the elements of the other raw arrays are kept as unsigned words. */
  datatype Body = Slots(slots: seq<Slot>) | Words(format: Format, words: seq<nat>) | Symbols(names: seq<Name>)

  datatype Object = Object(cls: Name, kind: Kind, body: Body, marked: bool, scratch: int)

  type Store = map<Ref, Object>

  /** An object is a raw array just when its body is not slots, and its slots refer to objects of the store. */
  ghost predicate ObjectOk(s: Store, o: Ref)
    requires o in s
  {
    && (s[o].kind.RawArrayKind? <==> !s[o].body.Slots?)
    && (s[o].body.Slots? ==> forall i :: 0 <= i < |s[o].body.slots| ==> SlotOk(s, s[o].body.slots[i]))
  }

  ghost predicate SlotOk(s: Store, slot: Slot) { slot.Obj? ==> slot.ref in s }

  ghost predicate WellFormed(s: Store) { forall o {:trigger ObjectOk(s, o)} :: o in s ==> ObjectOk(s, o) }

  lemma WellFormedAt(s: Store, o: Ref)
    requires WellFormed(s) && o in s
    ensures ObjectOk(s, o)
  {
  }

  // ---- walking ----

  /** A walk that does not enter objects of some kinds steps from `a` to the objects in the slots of `a`. */
  ghost predicate Child(s: Store, closed: set<Kind>, a: Ref, b: Ref) {
    a in s && s[a].kind !in closed && s[a].body.Slots? && Obj(b) in s[a].body.slots
  }

  ghost predicate Path(s: Store, closed: set<Kind>, p: seq<Ref>) {
    |p| > 0 && forall i {:trigger StepOk(s, closed, p, i)} :: 0 <= i < |p| - 1 ==> StepOk(s, closed, p, i)
  }

  ghost predicate StepOk(s: Store, closed: set<Kind>, p: seq<Ref>, i: nat)
    requires i + 1 < |p|
  {
    Child(s, closed, p[i], p[i + 1])
  }

  ghost predicate PathTo(s: Store, closed: set<Kind>, a: Ref, p: seq<Ref>, b: Ref) {
    Path(s, closed, p) && p[0] == a && p[|p| - 1] == b
  }

  ghost predicate Reaches(s: Store, closed: set<Kind>, a: Ref, b: Ref) {
    exists p :: PathTo(s, closed, a, p, b)
  }

  lemma ReachesItself(s: Store, closed: set<Kind>, a: Ref)
    ensures Reaches(s, closed, a, a)
  {
    assert PathTo(s, closed, a, [a], a);
  }

  lemma ReachesChild(s: Store, closed: set<Kind>, a: Ref, b: Ref, c: Ref)
    requires Reaches(s, closed, a, b) && Child(s, closed, b, c)
    ensures Reaches(s, closed, a, c)
  {
    var p :| PathTo(s, closed, a, p, b);
    var q := p + [c];
    forall i | 0 <= i < |q| - 1
      ensures StepOk(s, closed, q, i)
    {
      assert i < |p| - 1 ==> StepOk(s, closed, p, i);
    }
    assert PathTo(s, closed, a, q, c);
  }

  /** Whoever walks into every child of what it has seen has seen everything that can be reached. */
  lemma {:induction false} ClosedSetHoldsPath(s: Store, closed: set<Kind>, seen: set<Ref>, p: seq<Ref>)
    requires Path(s, closed, p) && p[0] in seen
    requires forall a, b :: a in seen && Child(s, closed, a, b) ==> b in seen
    ensures p[|p| - 1] in seen
  {
    if |p| > 1 {
      assert StepOk(s, closed, p, 0);
      forall i | 0 <= i < |p[1..]| - 1
        ensures StepOk(s, closed, p[1..], i)
      {
        var j := i + 1;
        assert StepOk(s, closed, p, j);
      }
      ClosedSetHoldsPath(s, closed, seen, p[1..]);
    }
  }

  lemma ClosedSetHoldsReached(s: Store, closed: set<Kind>, seen: set<Ref>, a: Ref)
    requires a in seen
    requires forall a, b :: a in seen && Child(s, closed, a, b) ==> b in seen
    ensures forall b :: Reaches(s, closed, a, b) ==> b in seen
  {
    forall b | Reaches(s, closed, a, b)
      ensures b in seen
    {
      var p :| PathTo(s, closed, a, p, b);
      ClosedSetHoldsPath(s, closed, seen, p);
    }
  }

  /** Where a walk along the slots with the given indices ends; there is no way on from an object of a closed kind. */
  datatype End = Nowhere | At(slot: Slot)

  function Follow(s: Store, closed: set<Kind>, slot: Slot, path: seq<nat>): End
    decreases |path|
  {
    if path == [] then At(slot)
    else if !slot.Obj? || slot.ref !in s || s[slot.ref].kind in closed || !s[slot.ref].body.Slots?
            || path[0] >= |s[slot.ref].body.slots| then Nowhere
    else Follow(s, closed, s[slot.ref].body.slots[path[0]], path[1..])
  }

  // ---- marking ----

  ghost predicate AllDistinct(table: seq<Ref>) {
    forall j, k :: 0 <= j < k < |table| ==> table[j] != table[k]
  }

  /** An object of the original store is as it was, apart from its scratch fields. */
  ghost predicate Intact(s0: Store, s: Store, o: Ref)
    requires o in s0
  {
    o in s && s[o] == s0[o].(marked := s[o].marked, scratch := s[o].scratch)
  }

  /** A graph walk does not enter objects of the closed kinds, and some of these it does not mark either. */
  datatype Walk = Walk(closed: set<Kind>, skipped: set<Kind>)

  ghost function Marked(s0: Store, s: Store): set<Ref> { set o | o in s0 && o in s && s[o].marked }

  ghost function Unmarked(s0: Store, s: Store): set<Ref> { s0.Keys - Marked(s0, s) }

  /** Every child of an object is marked, or of a kind that the walk passes by. */
  ghost predicate KidsMarked(s0: Store, w: Walk, s: Store, o: Ref) {
    forall c :: Child(s0, w.closed, o, c) ==> Seen(s0, w, s, c)
  }

  ghost predicate Seen(s0: Store, w: Walk, s: Store, o: Ref) {
    o in s0 && (o in Marked(s0, s) || s0[o].kind in w.skipped)
  }

  /** From `s` to `s'` the walk from the root has only gone forward, and finished every object it has begun. */
  ghost predicate Extends(s0: Store, w: Walk, root: Ref, s: Store, s': Store) {
    && Marked(s0, s) <= Marked(s0, s')
    && forall o {:trigger KidsMarked(s0, w, s', o)} {:trigger Reaches(s0, w.closed, root, o)} ::
         o in Marked(s0, s') - Marked(s0, s) ==> KidsMarked(s0, w, s', o) && Reaches(s0, w.closed, root, o)
  }

  lemma ExtendsItself(s0: Store, w: Walk, root: Ref, s: Store)
    ensures Extends(s0, w, root, s, s)
  {
  }

  lemma ExtendsFurther(s0: Store, w: Walk, root: Ref, a: Store, b: Store, c: Store)
    requires Extends(s0, w, root, a, b) && Extends(s0, w, root, b, c)
    ensures Extends(s0, w, root, a, c)
  {
    forall o | o in Marked(s0, c) - Marked(s0, a)
      ensures KidsMarked(s0, w, c, o) && Reaches(s0, w.closed, root, o)
    {
      if o in Marked(s0, b) { assert KidsMarked(s0, w, b, o); } else { assert KidsMarked(s0, w, c, o); }
    }
  }

  /** Marking one object and then finishing its children extends the walk by a finished object. */
  lemma ExtendsBy(s0: Store, w: Walk, root: Ref, o: Ref, a: Store, b: Store, c: Store)
    requires Marked(s0, b) == Marked(s0, a) + {o} && Extends(s0, w, root, b, c)
    requires KidsMarked(s0, w, c, o) && Reaches(s0, w.closed, root, o)
    ensures Extends(s0, w, root, a, c)
  {
    forall p | p in Marked(s0, c) - Marked(s0, a)
      ensures KidsMarked(s0, w, c, p) && Reaches(s0, w.closed, root, p)
    {
      if p != o { assert p in Marked(s0, c) - Marked(s0, b); assert KidsMarked(s0, w, c, p); }
    }
  }

  /** A walk that started with no marks and has seen the root has seen just what the root reaches. */
  lemma MarksAreReached(s0: Store, w: Walk, root: Ref, s: Store)
    requires w.skipped <= w.closed
    requires Marked(s0, s0) == {} && Extends(s0, w, root, s0, s) && Seen(s0, w, s, root)
    ensures forall o :: o in Marked(s0, s) ==> Reaches(s0, w.closed, root, o)
    ensures forall o :: Reaches(s0, w.closed, root, o) ==> Seen(s0, w, s, o)
  {
    var seen := set o | o in s0 && Seen(s0, w, s, o);
    forall a, b | a in seen && Child(s0, w.closed, a, b)
      ensures b in seen
    {
      assert a in Marked(s0, s);
      assert KidsMarked(s0, w, s, a);
    }
    ClosedSetHoldsReached(s0, w.closed, seen, root);
    forall o | o in Marked(s0, s)
      ensures Reaches(s0, w.closed, root, o)
    {
      assert KidsMarked(s0, w, s, o);
    }
  }

  lemma MarksStay(s0: Store, w: Walk, root: Ref, s: Store, s': Store)
    requires Extends(s0, w, root, s, s')
    ensures Marked(s0, s) <= Marked(s0, s')
  {
  }

  lemma FewerUnmarked(s0: Store, w: Walk, root: Ref, s: Store, s': Store)
    requires Extends(s0, w, root, s, s')
    ensures Unmarked(s0, s') < Unmarked(s0, s) || Unmarked(s0, s') == Unmarked(s0, s)
  {
  }

  lemma FinishedAt(s0: Store, w: Walk, root: Ref, s: Store, o: Ref)
    requires Marked(s0, s0) == {} && Extends(s0, w, root, s0, s) && o in Marked(s0, s)
    ensures KidsMarked(s0, w, s, o)
  {
  }
}
