/**
  What an archive says, apart from where objects are in memory: a table of records whose slots link to one another by
  number, and how that is laid out in bytes.
 */
module Archives {
  import opened ObjectGraph
  import opened Streams

  /** Kinds that are archived by name or role, and kinds that are refused; a walk enters neither. */
  const NAMED: set<Kind> := {ClassKind, ProcessKind, InterpreterKind}
  const REFUSED: set<Kind> := {MethodKind, ThreadKind, FrameKind}
  const ARCHIVING := Walk(NAMED + REFUSED, NAMED)

  datatype Layout = SlotLayout | WordLayout(format: Format) | SymbolLayout

  /** What a class says about its instances. Instances that are not indexable all have the same size. */
  datatype ClassInfo = ClassInfo(ref: Ref, kind: Kind, layout: Layout, indexable: bool, instSize: nat)

  /** The classes by name, the names of the class objects, and the two objects that are known by their role. */
  datatype World = World(classes: map<Name, ClassInfo>, names: map<Ref, Name>, process: Ref, interpreter: Ref)

  datatype Token = Link(index: nat) | ClassNamed(name: Name) | TheProcess | TheInterpreter | Value(slot: Slot)

  datatype Contents = TokensOf(tokens: seq<Token>) | WordsOf(format: Format, words: seq<nat>) | NamesOf(names: seq<Name>)

  datatype Record = Record(cls: Name, contents: Contents)

  /** An archive without records is a single value. */
  datatype Archive = Archive(top: Token, records: seq<Record>)

  // ---- what fits ----

  predicate NameFits(name: Name) { |name| < 256 }

  predicate TokenFits(t: Token) {
    match t
    case Link(index) => index < INT_LIMIT
    case ClassNamed(name) => NameFits(name)
    case TheProcess => true
    case TheInterpreter => true
    case Value(slot) =>
      && !slot.Obj? && !slot.Ptr? && (slot.Int? ==> IsInt32(slot.value)) && (slot.Char? ==> IsInt32(slot.code))
      && (slot.Sym? ==> NameFits(slot.name)) && (slot.Float? ==> slot.bits < Power(8))
  }

  function Width(format: Format): nat {
    match format
    case Double => 8
    case SingleFloat => 4
    case Int32 => 4
    case Int16 => 2
    case Int8 => 1
    case CharFormat => 1
  }

  function SizeOf(c: Contents): nat {
    match c
    case TokensOf(tokens) => |tokens|
    case WordsOf(_, words) => |words|
    case NamesOf(names) => |names|
  }

  predicate ContentsFit(c: Contents) {
    && SizeOf(c) < INT_LIMIT
    && match c
       case TokensOf(tokens) => forall i :: 0 <= i < |tokens| ==> TokenFits(tokens[i])
       case WordsOf(format, words) => forall i :: 0 <= i < |words| ==> words[i] < Power(Width(format))
       case NamesOf(names) => forall i :: 0 <= i < |names| ==> NameFits(names[i])
  }

  predicate RecordFits(r: Record) { NameFits(r.cls) && ContentsFit(r.contents) }

  predicate ArchiveFits(a: Archive) {
    && |a.records| < INT_LIMIT && TokenFits(a.top) && (a.records != [] ==> a.top == Link(0))
    && forall i {:trigger a.records[i]} :: 0 <= i < |a.records| ==> RecordFits(a.records[i])
  }

  // ---- bytes ----

  const OBJECT_TAG: Byte := 'o' as int
  const CLASS_TAG: Byte := 'C' as int
  const PROCESS_TAG: Byte := 'P' as int
  const INTERPRETER_TAG: Byte := 'R' as int
  const INT_TAG: Byte := 'i' as int
  const SYMBOL_TAG: Byte := 's' as int
  const CHAR_TAG: Byte := 'c' as int
  const FLOAT_TAG: Byte := 'f' as int
  const TRUE_TAG: Byte := 'T' as int
  const FALSE_TAG: Byte := 'F' as int
  const NIL_TAG: Byte := 'N' as int

  /** The characters !SCa as a number. */
  const MAGIC := 0x2153_4361
  const VERSION := 2
  const HEADER_SIZE := 12

  /** The types of the fields of slots, which is all that writing relies on. */
  predicate TokenTyped(t: Token) {
    match t
    case Link(index) => index < INT_LIMIT
    case Value(slot) =>
      !slot.Obj? && !slot.Ptr? && (slot.Int? ==> IsInt32(slot.value)) && (slot.Char? ==> IsInt32(slot.code))
    case _ => true
  }

  function TokenTag(t: Token): Byte
    requires TokenTyped(t)
  {
    match t
    case Link(_) => OBJECT_TAG
    case ClassNamed(_) => CLASS_TAG
    case TheProcess => PROCESS_TAG
    case TheInterpreter => INTERPRETER_TAG
    case Value(slot) =>
      match slot
      case Int(_) => INT_TAG
      case Sym(_) => SYMBOL_TAG
      case Char(_) => CHAR_TAG
      case Nil => NIL_TAG
      case False => FALSE_TAG
      case True => TRUE_TAG
      case Float(_) => FLOAT_TAG
  }

  function TokenTail(t: Token): seq<Byte>
    requires TokenTyped(t)
  {
    match t
    case Link(index) => Int32Bytes(index)
    case ClassNamed(name) => SymbolBytes(name)
    case TheProcess => []
    case TheInterpreter => []
    case Value(slot) =>
      match slot
      case Int(value) => Int32Bytes(value)
      case Sym(name) => SymbolBytes(name)
      case Char(code) => Int32Bytes(code)
      case Float(bits) => BigEndian(8, bits)
      case _ => []
  }

  function TokenBytes(t: Token): (bytes: seq<Byte>)
    requires TokenTyped(t)
    ensures |bytes| > 0
  {
    [TokenTag(t)] + TokenTail(t)
  }

  predicate ContentsTyped(c: Contents) {
    && SizeOf(c) < INT_LIMIT
    && (c.TokensOf? ==> forall i :: 0 <= i < |c.tokens| ==> TokenTyped(c.tokens[i]))
  }

  /** The bytes of each element. */
  function Parts(c: Contents): (parts: seq<seq<Byte>>)
    requires ContentsTyped(c)
    ensures |parts| == SizeOf(c)
  {
    match c
    case TokensOf(tokens) => seq(|tokens|, i requires 0 <= i < |tokens| => TokenBytes(tokens[i]))
    case WordsOf(format, words) => seq(|words|, i requires 0 <= i < |words| => BigEndian(Width(format), words[i]))
    case NamesOf(names) => seq(|names|, i requires 0 <= i < |names| => SymbolBytes(names[i]))
  }

  function HeaderBytes(r: Record): seq<Byte>
    requires ContentsTyped(r.contents)
  {
    SymbolBytes(r.cls) + Int32Bytes(SizeOf(r.contents))
  }

  predicate ArchiveTyped(a: Archive) {
    && |a.records| < INT_LIMIT && TokenTyped(a.top)
    && forall i {:trigger a.records[i]} :: 0 <= i < |a.records| ==> ContentsTyped(a.records[i].contents)
  }

  function Headers(records: seq<Record>): (parts: seq<seq<Byte>>)
    requires forall i {:trigger records[i]} :: 0 <= i < |records| ==> ContentsTyped(records[i].contents)
    ensures |parts| == |records|
  {
    seq(|records|, i requires 0 <= i < |records| => HeaderBytes(records[i]))
  }

  function Bodies(records: seq<Record>): (parts: seq<seq<Byte>>)
    requires forall i {:trigger records[i]} :: 0 <= i < |records| ==> ContentsTyped(records[i].contents)
    ensures |parts| == |records|
  {
    seq(|records|, i requires 0 <= i < |records| => Flat(Parts(records[i].contents)))
  }

  function HeadBytes(count: nat): (bytes: seq<Byte>)
    requires count < INT_LIMIT
    ensures |bytes| == HEADER_SIZE
  {
    Int32Bytes(MAGIC) + Int32Bytes(VERSION) + Int32Bytes(count)
  }

  function ArchiveBytes(a: Archive): (bytes: seq<Byte>)
    requires ArchiveTyped(a)
  {
    HeadBytes(|a.records|)
    + if a.records == [] then TokenBytes(a.top) else Flat(Headers(a.records)) + Flat(Bodies(a.records))
  }

  // ---- what the size of an archive leaves out: the length of a symbol is kept in one byte ----

  /** The length of a symbol as its field has it. */
  function SymbolLength(name: Name): nat { |name| % 256 }

  /** What its length does not count. */
  function Cut(name: Name): (cut: nat)
    ensures SymbolLength(name) + cut == |name|
    ensures cut == 0 <==> NameFits(name)
  {
    256 * (|name| / 256)
  }

  function TokenCut(t: Token): nat {
    match t
    case ClassNamed(name) => Cut(name)
    case Value(slot) => if slot.Sym? then Cut(slot.name) else 0
    case _ => 0
  }

  /** What is not counted of each element. */
  function Cuts(c: Contents): (cuts: seq<nat>)
    ensures |cuts| == SizeOf(c)
  {
    match c
    case TokensOf(tokens) => seq(|tokens|, i requires 0 <= i < |tokens| => TokenCut(tokens[i]))
    case WordsOf(_, words) => seq(|words|, _ => 0)
    case NamesOf(names) => seq(|names|, i requires 0 <= i < |names| => Cut(names[i]))
  }

  function Sum(s: seq<nat>): nat { if s == [] then 0 else s[0] + Sum(s[1..]) }

  function RecordCut(r: Record): nat { Cut(r.cls) + Sum(Cuts(r.contents)) }

  function RecordCuts(records: seq<Record>): (cuts: seq<nat>)
    ensures |cuts| == |records|
  {
    seq(|records|, k requires 0 <= k < |records| => RecordCut(records[k]))
  }

  function ArchiveCut(a: Archive): nat {
    if a.records == [] then TokenCut(a.top) else Sum(RecordCuts(a.records))
  }

  predicate TokenNameFits(t: Token) {
    (t.ClassNamed? ==> NameFits(t.name)) && (t.Value? && t.slot.Sym? ==> NameFits(t.slot.name))
  }

  predicate ContentsNamesFit(c: Contents) {
    && (c.TokensOf? ==> forall i :: 0 <= i < |c.tokens| ==> TokenNameFits(c.tokens[i]))
    && (c.NamesOf? ==> forall i :: 0 <= i < |c.names| ==> NameFits(c.names[i]))
  }

  /** Every symbol and class name that is written has a length that fits into a byte. */
  predicate NamesFit(a: Archive) {
    if a.records == [] then TokenNameFits(a.top)
    else forall k {:trigger a.records[k]} :: 0 <= k < |a.records| ==>
           NameFits(a.records[k].cls) && ContentsNamesFit(a.records[k].contents)
  }

  lemma {:induction false} SumStep(s: seq<nat>, i: nat)
    requires i < |s|
    ensures Sum(s[..i + 1]) == Sum(s[..i]) + s[i]
    decreases i
  {
    if i == 0 {
      assert s[..1] == [s[0]] && Sum(s[..1][1..]) == 0;
    } else {
      SumStep(s[1..], i - 1);
      assert s[..i + 1][1..] == s[1..][..i] && s[..i][1..] == s[1..][..i - 1];
    }
  }

  lemma SumEnds(s: seq<nat>)
    ensures Sum(s[..0]) == 0 && Sum(s[..|s|]) == Sum(s)
  {
    assert s[..|s|] == s;
  }

  lemma {:induction false} SumIsZero(s: seq<nat>)
    ensures Sum(s) == 0 <==> forall i :: 0 <= i < |s| ==> s[i] == 0
  {
    if s != [] {
      SumIsZero(s[1..]);
      assert forall i :: 0 < i < |s| ==> s[i] == s[1..][i - 1];
    }
  }

  lemma ContentsCut(c: Contents)
    ensures Sum(Cuts(c)) == 0 <==> ContentsNamesFit(c)
    ensures c.WordsOf? ==> Sum(Cuts(c)) == 0
  {
    SumIsZero(Cuts(c));
    match c
    case TokensOf(tokens) =>
      assert forall i :: 0 <= i < |tokens| ==> (Cuts(c)[i] == 0 <==> TokenNameFits(tokens[i]));
    case WordsOf(_, words) =>
    case NamesOf(names) =>
      assert forall i :: 0 <= i < |names| ==> (Cuts(c)[i] == 0 <==> NameFits(names[i]));
  }

  /** Nothing is left out if and only if all names have lengths that fit into a byte. */
  lemma NothingCut(a: Archive)
    ensures ArchiveCut(a) == 0 <==> NamesFit(a)
  {
    hide Cut, Cuts, ContentsNamesFit;
    if a.records != [] {
      var cuts := RecordCuts(a.records);
      SumIsZero(cuts);
      forall k | 0 <= k < |a.records|
        ensures cuts[k] == 0 <==> NameFits(a.records[k].cls) && ContentsNamesFit(a.records[k].contents)
      {
        ContentsCut(a.records[k].contents);
      }
    }
  }

  /** A single symbol of 256 characters takes 270 bytes, of which only 14 are counted. */
  lemma LongSymbolExample(name: Name)
    requires |name| == 256
    ensures var a := Archive(Value(Sym(name)), []);
            |ArchiveBytes(a)| == 270 && ArchiveCut(a) == 256 && !NamesFit(a)
  {
  }

  lemma FitsIsTyped(c: Contents)
    requires ContentsFit(c)
    ensures ContentsTyped(c)
  {
  }

  // ---- from the store to an archive, and back ----

  /** A raw pointer is archived as nil. */
  function ToToken(w: World, s: Store, slot: Slot): Token
    requires SlotKnown(w, s, slot)
  {
    match slot
    case Obj(ref) =>
      (match s[ref].kind
       case ClassKind => ClassNamed(w.names[ref])
       case ProcessKind => TheProcess
       case InterpreterKind => TheInterpreter
       case _ => Link(s[ref].scratch))
    case Ptr(_) => Value(Nil)
    case _ => Value(slot)
  }

  predicate SlotKnown(w: World, s: Store, slot: Slot) {
    slot.Obj? ==> && slot.ref in s && (s[slot.ref].kind.ClassKind? ==> slot.ref in w.names)
                  && (s[slot.ref].kind !in NAMED ==> s[slot.ref].scratch >= 0)
  }

  predicate BodyKnown(w: World, s: Store, body: Body) {
    body.Slots? ==> forall i :: 0 <= i < |body.slots| ==> SlotKnown(w, s, body.slots[i])
  }

  function ToContents(w: World, s: Store, body: Body): (c: Contents)
    requires BodyKnown(w, s, body)
    ensures SizeOf(c) == BodySize(body)
  {
    match body
    case Slots(slots) => TokensOf(seq(|slots|, i requires 0 <= i < |slots| => ToToken(w, s, slots[i])))
    case Words(format, words) => WordsOf(format, words)
    case Symbols(names) => NamesOf(names)
  }

  function BodySize(body: Body): nat {
    match body
    case Slots(slots) => |slots|
    case Words(_, words) => |words|
    case Symbols(names) => |names|
  }

  predicate TableKnown(w: World, s: Store, table: seq<Ref>) {
    forall k {:trigger table[k]} :: 0 <= k < |table| ==> table[k] in s && BodyKnown(w, s, s[table[k]].body)
  }

  function ToRecords(w: World, s: Store, table: seq<Ref>): (records: seq<Record>)
    requires TableKnown(w, s, table)
    ensures |records| == |table|
  {
    seq(|table|, k requires 0 <= k < |table| => Record(s[table[k]].cls, ToContents(w, s, s[table[k]].body)))
  }

  function ToSlot(w: World, table: seq<Ref>, t: Token): Slot {
    match t
    case Link(index) => if index < |table| then Obj(table[index]) else Nil
    case ClassNamed(name) => if name in w.classes then Obj(w.classes[name].ref) else Nil
    case TheProcess => Obj(w.process)
    case TheInterpreter => Obj(w.interpreter)
    case Value(slot) => slot
  }

  function ToBody(w: World, table: seq<Ref>, c: Contents): Body {
    match c
    case TokensOf(tokens) => Slots(seq(|tokens|, i requires 0 <= i < |tokens| => ToSlot(w, table, tokens[i])))
    case WordsOf(format, words) => Words(format, words)
    case NamesOf(names) => Symbols(names)
  }

  // ---- the archive, letter by letter ----

  /** The four bytes of a number. */
  function Word(v: int): seq<Byte> {
    [v / 0x100_0000 % 0x100, v / 0x1_0000 % 0x100, v / 0x100 % 0x100, v % 0x100]
  }

  /** An archive begins with four letters, the version and the number of objects. */
  lemma HeadLiterally(count: nat)
    requires count < INT_LIMIT
    ensures HeadBytes(count) == ['!' as int, 'S' as int, 'C' as int, 'a' as int, 0, 0, 0, 2] + Word(count)
  {
    hide Int32Bytes;
    Int32Literally(MAGIC);
    Int32Literally(VERSION);
    Int32Literally(count);
  }

  /** A slot is written as a letter and what that letter calls for. */
  lemma SlotLiterally(w: World, s: Store, slot: Slot)
    requires SlotKnown(w, s, slot) && TokenTyped(ToToken(w, s, slot))
    ensures var bytes := TokenBytes(ToToken(w, s, slot));
            match slot
            case Nil => bytes == ['N' as int]
            case True => bytes == ['T' as int]
            case False => bytes == ['F' as int]
            case Ptr(_) => bytes == ['N' as int]
            case Int(value) => bytes == ['i' as int] + Word(value)
            case Char(code) => bytes == ['c' as int] + Word(code)
            case Sym(name) => bytes == ['s' as int, |name| % 256] + name
            case Float(bits) => bytes == ['f' as int] + Word(bits / 0x1_0000_0000) + Word(bits)
            case Obj(ref) =>
              match s[ref].kind
              case ClassKind => bytes == ['C' as int, |w.names[ref]| % 256] + w.names[ref]
              case ProcessKind => bytes == ['P' as int]
              case InterpreterKind => bytes == ['R' as int]
              case _ => bytes == ['o' as int] + Word(s[ref].scratch)
  {
    hide Int32Bytes, BigEndian;
    match slot
    case Int(value) => Int32Literally(value);
    case Char(code) => Int32Literally(code);
    case Float(bits) => DoubleLiterally(bits);
    case Obj(ref) => if s[ref].kind !in NAMED { Int32Literally(s[ref].scratch); }
    case _ =>
  }

  lemma DoubleLiterally(bits: nat)
    ensures BigEndian(8, bits) == Word(bits / 0x1_0000_0000) + Word(bits)
  {
    EightBytes(bits);
  }

  /** The head of an object is the name of its class and its size; raw elements have the width of their format. */
  lemma RecordLiterally(r: Record)
    requires ContentsTyped(r.contents)
    ensures HeaderBytes(r) == [|r.cls| % 256] + r.cls + Word(SizeOf(r.contents))
    ensures match r.contents
            case TokensOf(tokens) => Parts(r.contents) == seq(|tokens|, i requires 0 <= i < |tokens| => TokenBytes(tokens[i]))
            case NamesOf(names) =>
              forall i :: 0 <= i < |names| ==> Parts(r.contents)[i] == [|names[i]| % 256] + names[i]
            case WordsOf(format, words) =>
              forall i {:trigger Parts(r.contents)[i]} :: 0 <= i < |words| ==>
                match format
                case Double => Parts(r.contents)[i] == Word(words[i] / 0x1_0000_0000) + Word(words[i])
                case SingleFloat => Parts(r.contents)[i] == Word(words[i])
                case Int32 => Parts(r.contents)[i] == Word(words[i])
                case Int16 => Parts(r.contents)[i] == [words[i] / 0x100 % 0x100, words[i] % 0x100]
                case Int8 => Parts(r.contents)[i] == [words[i] % 0x100]
                case CharFormat => Parts(r.contents)[i] == [words[i] % 0x100]
  {
    hide Int32Bytes;
    Int32Literally(SizeOf(r.contents));
    if r.contents.WordsOf? {
      var words := r.contents.words;
      forall i | 0 <= i < |words|
        ensures BigEndian(8, words[i]) == Word(words[i] / 0x1_0000_0000) + Word(words[i])
        ensures BigEndian(4, words[i]) == Word(words[i])
        ensures BigEndian(2, words[i]) == [words[i] / 0x100 % 0x100, words[i] % 0x100]
        ensures BigEndian(1, words[i]) == [words[i] % 0x100]
      {
        DoubleLiterally(words[i]);
        FourBytes(words[i]);
        assert BigEndian(1, words[i]) == BigEndian(0, words[i] / 0x100) + [words[i] % 0x100];
        assert BigEndian(1, words[i] / 0x100) == BigEndian(0, words[i] / 0x100 / 0x100) + [words[i] / 0x100 % 0x100];
        assert BigEndian(2, words[i]) == BigEndian(1, words[i] / 0x100) + [words[i] % 0x100];
      }
    }
  }

  // ---- a numbered graph ----

  /** Every class object has a name. */
  ghost predicate WorldKnows(w: World, s: Store) {
    forall o :: o in s && s[o].kind.ClassKind? ==> o in w.names
  }

  /** An object that is referred to goes by its name or role, or is in the table at its number. */
  ghost predicate SlotListed(w: World, s: Store, table: seq<Ref>, slot: Slot) {
    slot.Obj? ==>
      && slot.ref in s
      && if s[slot.ref].kind in NAMED then s[slot.ref].kind.ClassKind? ==> slot.ref in w.names
         else s[slot.ref].kind !in REFUSED && 0 <= s[slot.ref].scratch < |table| && table[s[slot.ref].scratch] == slot.ref
  }

  ghost predicate EntryReady(w: World, s: Store, table: seq<Ref>, k: nat)
    requires k < |table|
  {
    var o := table[k];
    && o in s && s[o].scratch == k && s[o].kind !in ARCHIVING.closed
    && (s[o].kind.RawArrayKind? <==> !s[o].body.Slots?)
    && (s[o].body.Slots? ==>
          forall i :: 0 <= i < |s[o].body.slots| ==> SlotListed(w, s, table, s[o].body.slots[i]))
  }

  ghost predicate Prepared(w: World, s: Store, table: seq<Ref>, top: Slot) {
    && (forall k {:trigger EntryReady(w, s, table, k)} :: 0 <= k < |table| ==> EntryReady(w, s, table, k))
    && SlotListed(w, s, table, top)
    && if top.Obj? && s[top.ref].kind !in NAMED then table != [] && table[0] == top.ref else table == []
  }

  /** The ranges of the C types of the fields of slots and of object sizes. */
  predicate SlotTyped(slot: Slot) {
    (slot.Int? ==> IsInt32(slot.value)) && (slot.Char? ==> IsInt32(slot.code))
  }

  predicate BodyTyped(body: Body) {
    BodySize(body) < INT_LIMIT && (body.Slots? ==> forall i :: 0 <= i < |body.slots| ==> SlotTyped(body.slots[i]))
  }

  ghost predicate StoreTyped(s: Store) { forall o {:trigger s[o].body} :: o in s ==> BodyTyped(s[o].body) }

  ghost predicate NoClosures(s: Store, table: seq<Ref>) {
    forall k :: 0 <= k < |table| && table[k] in s ==> !s[table[k]].kind.FunctionKind?
  }

  // ---- closures ----

  /** A closure has a block and a context; the interpreter only makes closures whose context is a frame. */
  ghost predicate Framed(s: Store, obj: Object) {
    && obj.body.Slots? && |obj.body.slots| == 2 && obj.body.slots[1].Obj?
    && obj.body.slots[1].ref in s && s[obj.body.slots[1].ref].kind.FrameKind?
  }

  /** Where the definition of a function has the block that it was defined in. */
  const CONTEXT_DEF := 6

  /** The struct of a closure, and that of its block as far as it is looked at. */
  predicate ClosureTyped(s: Store, obj: Object) {
    && obj.body.Slots? && |obj.body.slots| == 2 && obj.body.slots[0].Obj? && obj.body.slots[0].ref in s
    && s[obj.body.slots[0].ref].body.Slots? && |s[obj.body.slots[0].ref].body.slots| > CONTEXT_DEF
  }

  /** The context that is written of a closure: none if it was defined in no block. */
  function WrittenContext(s: Store, obj: Object): Slot
    requires ClosureTyped(s, obj)
  {
    if s[obj.body.slots[0].ref].body.slots[CONTEXT_DEF].Nil? then Nil else obj.body.slots[1]
  }

  ghost predicate ClosuresFramed(s: Store) {
    forall o {:trigger s[o].kind} :: o in s && s[o].kind.FunctionKind? ==> Framed(s, s[o])
  }

  /** Frames are refused, so no closure gets into a table. */
  lemma PreparedHasNoClosures(w: World, s: Store, table: seq<Ref>, top: Slot)
    requires Prepared(w, s, table, top) && ClosuresFramed(s)
    ensures NoClosures(s, table)
  {
    forall k | 0 <= k < |table| && table[k] in s ensures !s[table[k]].kind.FunctionKind? {
      assert EntryReady(w, s, table, k);
      var body := s[table[k]].body;
      assert body.Slots? && |body.slots| == 2 ==> SlotListed(w, s, table, body.slots[1]);
    }
  }

  predicate NotAFrame(s: Store, slot: Slot) { slot.Obj? && slot.ref in s ==> !s[slot.ref].kind.FrameKind? }

  predicate PtrFreeBody(body: Body) {
    body.Slots? ==> forall i :: 0 <= i < |body.slots| ==> !body.slots[i].Ptr?
  }

  ghost predicate PtrFree(s: Store, table: seq<Ref>, top: Slot) {
    !top.Ptr? && forall k :: 0 <= k < |table| && table[k] in s ==> PtrFreeBody(s[table[k]].body)
  }

  ghost predicate ArchiveReady(w: World, s: Store, table: seq<Ref>, top: Slot) {
    TableKnown(w, s, table) && SlotKnown(w, s, top) && ArchiveTyped(ToArchive(w, s, table, top))
  }

  function ToArchive(w: World, s: Store, table: seq<Ref>, top: Slot): Archive
    requires TableKnown(w, s, table) && SlotKnown(w, s, top)
  {
    Archive(ToToken(w, s, top), ToRecords(w, s, table))
  }

  /** A body that can be sized and written. */
  ghost predicate BodySizable(w: World, s: Store, body: Body) {
    && BodyKnown(w, s, body) && ContentsTyped(ToContents(w, s, body))
    && (body.Slots? ==> forall i :: 0 <= i < |body.slots| ==> NotAFrame(s, body.slots[i]))
  }

  lemma BodyIsSizable(w: World, s: Store, table: seq<Ref>, top: Slot, k: nat)
    requires Prepared(w, s, table, top) && StoreTyped(s) && k < |table| < INT_LIMIT
    ensures table[k] in s && BodySizable(w, s, s[table[k]].body)
  {
    assert EntryReady(w, s, table, k);
    assert BodyTyped(s[table[k]].body);
    if s[table[k]].body.Slots? {
      var slots := s[table[k]].body.slots;
      forall i | 0 <= i < |slots|
        ensures SlotKnown(w, s, slots[i]) && TokenTyped(ToToken(w, s, slots[i])) && NotAFrame(s, slots[i])
      {
        assert SlotListed(w, s, table, slots[i]);
      }
    }
  }

  lemma TopSizable(w: World, s: Store, table: seq<Ref>, top: Slot)
    requires Prepared(w, s, table, top) && SlotTyped(top) && StoreTyped(s) && |table| < INT_LIMIT
    ensures ArchiveReady(w, s, table, top) && TableKnown(w, s, table) && NotAFrame(s, top)
    ensures SlotKnown(w, s, top) && TokenTyped(ToToken(w, s, top))
    ensures table == [] || top.Obj?
    ensures ArchiveTyped(ToArchive(w, s, table, top))
  {
    hide ContentsTyped, ToContents, BodyKnown, StoreTyped;
    forall k | 0 <= k < |table|
      ensures table[k] in s && BodySizable(w, s, s[table[k]].body)
    {
      BodyIsSizable(w, s, table, top, k);
    }
  }

  lemma EntrySizable(w: World, s: Store, table: seq<Ref>, top: Slot, k: nat)
    requires Prepared(w, s, table, top) && SlotTyped(top) && StoreTyped(s) && k < |table| < INT_LIMIT
    ensures ArchiveReady(w, s, table, top) && TableKnown(w, s, table) && SlotKnown(w, s, top)
    ensures ArchiveTyped(ToArchive(w, s, table, top))
    ensures table[k] in s && BodySizable(w, s, s[table[k]].body) && ContentsTyped(ToContents(w, s, s[table[k]].body))
    ensures var records := ToRecords(w, s, table);
            && Headers(records)[k] == SymbolBytes(s[table[k]].cls) + Int32Bytes(BodySize(s[table[k]].body))
            && Bodies(records)[k] == Flat(Parts(ToContents(w, s, s[table[k]].body)))
  {
    hide ContentsTyped, Prepared, StoreTyped, ToContents;
    TopSizable(w, s, table, top);
    BodyIsSizable(w, s, table, top, k);
    assert ToRecords(w, s, table)[k] == Record(s[table[k]].cls, ToContents(w, s, s[table[k]].body));
  }

  lemma EntryCut(w: World, s: Store, table: seq<Ref>, k: nat)
    requires TableKnown(w, s, table) && k < |table|
    ensures RecordCuts(ToRecords(w, s, table))[k]
         == Cut(s[table[k]].cls) + Sum(Cuts(ToContents(w, s, s[table[k]].body)))
  {
    hide Cut, Cuts, ToContents;
  }

  lemma SlotSizable(w: World, s: Store, slots: seq<Slot>, j: nat)
    requires BodySizable(w, s, Slots(slots)) && j < |slots|
    ensures SlotKnown(w, s, slots[j]) && TokenTyped(ToToken(w, s, slots[j])) && NotAFrame(s, slots[j])
    ensures BodyKnown(w, s, Slots(slots)) && ContentsTyped(ToContents(w, s, Slots(slots)))
    ensures Parts(ToContents(w, s, Slots(slots)))[j] == TokenBytes(ToToken(w, s, slots[j]))
    ensures Cuts(ToContents(w, s, Slots(slots)))[j] == TokenCut(ToToken(w, s, slots[j]))
  {
    assert ToContents(w, s, Slots(slots)).tokens[j] == ToToken(w, s, slots[j]);
  }

  lemma {:induction false} FlatWidth(parts: seq<seq<Byte>>, width: nat)
    requires forall i :: 0 <= i < |parts| ==> |parts[i]| == width
    ensures |Flat(parts)| == |parts| * width
  {
    if parts != [] { FlatWidth(parts[1..], width); }
  }

  /** Parts of one byte each. */
  lemma {:induction false} FlatSingles(parts: seq<seq<Byte>>, data: seq<Byte>)
    requires |parts| == |data| && forall i :: 0 <= i < |data| ==> parts[i] == [data[i]]
    ensures Flat(parts) == data
  {
    if parts != [] { FlatSingles(parts[1..], data[1..]); }
  }

  ghost function SlotParts(w: World, s: Store, slots: seq<Slot>): (parts: seq<seq<Byte>>)
    requires BodySizable(w, s, Slots(slots))
    ensures |parts| == |slots|
  {
    Parts(ToContents(w, s, Slots(slots)))
  }

  lemma WordsSizable(w: World, s: Store, body: Body)
    requires BodySizable(w, s, body) && !body.Slots?
    ensures BodySize(body) < INT_LIMIT
    ensures ToContents(w, s, body) == if body.Words? then WordsOf(body.format, body.words) else NamesOf(body.names)
  {
  }

  lemma SizeTyped(w: World, s: Store, body: Body)
    requires BodySizable(w, s, body)
    ensures BodySize(body) < INT_LIMIT
  {
  }

  ghost predicate SameButMarks(s: Store, s': Store) {
    s'.Keys == s.Keys && forall o :: o in s ==> s'[o] == s[o].(marked := s'[o].marked)
  }

  /** The first i objects of the table carry no mark. */
  ghost predicate ClearUpto(s: Store, table: seq<Ref>, i: nat) {
    forall k :: 0 <= k < i && k < |table| ==> table[k] in s && !s[table[k]].marked
  }

  lemma UnmarkEnds(s: Store, table: seq<Ref>)
    ensures SameButMarks(s, s) && ClearUpto(s, table, 0)
    ensures ClearUpto(s, table, |table|) ==> forall k :: 0 <= k < |table| ==> table[k] in s && !s[table[k]].marked
  {
  }

  lemma UnmarkStep(s: Store, s1: Store, table: seq<Ref>, i: nat)
    requires SameButMarks(s, s1) && ClearUpto(s1, table, i) && i < |table| && table[i] in s
    ensures table[i] in s1 && s1[table[i]].cls == s[table[i]].cls && s1[table[i]].body == s[table[i]].body
    ensures var s2 := s1[table[i] := s1[table[i]].(marked := false)];
            SameButMarks(s, s2) && ClearUpto(s2, table, i + 1)
  {
  }

  /** Clearing marks does not change what is written. */
  lemma SizableButMarks(w: World, s: Store, s': Store, body: Body)
    requires SameButMarks(s, s') && BodySizable(w, s, body)
    ensures BodySizable(w, s', body) && ToContents(w, s', body) == ToContents(w, s, body)
  {
    if body.Slots? {
      forall i | 0 <= i < |body.slots|
        ensures SlotKnown(w, s', body.slots[i]) && ToToken(w, s', body.slots[i]) == ToToken(w, s, body.slots[i])
      {
        assert SlotKnown(w, s, body.slots[i]);
      }
      assert ToContents(w, s', body).tokens == ToContents(w, s, body).tokens;
      forall i | 0 <= i < |body.slots|
        ensures NotAFrame(s', body.slots[i])
      {
        assert NotAFrame(s, body.slots[i]);
      }
    }
  }

  lemma EntryShape(w: World, s: Store, table: seq<Ref>, top: Slot, k: nat)
    requires Prepared(w, s, table, top) && NoClosures(s, table) && k < |table|
    ensures table[k] in s && !s[table[k]].kind.FunctionKind?
    ensures s[table[k]].kind.RawArrayKind? <==> !s[table[k]].body.Slots?
  {
    assert EntryReady(w, s, table, k);
  }

  // ---- reading ----

  /** The instances of a class, before their elements are read. Their elements are not filled in. */
  function Blank(w: World, cls: Name, size: nat): (obj: Object)
    requires cls in w.classes
    ensures BodySize(obj.body) == if w.classes[cls].indexable then size else w.classes[cls].instSize
  {
    var info := w.classes[cls];
    var room := if info.indexable then size else info.instSize;
    var body := match info.layout
                case SlotLayout => Slots(seq(room, _ => Nil))
                case WordLayout(format) => Words(format, seq(room, _ => 0))
                case SymbolLayout => Symbols(seq(room, _ => []));
    Object(cls, info.kind, body, false, 0)
  }

  predicate LayoutMatches(layout: Layout, c: Contents) {
    match layout
    case SlotLayout => c.TokensOf?
    case WordLayout(format) => c.WordsOf? && c.format == format
    case SymbolLayout => c.NamesOf?
  }

  /** The class of a record is known, and has instances like it. */
  predicate RecordReadable(w: World, r: Record) {
    && r.cls in w.classes
    && var info := w.classes[r.cls];
       && info.kind !in NAMED && info.kind !in REFUSED && !info.kind.FunctionKind?
       && (info.kind.RawArrayKind? <==> !info.layout.SlotLayout?)
       && LayoutMatches(info.layout, r.contents)
       && (!info.indexable ==> SizeOf(r.contents) == info.instSize)
  }

  predicate TokenReadable(w: World, count: nat, t: Token) {
    (t.Link? ==> t.index < count) && (t.ClassNamed? ==> t.name in w.classes)
  }

  predicate ContentsReadable(w: World, count: nat, c: Contents) {
    c.TokensOf? ==> forall i :: 0 <= i < |c.tokens| ==> TokenReadable(w, count, c.tokens[i])
  }

  predicate Readable(w: World, a: Archive) {
    && TokenReadable(w, |a.records|, a.top)
    && forall k {:trigger a.records[k]} :: 0 <= k < |a.records| ==>
         RecordReadable(w, a.records[k]) && ContentsReadable(w, |a.records|, a.records[k].contents)
  }

  /** The object that a record describes, when the table says where the linked objects are. */
  function Filled(w: World, table: seq<Ref>, r: Record): Object
    requires r.cls in w.classes
  {
    Object(r.cls, w.classes[r.cls].kind, ToBody(w, table, r.contents), false, 0)
  }

  lemma RawBody(w: World, table: seq<Ref>, c: Contents)
    ensures c.WordsOf? ==> ToBody(w, table, c) == Words(c.format, c.words)
    ensures c.NamesOf? ==> ToBody(w, table, c) == Symbols(c.names)
  {
  }

  // ---- new objects ----

  /** The store has one new object for each entry of the table, and the old objects as they were. */
  ghost predicate Instances(s0: Store, s: Store, table: seq<Ref>, objs: seq<Object>) {
    && |table| == |objs| && AllDistinct(table)
    && (forall o :: o in s0 ==> o in s && s[o] == s0[o])
    && (forall o :: o in s ==> o in s0 || o in table)
    && (forall k :: 0 <= k < |table| ==> table[k] !in s0 && table[k] in s && s[table[k]] == objs[k])
  }

  lemma NoInstances(s0: Store, table: seq<Ref>, objs: seq<Object>)
    requires table == [] && objs == []
    ensures Instances(s0, s0, table, objs)
  {
  }

  lemma InstancesAdd(s0: Store, s: Store, table: seq<Ref>, objs: seq<Object>, r: Ref, obj: Object)
    requires Instances(s0, s, table, objs) && r !in s
    ensures Instances(s0, s[r := obj], table + [r], objs + [obj])
  {
  }

  lemma InstanceAt(s0: Store, s: Store, table: seq<Ref>, objs: seq<Object>, k: nat)
    requires Instances(s0, s, table, objs) && k < |table|
    ensures k < |objs| && table[k] in s && s[table[k]] == objs[k]
  {
  }

  lemma InstancesSet(s0: Store, s: Store, table: seq<Ref>, objs: seq<Object>, k: nat, obj: Object)
    requires Instances(s0, s, table, objs) && k < |table|
    ensures k < |objs| && Instances(s0, s[table[k] := obj], table, objs[k := obj])
  {
  }

  /** The first i are filled, the others still blank. */
  ghost function Mixed<T>(fills: seq<T>, blanks: seq<T>, i: nat): (r: seq<T>)
    requires i <= |fills| == |blanks|
    ensures |r| == |fills|
  {
    fills[..i] + blanks[i..]
  }

  lemma MixedEnds<T>(fills: seq<T>, blanks: seq<T>)
    requires |fills| == |blanks|
    ensures Mixed(fills, blanks, 0) == blanks && Mixed(fills, blanks, |fills|) == fills
  {
  }

  lemma MixedStep<T>(fills: seq<T>, blanks: seq<T>, i: nat)
    requires i < |fills| == |blanks|
    ensures Mixed(fills, blanks, i)[i] == blanks[i]
    ensures Mixed(fills, blanks, i)[i := fills[i]] == Mixed(fills, blanks, i + 1)
  {
  }

  function Blanks(w: World, a: Archive): (objs: seq<Object>)
    requires Readable(w, a)
    ensures |objs| == |a.records|
  {
    seq(|a.records|, k requires 0 <= k < |a.records| =>
      assert RecordReadable(w, a.records[k]);
      Blank(w, a.records[k].cls, SizeOf(a.records[k].contents)))
  }

  function Fills(w: World, table: seq<Ref>, a: Archive): (objs: seq<Object>)
    requires Readable(w, a)
    ensures |objs| == |a.records|
  {
    seq(|a.records|, k requires 0 <= k < |a.records| =>
      assert RecordReadable(w, a.records[k]);
      Filled(w, table, a.records[k]))
  }

  lemma RecordAt(w: World, a: Archive, k: nat)
    requires ArchiveFits(a) && Readable(w, a) && k < |a.records|
    ensures RecordFits(a.records[k]) && RecordReadable(w, a.records[k])
    ensures ContentsReadable(w, |a.records|, a.records[k].contents) && a.records[k].cls in w.classes
    ensures ContentsTyped(a.records[k].contents)
  {
    FitsIsTyped(a.records[k].contents);
  }

  ghost predicate HasMagic(bytes: seq<Byte>) { |bytes| >= 4 && FromBigEndian(bytes[..4]) == MAGIC }

  /** What follows the head of an archive. */
  ghost function ArchiveTail(a: Archive, rest: seq<Byte>, written: bool): (tail: seq<Byte>)
    requires written ==> ArchiveTyped(a)
    ensures written ==> ArchiveBytes(a) + rest == HeadBytes(|a.records|) + tail
    ensures written && a.records == [] ==> tail == TokenBytes(a.top) + rest
    ensures written && a.records != [] ==> tail == Flat(Headers(a.records)) + (Flat(Bodies(a.records)) + rest)
  {
    if !written then []
    else if a.records == [] then TokenBytes(a.top) + rest
    else Flat(Headers(a.records)) + (Flat(Bodies(a.records)) + rest)
  }
}
