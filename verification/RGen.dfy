/**
  The random number generator: three shift registers, combined. The low bits of a register do not take part, and a
  register whose other bits were all zero would stay that way.
 */
module RGens {

  function Hash(key: bv32): bv32 {
    var a := key + !(key << 15);
    var b := a ^ (a >> 10);
    var c := b + (b << 3);
    var d := c ^ (c >> 6);
    var e := d + !(d << 11);
    e ^ (e >> 16)
  }

  /** One step of each register. */
  function Step1(s: bv32): bv32 { ((s & 0xFFFF_FFFE) << 12) ^ (((s << 13) ^ s) >> 19) }

  function Step2(s: bv32): bv32 { ((s & 0xFFFF_FFF8) << 4) ^ (((s << 2) ^ s) >> 25) }

  function Step3(s: bv32): bv32 { ((s & 0xFFFF_FFF0) << 17) ^ (((s << 3) ^ s) >> 11) }

  // ---- what a step does, bit by bit ----

  /** The bits move up by 12, and bit j of those that come in below is the exclusive or of bits j + 19 and j + 6. */
  lemma Step1Literally(s: bv32)
    ensures Step1(s) == ((s & 0x000F_FFFE) << 12) | (((s >> 19) ^ (s >> 6)) & 0x1FFF)
  {
  }

  lemma Step2Literally(s: bv32)
    ensures Step2(s) == ((s & 0x0FFF_FFF8) << 4) | (((s >> 25) ^ (s >> 23)) & 0x7F)
  {
  }

  lemma Step3Literally(s: bv32)
    ensures Step3(s) == ((s & 0x0000_7FF0) << 17) | (((s >> 11) ^ (s >> 8)) & 0x1F_FFFF)
  {
  }

  /** A register is alive when one of the bits that take part is set. */
  predicate Live1(s: bv32) { s >= 2 }

  predicate Live2(s: bv32) { s >= 8 }

  predicate Live3(s: bv32) { s >= 16 }

  /** A register is alive after a step just when it was alive before. */
  lemma StepsKeepLife(s: bv32)
    ensures Live1(Step1(s)) <==> Live1(s)
    ensures Live2(Step2(s)) <==> Live2(s)
    ensures Live3(Step3(s)) <==> Live3(s)
  {
  }

  /** The bits of a register that take part. */
  function Part1(s: bv32): bv32 { s & 0xFFFF_FFFE }

  function Part2(s: bv32): bv32 { s & 0xFFFF_FFF8 }

  function Part3(s: bv32): bv32 { s & 0xFFFF_FFF0 }

  /** Two states of a register that do not differ in the bits that take part. */
  predicate Like1(s: bv32, t: bv32) { Part1(s) == Part1(t) }

  predicate Like2(s: bv32, t: bv32) { Part2(s) == Part2(t) }

  predicate Like3(s: bv32, t: bv32) { Part3(s) == Part3(t) }

  // ---- a step loses nothing of the bits that take part, and depends on nothing else ----

  lemma Step1LosesNothing(s: bv32, t: bv32)
    ensures Like1(Step1(s), Step1(t)) <==> Like1(s, t)
  {
    hide Step1, Part1;
    Step1OfPart(s);
    Step1OfPart(t);
    if Like1(Step1(s), Step1(t)) { Injective1(s, t); }
  }

  lemma Injective1(s: bv32, t: bv32)
    requires Part1(Step1(s)) == Part1(Step1(t))
    ensures Part1(s) == Part1(t)
  {
  }

  lemma Step1OfPart(s: bv32)
    ensures Step1(Part1(s)) == Step1(s)
  {
    hide Step1;
    OnlyPart1(s, Part1(s));
  }

  lemma OnlyPart1(s: bv32, p: bv32)
    requires p == s & 0xFFFF_FFFE
    ensures Step1(p) == Step1(s)
  {
  }

  lemma Step2LosesNothing(s: bv32, t: bv32)
    ensures Like2(Step2(s), Step2(t)) <==> Like2(s, t)
  {
    hide Step2, Part2;
    Step2OfPart(s);
    Step2OfPart(t);
    if Like2(Step2(s), Step2(t)) { Injective2(s, t); }
  }

  lemma Injective2(s: bv32, t: bv32)
    requires Part2(Step2(s)) == Part2(Step2(t))
    ensures Part2(s) == Part2(t)
  {
  }

  lemma Step2OfPart(s: bv32)
    ensures Step2(Part2(s)) == Step2(s)
  {
    hide Step2;
    OnlyPart2(s, Part2(s));
  }

  lemma OnlyPart2(s: bv32, p: bv32)
    requires p == s & 0xFFFF_FFF8
    ensures Step2(p) == Step2(s)
  {
  }

  lemma Step3LosesNothing(s: bv32, t: bv32)
    ensures Like3(Step3(s), Step3(t)) <==> Like3(s, t)
  {
    hide Step3, Part3;
    Step3OfPart(s);
    Step3OfPart(t);
    if Like3(Step3(s), Step3(t)) { Injective3(s, t); }
  }

  lemma Injective3(s: bv32, t: bv32)
    requires Part3(Step3(s)) == Part3(Step3(t))
    ensures Part3(s) == Part3(t)
  {
  }

  lemma Step3OfPart(s: bv32)
    ensures Step3(Part3(s)) == Step3(s)
  {
    hide Step3;
    OnlyPart3(s, Part3(s));
  }

  lemma OnlyPart3(s: bv32, p: bv32)
    requires p == s & 0xFFFF_FFF0
    ensures Step3(p) == Step3(s)
  {
  }

  /** The first state of each register; a seed that would leave it dead is replaced. */
  function First1(hash: bv32): (r: bv32)
    ensures Live1(r)
  {
    var s := 1243598713 ^ hash;
    if s < 2 then 1243598713 else s
  }

  function First2(hash: bv32): (r: bv32)
    ensures Live2(r)
  {
    var s := 3093459404 ^ hash;
    if s < 8 then 3093459404 else s
  }

  function First3(hash: bv32): (r: bv32)
    ensures Live3(r)
  {
    var s := 1821928721 ^ hash;
    if s < 16 then 1821928721 else s
  }

  /** No two hashes start the three registers alike. */
  lemma FirstsDiffer(g: bv32, h: bv32)
    requires First1(g) == First1(h) && First2(g) == First2(h) && First3(g) == First3(h)
    ensures g == h
  {
  }

  /** The hash of some seeds, and the registers that they start with. */
  lemma SomeSeeds()
    ensures Hash(0) == 0x4636_B9C9 && Hash(1) == 0x62BA_F5A0 && Hash(12345) == 0x744B_8103
    ensures Hash(0xFFFF_FFFF) == 0xDC8B_039A
    ensures First1(Hash(0)) == 0x0C29_76B0 && First2(Hash(0)) == 0xFE54_C805 && First3(Hash(0)) == 0x2AAE_D4D8
  {
  }

  /** A register starts with any bits that leave it alive, and with a constant in place of all others. */
  lemma FirstBits(bits: bv32)
    ensures First1(1243598713 ^ bits) == if bits < 2 then 1243598713 else bits
    ensures First2(3093459404 ^ bits) == if bits < 8 then 3093459404 else bits
    ensures First3(1821928721 ^ bits) == if bits < 16 then 1821928721 else bits
  {
  }

  datatype State = State(s1: bv32, s2: bv32, s3: bv32)

  predicate Alive(s: State) { Live1(s.s1) && Live2(s.s2) && Live3(s.s3) }

  function Next(s: State): State { State(Step1(s.s1), Step2(s.s2), Step3(s.s3)) }

  function After(s: State, n: nat): State { if n == 0 then s else Next(After(s, n - 1)) }

  /** On every run, all three registers are alive throughout if and only if they are at the start. */
  lemma {:induction false} AliveForever(s: State, n: nat)
    ensures Alive(After(s, n)) <==> Alive(s)
  {
    hide Step1, Step2, Step3, Live1, Live2, Live3;
    if n > 0 {
      AliveForever(s, n - 1);
      var t := After(s, n - 1);
      StepsKeepLife(t.s1);
      StepsKeepLife(t.s2);
      StepsKeepLife(t.s3);
    }
  }

  predicate Like(s: State, t: State) { Like1(s.s1, t.s1) && Like2(s.s2, t.s2) && Like3(s.s3, t.s3) }

  /** Two runs never meet: after any number of steps they are alike if and only if they are at the start. */
  lemma {:induction false} RunsNeverMeet(s: State, t: State, n: nat)
    ensures Like(After(s, n), After(t, n)) <==> Like(s, t)
  {
    hide Step1, Step2, Step3, Like1, Like2, Like3;
    if n > 0 {
      RunsNeverMeet(s, t, n - 1);
      var u, v := After(s, n - 1), After(t, n - 1);
      Step1LosesNothing(u.s1, v.s1);
      Step2LosesNothing(u.s2, v.s2);
      Step3LosesNothing(u.s3, v.s3);
    }
  }

  /** A run that comes back to where it was is on a cycle that its start is on. */
  lemma {:induction false} RunsAreCycles(s: State, m: nat, n: nat)
    requires m <= n
    ensures Like(After(s, m), After(s, n)) <==> Like(s, After(s, n - m))
  {
    AfterSplits(s, n - m, m);
    RunsNeverMeet(s, After(s, n - m), m);
  }

  lemma {:induction false} AfterSplits(s: State, k: nat, n: nat)
    ensures After(After(s, k), n) == After(s, k + n)
  {
    hide Next;
    if n > 0 { AfterSplits(s, k, n - 1); }
  }

  class RGen {
    var s1: bv32
    var s2: bv32
    var s3: bv32

    function Registers(): State
      reads this
    {
      State(s1, s2, s3)
    }

    /** From any seed, no register is dead. */
    constructor Init(seed: bv32)
      ensures Alive(Registers())
      ensures Registers() == State(First1(Hash(seed)), First2(Hash(seed)), First3(Hash(seed)))
    {
      hide Hash, First1, First2, First3, Live1, Live2, Live3;
      var hash := Hash(seed);
      s1, s2, s3 := First1(hash), First2(hash), First3(hash);
    }

    method Trand() returns (r: bv32)
      modifies this
      ensures Registers() == Next(old(Registers())) && r == s1 ^ s2 ^ s3
      ensures Alive(Registers()) <==> old(Alive(Registers()))
    {
      hide Step1, Step2, Step3, Live1, Live2, Live3;
      StepsKeepLife(s1);
      StepsKeepLife(s2);
      StepsKeepLife(s3);
      s1 := Step1(s1);
      s2 := Step2(s2);
      s3 := Step3(s3);
      r := s1 ^ s2 ^ s3;
    }
  }
}
