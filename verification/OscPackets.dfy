/**
  The bytes of Open Sound Control messages: arguments are padded to multiples of four bytes, and a string of type tags
  says what they are.
 */
module OscPackets {
  import opened ObjectGraph
  import opened Streams

  datatype Arg = IntArg(value: int) | StringArg(text: seq<Byte>) | BlobArg(blob: seq<Byte>)

  const COMMA: Byte := ',' as int

  function Tag(a: Arg): Byte {
    match a
    case IntArg(_) => 'i' as int
    case StringArg(_) => 's' as int
    case BlobArg(_) => 'b' as int
  }

  predicate ArgOk(a: Arg) {
    match a
    case IntArg(value) => IsInt32(value)
    case StringArg(text) => 0 !in text
    case BlobArg(blob) => 0 < |blob| < INT_LIMIT
  }

  /** The number of words of a string with at least one zero after it, and of a blob. */
  function StringWords(len: nat): nat { (len + 4) / 4 }

  function BlobWords(len: nat): nat { (len + 3) / 4 }

  function Zeros(n: nat): (z: seq<Byte>)
    ensures |z| == n
  {
    seq(n, _ => 0)
  }

  function PaddedString(s: seq<Byte>): (p: seq<Byte>)
    ensures |p| == 4 * StringWords(|s|)
  {
    s + Zeros(4 * StringWords(|s|) - |s|)
  }

  function ArgSize(a: Arg): (n: nat)
    ensures n > 0 && n % 4 == 0
  {
    match a
    case IntArg(_) => 4
    case StringArg(text) => 4 * StringWords(|text|)
    case BlobArg(blob) => 4 + 4 * BlobWords(|blob|)
  }

  /** The bytes of an argument. The padding of a blob can be anything. */
  predicate Encodes(bytes: seq<Byte>, a: Arg)
    requires ArgOk(a)
  {
    && |bytes| == ArgSize(a)
    && match a
       case IntArg(value) => bytes == Int32Bytes(value)
       case StringArg(text) => bytes == PaddedString(text)
       case BlobArg(blob) => bytes[..4] == Int32Bytes(|blob|) && bytes[4..4 + |blob|] == blob
  }

  predicate ArgsOk(args: seq<Arg>) { forall i :: 0 <= i < |args| ==> ArgOk(args[i]) }

  function ArgsSize(args: seq<Arg>): (n: nat)
    ensures n % 4 == 0
  {
    if args == [] then 0 else ArgSize(args[0]) + ArgsSize(args[1..])
  }

  predicate EncodesAll(bytes: seq<Byte>, args: seq<Arg>)
    requires ArgsOk(args)
    decreases |args|
  {
    if args == [] then bytes == []
    else
      && |bytes| >= ArgSize(args[0])
      && Encodes(bytes[..ArgSize(args[0])], args[0])
      && EncodesAll(bytes[ArgSize(args[0])..], args[1..])
  }

  function TagsOf(args: seq<Arg>): (tags: seq<Byte>)
    ensures |tags| == |args|
  {
    seq(|args|, i requires 0 <= i < |args| => Tag(args[i]))
  }

  /** The type tag string, which begins with a comma. */
  function TagBytes(args: seq<Arg>): seq<Byte> { PaddedString([COMMA] + TagsOf(args)) }

  /** A message: the type tags, and then the arguments. */
  predicate EncodesMessage(bytes: seq<Byte>, args: seq<Arg>)
    requires ArgsOk(args)
  {
    var n := |TagBytes(args)|;
    |bytes| >= n && bytes[..n] == TagBytes(args) && EncodesAll(bytes[n..], args)
  }

  // ---- the layout in words of four bytes ----

  /** A string has one to four zeros behind it, and a blob none to three bytes of padding, up to the next word. */
  lemma WordsAreTight(len: nat)
    ensures len + 1 <= 4 * StringWords(len) <= len + 4
    ensures len <= 4 * BlobWords(len) <= len + 3
  {
  }

  lemma StringLiterally(text: seq<Byte>)
    ensures var p := PaddedString(text);
            && |p| % 4 == 0 && |text| < |p| <= |text| + 4 && p[..|text|] == text
            && forall i :: |text| <= i < |p| ==> p[i] == 0
  {
    WordsAreTight(|text|);
  }

  /** A number is four bytes, the most significant first; the size of a blob is written like that before it. */
  lemma ArgLiterally(a: Arg)
    requires ArgOk(a)
    ensures match a
            case IntArg(v) => StandardBytes(a) == [v / 0x100_0000 % 0x100, v / 0x1_0000 % 0x100, v / 0x100 % 0x100, v % 0x100]
            case StringArg(text) =>
              |StandardBytes(a)| % 4 == 0 && text + [0] <= StandardBytes(a) && |StandardBytes(a)| <= |text| + 4
            case BlobArg(blob) =>
              var n := |blob|;
              && |StandardBytes(a)| % 4 == 0 && |StandardBytes(a)| <= 4 + n + 3
              && [n / 0x100_0000 % 0x100, n / 0x1_0000 % 0x100, n / 0x100 % 0x100, n % 0x100] + blob <= StandardBytes(a)
  {
    hide Int32Bytes;
    match a
    case IntArg(v) => Int32Literally(v);
    case StringArg(text) => StringLiterally(text);
    case BlobArg(blob) =>
      Int32Literally(|blob|);
      WordsAreTight(|blob|);
  }

  /** The tags are a comma and a letter for each argument. */
  lemma TagsLiterally(args: seq<Arg>)
    ensures |TagBytes(args)| % 4 == 0 && 1 + |args| < |TagBytes(args)| <= |args| + 5 && TagBytes(args)[0] == ',' as int
    ensures forall i :: 0 <= i < |args| ==>
              TagBytes(args)[1 + i]
              == if args[i].IntArg? then 'i' as int else if args[i].StringArg? then 's' as int else 'b' as int
    ensures forall i :: 1 + |args| <= i < |TagBytes(args)| ==> TagBytes(args)[i] == 0
  {
    var tags := [COMMA] + TagsOf(args);
    StringLiterally(tags);
    assert forall i :: 0 <= i < |tags| ==> TagBytes(args)[i] == tags[i];
  }

  // ---- stretches of stretches ----

  lemma Within(s: seq<Byte>, a: nat, b: nat, i: nat, j: nat)
    requires a <= b <= |s| && i <= j <= b - a
    ensures s[a..b][i..j] == s[a + i..a + j]
  {
    assert |s[a..b][i..j]| == |s[a + i..a + j]|;
    forall k | 0 <= k < j - i
      ensures s[a..b][i..j][k] == s[a + i..a + j][k]
    {
    }
  }

  lemma WithinRest(s: seq<Byte>, a: nat, i: nat, j: nat)
    requires i <= j && a + j <= |s|
    ensures s[a..][i..j] == s[a + i..a + j]
  {
    assert |s[a..][i..j]| == |s[a + i..a + j]|;
    forall k | 0 <= k < j - i
      ensures s[a..][i..j][k] == s[a + i..a + j][k]
    {
    }
  }

  // ---- what the standard asks for ----

  function Padding(blob: seq<Byte>): (n: nat)
    ensures |blob| + n == 4 * BlobWords(|blob|)
  {
    4 * BlobWords(|blob|) - |blob|
  }

  /** The bytes of an argument by the standard, where all padding is zero. */
  function StandardBytes(a: Arg): (bytes: seq<Byte>)
    requires ArgOk(a)
    ensures |bytes| == ArgSize(a)
  {
    match a
    case IntArg(value) => Int32Bytes(value)
    case StringArg(text) => PaddedString(text)
    case BlobArg(blob) => Int32Bytes(|blob|) + blob + Zeros(Padding(blob))
  }

  function StandardAll(args: seq<Arg>): (bytes: seq<Byte>)
    requires ArgsOk(args)
    ensures |bytes| == ArgsSize(args)
  {
    if args == [] then [] else StandardBytes(args[0]) + StandardAll(args[1..])
  }

  /** A message by the standard. */
  function StandardMessage(args: seq<Arg>): seq<Byte>
    requires ArgsOk(args)
  {
    TagBytes(args) + StandardAll(args)
  }

  // ---- what is written ----

  /** The blob after its size, and the padding that was there before. */
  function BlobBytes(s: seq<Byte>, pos: nat, src: seq<Byte>): (r: seq<Byte>)
    requires |src| < INT_LIMIT && pos + 4 + 4 * BlobWords(|src|) <= |s|
    ensures |r| == 4 + 4 * BlobWords(|src|)
  {
    Int32Bytes(|src|) + src + s[pos + 4 + |src|..pos + 4 + 4 * BlobWords(|src|)]
  }

  /** The bytes that writing an argument leaves in a buffer. */
  function Written(s: seq<Byte>, pos: nat, a: Arg): (bytes: seq<Byte>)
    requires ArgOk(a) && pos + ArgSize(a) <= |s|
    ensures |bytes| == ArgSize(a)
  {
    match a
    case IntArg(value) => Int32Bytes(value)
    case StringArg(text) => PaddedString(text)
    case BlobArg(blob) => BlobBytes(s, pos, blob)
  }

  function WrittenAll(s: seq<Byte>, pos: nat, args: seq<Arg>): (bytes: seq<Byte>)
    requires ArgsOk(args) && pos + ArgsSize(args) <= |s|
    ensures |bytes| == ArgsSize(args)
    decreases |args|
  {
    if args == [] then [] else Written(s, pos, args[0]) + WrittenAll(s, pos + ArgSize(args[0]), args[1..])
  }

  lemma WrittenEncodes(s: seq<Byte>, pos: nat, a: Arg)
    requires ArgOk(a) && pos + ArgSize(a) <= |s|
    ensures Encodes(Written(s, pos, a), a)
  {
    if a.BlobArg? {
      var bytes := BlobBytes(s, pos, a.blob);
      assert bytes[..4] == Int32Bytes(|a.blob|) && bytes[4..4 + |a.blob|] == a.blob;
    }
  }

  /** Whatever was in the buffer, what is written encodes the arguments. */
  lemma {:induction false} WrittenEncodesAll(s: seq<Byte>, pos: nat, args: seq<Arg>)
    requires ArgsOk(args) && pos + ArgsSize(args) <= |s|
    ensures EncodesAll(WrittenAll(s, pos, args), args)
    decreases |args|
  {
    hide Written, Encodes, ArgOk;
    if args != [] {
      var first, rest := Written(s, pos, args[0]), WrittenAll(s, pos + ArgSize(args[0]), args[1..]);
      WrittenEncodes(s, pos, args[0]);
      WrittenEncodesAll(s, pos + ArgSize(args[0]), args[1..]);
      assert (first + rest)[..|first|] == first && (first + rest)[|first|..] == rest;
    }
  }

  lemma {:induction false} WrittenOneMore(s: seq<Byte>, pos: nat, args: seq<Arg>, a: Arg)
    requires ArgsOk(args) && ArgOk(a) && pos + ArgsSize(args) + ArgSize(a) <= |s|
    ensures ArgsOk(args + [a]) && ArgsSize(args + [a]) == ArgsSize(args) + ArgSize(a)
    ensures WrittenAll(s, pos, args + [a]) == WrittenAll(s, pos, args) + Written(s, pos + ArgsSize(args), a)
    decreases |args|
  {
    hide Written, ArgOk, ArgsOk, ArgSize;
    SizeOneMore(args, a);
    OkOneMore(args, a);
    var more := args + [a];
    if args == [] {
      assert more == [a] && more[1..] == [];
      NothingWritten(s, pos + ArgSize(a), more[1..]);
    } else {
      var next := pos + ArgSize(args[0]);
      assert more[0] == args[0] && more[1..] == args[1..] + [a];
      WrittenOneMore(s, next, args[1..], a);
      Regroup(Written(s, pos, args[0]), WrittenAll(s, next, args[1..]), Written(s, pos + ArgsSize(args), a));
    }
  }

  lemma OkOneMore(args: seq<Arg>, a: Arg)
    requires ArgsOk(args) && ArgOk(a)
    ensures ArgsOk(args + [a]) && (args != [] ==> ArgOk(args[0]) && ArgsOk(args[1..]))
  {
  }

  lemma NothingWritten(s: seq<Byte>, pos: nat, args: seq<Arg>)
    requires args == [] && pos <= |s|
    ensures ArgsOk(args) && WrittenAll(s, pos, args) == []
  {
  }

  lemma Regroup(a: seq<Byte>, b: seq<Byte>, c: seq<Byte>)
    ensures a + (b + c) == (a + b) + c
  {
  }

  // ---- when it is what the standard asks for ----

  /** The bytes under the padding of an argument are zero. */
  predicate PaddingClear(s: seq<Byte>, pos: nat, a: Arg)
    requires pos + ArgSize(a) <= |s|
  {
    a.BlobArg? ==> s[pos + 4 + |a.blob|..pos + ArgSize(a)] == Zeros(Padding(a.blob))
  }

  predicate AllPaddingClear(s: seq<Byte>, pos: nat, args: seq<Arg>)
    requires pos + ArgsSize(args) <= |s|
    decreases |args|
  {
    args != [] ==> PaddingClear(s, pos, args[0]) && AllPaddingClear(s, pos + ArgSize(args[0]), args[1..])
  }

  /** A blob is written as the standard has it if and only if its padding was zero before. */
  lemma BlobIsStandard(s: seq<Byte>, pos: nat, src: seq<Byte>)
    requires |src| < INT_LIMIT && pos + 4 + 4 * BlobWords(|src|) <= |s|
    ensures BlobBytes(s, pos, src) == Int32Bytes(|src|) + src + Zeros(Padding(src))
            <==> s[pos + 4 + |src|..pos + 4 + 4 * BlobWords(|src|)] == Zeros(Padding(src))
  {
    SameFront(Int32Bytes(|src|) + src, Int32Bytes(|src|) + src,
              s[pos + 4 + |src|..pos + 4 + 4 * BlobWords(|src|)], Zeros(Padding(src)));
  }

  /** A blob of one byte over a buffer of ones is not. */
  lemma BlobOverOnes()
    ensures BlobBytes([1, 1, 1, 1, 1, 1, 1, 1], 0, [7]) != Int32Bytes(1) + [7] + Zeros(3)
  {
    var s: seq<Byte> := [1, 1, 1, 1, 1, 1, 1, 1];
    BlobIsStandard(s, 0, [7]);
    assert s[5..8][0] == 1 && Zeros(3)[0] == 0;
  }

  lemma SameFront(a: seq<Byte>, b: seq<Byte>, c: seq<Byte>, d: seq<Byte>)
    requires |a| == |b|
    ensures a + c == b + d <==> a == b && c == d
  {
    assert (a + c)[..|a|] == a && (b + d)[..|b|] == b && (a + c)[|a|..] == c && (b + d)[|b|..] == d;
  }

  /** The arguments are written as the standard has them if and only if all their padding was zero before. */
  lemma {:induction false} WrittenIsStandard(s: seq<Byte>, pos: nat, args: seq<Arg>)
    requires ArgsOk(args) && pos + ArgsSize(args) <= |s|
    ensures WrittenAll(s, pos, args) == StandardAll(args) <==> AllPaddingClear(s, pos, args)
    decreases |args|
  {
    hide Written, StandardBytes, PaddingClear, ArgOk;
    if args != [] {
      var a, next := args[0], pos + ArgSize(args[0]);
      WrittenIsStandard(s, next, args[1..]);
      SameFront(Written(s, pos, a), StandardBytes(a), WrittenAll(s, next, args[1..]), StandardAll(args[1..]));
      OneIsStandard(s, pos, a);
    }
  }

  lemma OneIsStandard(s: seq<Byte>, pos: nat, a: Arg)
    requires ArgOk(a) && pos + ArgSize(a) <= |s|
    ensures Written(s, pos, a) == StandardBytes(a) <==> PaddingClear(s, pos, a)
  {
    if a.BlobArg? { BlobIsStandard(s, pos, a.blob); }
  }

  // ---- writing ----

  /** Some bytes with others copied over them. */
  function Over(s: seq<Byte>, pos: nat, data: seq<Byte>): (r: seq<Byte>)
    requires pos + |data| <= |s|
    ensures |r| == |s|
  {
    seq(|s|, i requires 0 <= i < |s| => if pos <= i < pos + |data| then data[i - pos] else s[i])
  }

  lemma OverKeeps(s: seq<Byte>, pos: nat, data: seq<Byte>)
    requires pos + |data| <= |s|
    ensures Over(s, pos, data)[..pos] == s[..pos] && Over(s, pos, data)[pos + |data|..] == s[pos + |data|..]
  {
  }

  lemma WordWritten(s: seq<Byte>, pos: nat, data: seq<Byte>)
    requires pos + |data| <= |s|
    ensures var r := Over(s, pos, data);
            r[..pos + |data|] == s[..pos] + data && r[pos + |data|..] == s[pos + |data|..]
  {
  }

  lemma StringWritten(s: seq<Byte>, pos: nat, src: seq<Byte>)
    requires pos + 4 * StringWords(|src|) <= |s|
    ensures var end := pos + 4 * StringWords(|src|);
            var r := Over(Over(s, end - 4, Zeros(4)), pos, src);
            r[..end] == s[..pos] + PaddedString(src) && r[end..] == s[end..]
  {
    var end := pos + 4 * StringWords(|src|);
    var r, w := Over(Over(s, end - 4, Zeros(4)), pos, src), s[..pos] + PaddedString(src);
    forall i | 0 <= i < end
      ensures r[i] == w[i]
    {
    }
    assert r[..end] == w;
  }

  /** A packet buffer after a blob has been written: the word cleared, the size, and the blob. */
  function BlobOver(s: seq<Byte>, pos: nat, src: seq<Byte>): (r: seq<Byte>)
    requires |src| < INT_LIMIT && pos + 4 + 4 * BlobWords(|src|) <= |s| && pos + 4 * BlobWords(|src|) >= 4
    ensures |r| == |s|
  {
    Over(Over(Over(s, pos + 4 * BlobWords(|src|) - 4, Zeros(4)), pos, Int32Bytes(|src|)), pos + 4, src)
  }

  /**
    A buffer `r` that was `s` before a blob was added to it at some position. The padding is what was there before;
    a blob without any bytes clears the word before it, so that what was written before is kept if and only if there
    are bytes or that word was zero.
   */
  ghost predicate BlobAdded(s: seq<Byte>, r: seq<Byte>, pos: nat, src: seq<Byte>)
    requires |src| < INT_LIMIT && pos + 4 + 4 * BlobWords(|src|) <= |s| == |r| && pos + 4 * BlobWords(|src|) >= 4
  {
    var end := pos + 4 + 4 * BlobWords(|src|);
    && r[pos..end] == BlobBytes(s, pos, src) && r[end..] == s[end..]
    && (if src != [] then r[..pos] == s[..pos] else r[..pos] == s[..pos - 4] + Zeros(4))
    && (r[..pos] == s[..pos] <==> src != [] || s[pos - 4..pos] == Zeros(4))
  }

  lemma BlobIsAdded(s: seq<Byte>, pos: nat, src: seq<Byte>)
    requires |src| < INT_LIMIT && pos + 4 + 4 * BlobWords(|src|) <= |s| && pos + 4 * BlobWords(|src|) >= 4
    ensures BlobAdded(s, BlobOver(s, pos, src), pos, src)
  {
    hide BlobOver;
    BlobWritten(s, pos, src);
    BeforeBlob(s, pos, src);
  }

  lemma BlobWritten(s: seq<Byte>, pos: nat, src: seq<Byte>)
    requires |src| < INT_LIMIT && pos + 4 + 4 * BlobWords(|src|) <= |s| && pos + 4 * BlobWords(|src|) >= 4
    ensures var end := pos + 4 + 4 * BlobWords(|src|);
            var r := BlobOver(s, pos, src);
            r[pos..end] == BlobBytes(s, pos, src) && r[end..] == s[end..]
  {
    hide Int32Bytes;
    var end := pos + 4 + 4 * BlobWords(|src|);
    var r, w := BlobOver(s, pos, src), BlobBytes(s, pos, src);
    forall i | 0 <= i < |w|
      ensures r[pos + i] == w[i]
    {
    }
    assert r[pos..end] == w;
  }

  /** What was written before is kept, but for the word before an empty blob. */
  lemma BeforeBlob(s: seq<Byte>, pos: nat, src: seq<Byte>)
    requires |src| < INT_LIMIT && pos + 4 + 4 * BlobWords(|src|) <= |s| && pos + 4 * BlobWords(|src|) >= 4
    ensures var r := BlobOver(s, pos, src);
            && (if src != [] then r[..pos] == s[..pos] else r[..pos] == s[..pos - 4] + Zeros(4))
            && (r[..pos] == s[..pos] <==> src != [] || s[pos - 4..pos] == Zeros(4))
  {
    hide Int32Bytes;
    var r := BlobOver(s, pos, src);
    if src == [] {
      assert r[..pos] == s[..pos - 4] + Zeros(4);
      LastWordCleared(s, pos);
    } else {
      assert r[..pos] == s[..pos];
    }
  }

  /** Clearing the last word keeps what there was if and only if it was zero. */
  lemma LastWordCleared(s: seq<Byte>, pos: nat)
    requires 4 <= pos <= |s|
    ensures s[..pos - 4] + Zeros(4) == s[..pos] <==> s[pos - 4..pos] == Zeros(4)
  {
    assert s[..pos] == s[..pos - 4] + s[pos - 4..pos];
    SameFront(s[..pos - 4], s[..pos - 4], Zeros(4), s[pos - 4..pos]);
  }

  /** At the start of a word. */
  predicate Aligned(pos: nat) { pos % 4 == 0 }

  lemma WordsOn(pos: nat, words: nat)
    requires Aligned(pos)
    ensures Aligned(pos + 4 * words)
  {
  }

  lemma WordBefore(pos: nat)
    requires Aligned(pos)
    ensures pos == 0 || pos >= 4
  {
  }

  lemma WordFits(pos: nat, end: nat)
    requires Aligned(pos) && Aligned(end) && pos < end
    ensures pos + 4 <= end
  {
  }

  class ScPacket {
    const buf: array<Byte>
    var wrpos: nat
    var tagwrpos: nat

    predicate Valid()
      reads this
    {
      wrpos <= buf.Length && Aligned(wrpos) && Aligned(buf.Length)
    }

    constructor (words: nat)
      ensures Valid() && wrpos == 0 && buf.Length == 4 * words && fresh(buf)
    {
      buf := new Byte[4 * words];
      wrpos, tagwrpos := 0, 0;
    }

    method Copy(pos: nat, src: seq<Byte>)
      requires pos + |src| <= buf.Length
      modifies buf
      ensures buf[..] == Over(old(buf[..]), pos, src)
    {
      var i := 0;
      while i < |src|
        invariant 0 <= i <= |src|
        invariant buf[..] == Over(old(buf[..]), pos, src[..i])
      {
        buf[pos + i] := src[i];
        i := i + 1;
      }
    }

    method AddI(i: int) returns (ok: bool)
      requires Valid() && IsInt32(i)
      modifies `wrpos, buf
      ensures Valid() && (ok <==> old(wrpos) + 4 <= buf.Length)
      ensures ok ==> buf[..wrpos] == old(buf[..wrpos]) + Int32Bytes(i)
      ensures buf[wrpos..] == old(buf[..])[wrpos..]
      ensures !ok ==> wrpos == old(wrpos) && buf[..] == old(buf[..])
    {
      hide Over, Int32Bytes, Aligned;
      if wrpos >= buf.Length {
        return false;
      }
      WordFits(wrpos, buf.Length);
      WordsOn(wrpos, 1);
      WordWritten(buf[..], wrpos, Int32Bytes(i));
      Copy(wrpos, Int32Bytes(i));
      wrpos := wrpos + 4;
      return true;
    }

    /** A string, padded with zeros. */
    method AddS(src: seq<Byte>) returns (ok: bool)
      requires Valid()
      modifies `wrpos, buf
      ensures Valid() && (ok <==> old(wrpos) + 4 * StringWords(|src|) <= buf.Length)
      ensures ok ==> buf[..wrpos] == old(buf[..wrpos]) + PaddedString(src)
      ensures buf[wrpos..] == old(buf[..])[wrpos..]
      ensures !ok ==> wrpos == old(wrpos) && buf[..] == old(buf[..])
    {
      hide Over, PaddedString, Aligned;
      var len4 := (|src| + 4) / 4;
      if wrpos + 4 * len4 > buf.Length {
        return false;
      }
      WordsOn(wrpos, len4);
      StringWritten(buf[..], wrpos, src);
      Copy(wrpos + 4 * (len4 - 1), Zeros(4));
      Copy(wrpos, src);
      wrpos := wrpos + 4 * len4;
      return true;
    }

    /** A blob, after its size. The word that is cleared is the one before the last word of the blob. */
    method AddB(src: seq<Byte>) returns (ok: bool)
      requires Valid() && |src| < INT_LIMIT && (src == [] ==> wrpos > 0)
      modifies `wrpos, buf
      ensures Valid() && (ok <==> old(wrpos) + 4 * BlobWords(|src|) + 4 <= buf.Length)
      ensures ok ==> wrpos == old(wrpos) + 4 * BlobWords(|src|) + 4
      ensures ok ==> BlobAdded(old(buf[..]), buf[..], old(wrpos), src)
      ensures !ok ==> wrpos == old(wrpos) && buf[..] == old(buf[..])
    {
      hide Over, BlobAdded, Int32Bytes, Zeros, Aligned;
      var len4 := (|src| + 3) / 4;
      if wrpos + 4 * (len4 + 1) > buf.Length {
        return false;
      }
      WordsOn(wrpos, len4 + 1);
      BlobIsAdded(buf[..], wrpos, src);
      Copy(wrpos + 4 * len4 - 4, Zeros(4));
      Copy(wrpos, Int32Bytes(|src|));
      wrpos := wrpos + 4;
      Copy(wrpos, src);
      wrpos := wrpos + 4 * len4;
      return true;
    }

    /** Room for a number of type tags and a zero; when there is none, the word before is cleared all the same. */
    method MakeTags(n: nat)
      requires Valid() && (wrpos > 0 || 4 * StringWords(n) <= buf.Length)
      modifies `wrpos, `tagwrpos, buf
      ensures Valid() && tagwrpos == old(wrpos)
      ensures wrpos == old(wrpos) + if old(wrpos) + 4 * StringWords(n) <= buf.Length then 4 * StringWords(n) else 0
      ensures buf[..] == Over(old(buf[..]), wrpos - 4, Zeros(4))
    {
      hide Over, Zeros, Aligned;
      var size4 := (n + 4) / 4;
      WordsOn(wrpos, size4);
      WordBefore(wrpos);
      tagwrpos := wrpos;
      if wrpos + 4 * size4 <= buf.Length {
        wrpos := wrpos + 4 * size4;
      }
      Copy(wrpos - 4, Zeros(4));
    }

    method AddTag(c: Byte)
      requires tagwrpos < buf.Length
      modifies `tagwrpos, buf
      ensures tagwrpos == old(tagwrpos) + 1
      ensures buf[..] == old(buf[..])[old(tagwrpos) := c]
    {
      buf[tagwrpos] := c;
      tagwrpos := tagwrpos + 1;
    }

    /** Adds an argument behind what has been written. */
    method AddArg(a: Arg)
      requires Valid() && ArgOk(a) && wrpos + ArgSize(a) <= buf.Length
      modifies `wrpos, buf
      ensures Valid() && wrpos == old(wrpos) + ArgSize(a)
      ensures buf[..old(wrpos)] == old(buf[..wrpos]) && buf[wrpos..] == old(buf[..])[wrpos..]
      ensures buf[old(wrpos)..wrpos] == Written(old(buf[..]), old(wrpos), a)
    {
      hide Over, PaddedString, Int32Bytes, BlobBytes;
      ghost var before := buf[..wrpos];
      var ok;
      match a
      case IntArg(value) =>
        ok := AddI(value);
        AfterPrefix(buf[..wrpos], before, Int32Bytes(value));
      case StringArg(text) =>
        ok := AddS(text);
        AfterPrefix(buf[..wrpos], before, PaddedString(text));
      case BlobArg(blob) =>
        ok := AddB(blob);
    }

    /**
      A whole message, for which there has to be room. It encodes the arguments; it is the message that the standard
      has for them if and only if the buffer was zero under the padding of every blob.
     */
    method AddMessage(args: seq<Arg>)
      requires Valid() && ArgsOk(args) && wrpos + |TagBytes(args)| + ArgsSize(args) <= buf.Length
      modifies `wrpos, `tagwrpos, buf
      ensures Valid() && wrpos == old(wrpos) + |TagBytes(args)| + ArgsSize(args)
      ensures EncodesMessage(buf[old(wrpos)..wrpos], args)
      ensures buf[old(wrpos)..wrpos]
           == TagBytes(args) + WrittenAll(old(buf[..]), old(wrpos) + |TagBytes(args)|, args)
      ensures buf[old(wrpos)..wrpos] == StandardMessage(args)
              <==> AllPaddingClear(old(buf[..]), old(wrpos) + |TagBytes(args)|, args)
    {
      hide Over, ArgOk, PaddedString, MessageSoFar, EncodesMessage, ArgsSize, Written, WrittenAll, AllPaddingClear;
      hide TagBytes, StandardMessage;
      ghost var start, s0 := wrpos, buf[..];
      TagsLength(args);
      MakeTags(|args| + 1);
      MessageStarts(s0, start, args);
      AddTag(COMMA);
      var i := 0;
      while i < |args|
        invariant 0 <= i <= |args| && Valid() && tagwrpos == start + 1 + i
        invariant wrpos + ArgsSize(args[i..]) == start + |TagBytes(args)| + ArgsSize(args)
        invariant MessageSoFar(s0, buf[..], start, wrpos, args, i)
      {
        SizeSplits(args, i);
        ghost var was, pos := buf[..], wrpos;
        MessageBounds(s0, was, start, pos, args, i);
        AddTag(Tag(args[i]));
        ghost var tagged := buf[..];
        AddArg(args[i]);
        MessageGrows(s0, was, tagged, buf[..], start, pos, wrpos, args, i);
        i := i + 1;
      }
      MessageDone(s0, buf[..], start, wrpos, args);
    }
  }

  /** The type tags and the arguments up to some argument have been written; the rest of the buffer is untouched. */
  ghost predicate MessageSoFar(s0: seq<Byte>, bytes: seq<Byte>, start: nat, wrpos: nat, args: seq<Arg>, i: nat) {
    var end := start + |TagBytes(args)|;
    && ArgsOk(args) && i <= |args| && end <= wrpos <= |bytes| == |s0|
    && TagsSoFar(bytes[start..end], [COMMA] + TagsOf(args), 1 + i)
    && ArgsOk(args[..i]) && wrpos == end + ArgsSize(args[..i])
    && bytes[end..wrpos] == WrittenAll(s0, end, args[..i]) && bytes[wrpos..] == s0[wrpos..]
  }

  lemma TagsLength(args: seq<Arg>)
    ensures |TagBytes(args)| == 4 * StringWords(|args| + 1)
  {
  }

  lemma MessageStarts(s: seq<Byte>, start: nat, args: seq<Arg>)
    requires ArgsOk(args) && start + |TagBytes(args)| <= |s|
    ensures var end := start + |TagBytes(args)|;
            MessageSoFar(s, Over(s, end - 4, Zeros(4))[start := COMMA], start, end, args, 0)
  {
    hide Over, TagsSoFar;
    TagsStart(s, start, [COMMA] + TagsOf(args));
    var end := start + |TagBytes(args)|;
    OverKeeps(s, end - 4, Zeros(4));
    var r := Over(s, end - 4, Zeros(4))[start := COMMA];
    assert r[end..] == Over(s, end - 4, Zeros(4))[end..];
    assert args[..0] == [];
    assert r[end..end] == [] == WrittenAll(s, end, []);
  }

  lemma MessageBounds(s0: seq<Byte>, bytes: seq<Byte>, start: nat, wrpos: nat, args: seq<Arg>, i: nat)
    requires MessageSoFar(s0, bytes, start, wrpos, args, i) && i < |args|
    ensures start + 1 + i < wrpos <= |bytes|
  {
  }

  lemma MessageGrows(s0: seq<Byte>, was: seq<Byte>, tagged: seq<Byte>, now: seq<Byte>, start: nat, pos: nat, wrpos: nat,
                     args: seq<Arg>, i: nat)
    requires MessageSoFar(s0, was, start, pos, args, i) && i < |args| && start + 1 + i < pos
    requires tagged == was[start + 1 + i := Tag(args[i])]
    requires ArgOk(args[i]) && wrpos == pos + ArgSize(args[i]) <= |now| == |was|
    requires now[..pos] == tagged[..pos] && now[wrpos..] == tagged[wrpos..]
    requires now[pos..wrpos] == Written(tagged, pos, args[i])
    ensures MessageSoFar(s0, now, start, wrpos, args, i + 1)
  {
    hide ArgOk, Written, WrittenAll, TagsSoFar, TagBytes;
    var end, tags := start + |TagBytes(args)|, [COMMA] + TagsOf(args);
    TagBeforeEnd(args, i);
    TagPut(was, start, end, pos, i, tags[1 + i]);
    SameRest(tagged, s0, pos, wrpos);
    WrittenFrom(tagged, s0, pos, args[i]);
    SamePart(now, tagged, pos, start, end);
    SamePart(now, tagged, pos, end, pos);
    TagAdded(was[start..end], tags, 1 + i);
    TwoParts(now, end, pos, wrpos);
    WrittenOneMore(s0, end, args[..i], args[i]);
    assert args[..i + 1] == args[..i] + [args[i]];
  }

  lemma TagPut(was: seq<Byte>, start: nat, end: nat, pos: nat, i: nat, tag: Byte)
    requires start + 1 + i < end <= pos <= |was|
    ensures var tagged := was[start + 1 + i := tag];
            && tagged[pos..] == was[pos..] && tagged[end..pos] == was[end..pos]
            && tagged[start..end] == was[start..end][1 + i := tag]
  {
  }

  lemma SamePart(s: seq<Byte>, t: seq<Byte>, pos: nat, from: nat, to: nat)
    requires from <= to <= pos <= |s| && pos <= |t| && s[..pos] == t[..pos]
    ensures s[from..to] == t[from..to]
  {
    assert s[from..to] == s[..pos][from..to] && t[from..to] == t[..pos][from..to];
  }

  lemma SameRest(s: seq<Byte>, t: seq<Byte>, pos: nat, from: nat)
    requires pos <= from <= |s| == |t| && s[pos..] == t[pos..]
    ensures s[from..] == t[from..]
  {
    assert s[from..] == s[pos..][from - pos..] && t[from..] == t[pos..][from - pos..];
  }

  lemma TwoParts(s: seq<Byte>, a: nat, b: nat, c: nat)
    requires a <= b <= c <= |s|
    ensures s[a..c] == s[a..b] + s[b..c]
  {
  }

  lemma TagBeforeEnd(args: seq<Arg>, i: nat)
    requires i < |args|
    ensures 1 + i < |TagBytes(args)|
  {
  }

  /** What is written depends on what was behind the write position only. */
  lemma WrittenFrom(s: seq<Byte>, t: seq<Byte>, pos: nat, a: Arg)
    requires ArgOk(a) && pos + ArgSize(a) <= |s| == |t| && s[pos..] == t[pos..]
    ensures Written(s, pos, a) == Written(t, pos, a)
  {
    if a.BlobArg? {
      WithinRest(s, pos, 4 + |a.blob|, ArgSize(a));
      WithinRest(t, pos, 4 + |a.blob|, ArgSize(a));
    }
  }

  lemma TagAdded(bytes: seq<Byte>, tags: seq<Byte>, n: nat)
    requires TagsSoFar(bytes, tags, n) && n < |tags|
    ensures n < |bytes| && TagsSoFar(bytes[n := tags[n]], tags, n + 1)
  {
    var r := bytes[n := tags[n]];
    assert r[|tags|..] == bytes[|tags|..];
    assert r[..n + 1] == bytes[..n] + [tags[n]];
  }

  lemma MessageDone(s0: seq<Byte>, bytes: seq<Byte>, start: nat, wrpos: nat, args: seq<Arg>)
    requires MessageSoFar(s0, bytes, start, wrpos, args, |args|)
    ensures start <= wrpos <= |bytes| == |s0| && wrpos == start + |TagBytes(args)| + ArgsSize(args)
    ensures EncodesMessage(bytes[start..wrpos], args)
    ensures bytes[start..wrpos] == TagBytes(args) + WrittenAll(s0, start + |TagBytes(args)|, args)
    ensures bytes[start..wrpos] == StandardMessage(args) <==> AllPaddingClear(s0, start + |TagBytes(args)|, args)
  {
    hide WrittenAll, EncodesAll, AllPaddingClear, StandardAll, PaddedString;
    var end := start + |TagBytes(args)|;
    assert args[..|args|] == args;
    TagsDone(bytes[start..end], [COMMA] + TagsOf(args));
    TwoParts(bytes, start, end, wrpos);
    AfterPrefix(bytes[start..wrpos], TagBytes(args), WrittenAll(s0, end, args));
    WrittenEncodesAll(s0, end, args);
    WrittenIsStandard(s0, end, args);
    SameFront(TagBytes(args), TagBytes(args), WrittenAll(s0, end, args), StandardAll(args));
  }

  lemma AfterPrefix(all: seq<Byte>, before: seq<Byte>, more: seq<Byte>)
    requires all == before + more
    ensures all[..|before|] == before && all[|before|..] == more
  {
  }

  /** The tags so far are in place, and zeros fill what comes after all of them. */
  ghost predicate TagsSoFar(bytes: seq<Byte>, tags: seq<Byte>, n: nat) {
    && n <= |tags| && |bytes| == 4 * StringWords(|tags|)
    && bytes[..n] == tags[..n] && bytes[|tags|..] == Zeros(|bytes| - |tags|)
  }

  lemma TagsStart(s: seq<Byte>, start: nat, tags: seq<Byte>)
    requires start + 4 * StringWords(|tags|) <= |s| && |tags| > 0
    ensures var end := start + 4 * StringWords(|tags|);
            TagsSoFar(Over(s, end - 4, Zeros(4))[start := tags[0]][start..end], tags, 1)
  {
    var end := start + 4 * StringWords(|tags|);
    var r := Over(s, end - 4, Zeros(4))[start := tags[0]][start..end];
    forall i | |tags| <= i < |r|
      ensures r[i] == 0
    {
    }
  }

  lemma TagsDone(bytes: seq<Byte>, tags: seq<Byte>)
    requires TagsSoFar(bytes, tags, |tags|)
    ensures bytes == PaddedString(tags)
  {
    assert bytes == bytes[..|tags|] + bytes[|tags|..];
    assert tags[..|tags|] == tags;
  }

  lemma SizeSplits(args: seq<Arg>, i: nat)
    requires ArgsOk(args) && i < |args|
    ensures ArgsSize(args[i..]) == ArgSize(args[i]) + ArgsSize(args[i + 1..])
    ensures ArgsSize(args[..i + 1]) == ArgsSize(args[..i]) + ArgSize(args[i])
    ensures ArgOk(args[i]) && ArgsOk(args[..i + 1])
  {
    assert args[i..][0] == args[i] && args[i..][1..] == args[i + 1..];
    SizeOneMore(args[..i], args[i]);
    assert args[..i + 1] == args[..i] + [args[i]];
  }

  lemma {:induction false} SizeOneMore(args: seq<Arg>, a: Arg)
    ensures ArgsSize(args + [a]) == ArgsSize(args) + ArgSize(a)
  {
    if args == [] {
      assert args + [a] == [a] && [a][1..] == [];
    } else {
      assert (args + [a])[0] == args[0] && (args + [a])[1..] == args[1..] + [a];
      SizeOneMore(args[1..], a);
    }
  }

  // ---- reading ----

  /** The end of a padded string: the first multiple of four bytes from its start that follows a zero. */
  ghost predicate EndsAt(data: seq<Byte>, pos: nat, end: nat) {
    && pos < end <= |data| && (end - pos) % 4 == 0 && data[end - 1] == 0
    && forall k :: pos <= k < end - 1 && (k + 1 - pos) % 4 == 0 ==> data[k] != 0
  }

  lemma StringEnds(data: seq<Byte>, pos: nat, s: seq<Byte>)
    requires 0 !in s && pos + |PaddedString(s)| <= |data| && data[pos..pos + |PaddedString(s)|] == PaddedString(s)
    ensures EndsAt(data, pos, pos + |PaddedString(s)|) && data[pos..pos + |s|] == s && data[pos + |s|] == 0
  {
    var p := PaddedString(s);
    var stretch := data[pos..pos + |p|];
    assert p[..|s|] == s && stretch[..|s|] == data[pos..pos + |s|];
    forall k | pos <= k < pos + |p| - 1 && (k + 1 - pos) % 4 == 0
      ensures data[k] != 0
    {
      assert k + 1 - pos <= |p| - 4 <= |s|;
      assert data[k] == stretch[k - pos] == s[k - pos];
    }
    assert data[pos + |s|] == stretch[|s|] && data[pos + |p| - 1] == stretch[|p| - 1];
  }

  /** The characters before the first zero. */
  ghost predicate IsCString(data: seq<Byte>, pos: nat, s: seq<Byte>) {
    pos + |s| < |data| && data[pos..pos + |s|] == s && 0 !in s && data[pos + |s|] == 0
  }

  function OscInt(data: seq<Byte>, pos: nat): (v: int)
    requires pos + 4 <= |data|
    ensures IsInt32(v) && Unsigned(v) == FromBigEndian(data[pos..pos + 4])
  {
    WordBound(data[pos..pos + 4]);
    Signed(FromBigEndian(data[pos..pos + 4]))
  }

  lemma WordBound(bytes: seq<Byte>)
    requires |bytes| == 4
    ensures FromBigEndian(bytes) < 2 * INT_LIMIT
  {
    assert Power(4) == 256 * (256 * (256 * (256 * Power(0))));
  }

  method OscStrSkip(data: seq<Byte>, pos: nat, ghost end: nat) returns (r: nat)
    requires EndsAt(data, pos, end)
    ensures r == end
  {
    r := pos + 4;
    while data[r - 1] != 0
      invariant pos + 4 <= r <= end && (r - pos) % 4 == 0
      decreases end - r
    {
      r := r + 4;
    }
  }

  class MsgIter {
    const data: seq<Byte>
    const size: nat
    var rdpos: nat
    var count: nat
    var tagged: bool

    constructor (inSize: nat, inData: seq<Byte>, ghost end: nat)
      requires inSize <= |inData| && |inData| > 0 && (inData[0] == COMMA ==> EndsAt(inData, 0, end))
      ensures data == inData && size == inSize && count == 0
      ensures tagged == (data[0] == COMMA) && rdpos == if tagged then end else 0
    {
      data, size, count := inData, inSize, 0;
      if inData[0] == COMMA {
        tagged := true;
        var r := OscStrSkip(inData, 0, end);
        rdpos := r;
      } else {
        tagged, rdpos := false, 0;
      }
    }

    function NextTag(defaultTag: Byte): Byte
      requires tagged ==> count + 1 < |data|
      reads this
    {
      if tagged then data[count + 1] else defaultTag
    }

    /** What getting an integer relies on; floats are not converted here. */
    ghost predicate CanGetI(end: nat)
      reads this
    {
      && size <= |data| && (tagged ==> count + 1 < |data|)
      && !(tagged && NextTag(0) == 'f' as int)
      && (!tagged || NextTag(0) == 'i' as int || NextTag(0) == 'b' as int ==> rdpos + 4 <= |data|)
      && (tagged && NextTag(0) == 's' as int ==> EndsAt(data, rdpos, end))
      && (tagged && NextTag(0) == 'b' as int ==> OscInt(data, rdpos) >= 0)
    }

    /**
      An integer, if there is one; a string or a blob is passed over, and a blob is counted twice. At the end of the
      message it is the default, and nothing is counted.
     */
    method GetI(defaultValue: int, ghost end: nat) returns (value: int)
      requires rdpos < size ==> CanGetI(end)
      modifies this
      ensures tagged == old(tagged)
      ensures old(rdpos) >= size ==> value == defaultValue && rdpos == old(rdpos) && count == old(count)
      ensures old(rdpos) < size ==>
                var tag := old(NextTag('i' as int));
                if tag == 'i' as int then
                  value == OscInt(data, old(rdpos)) && rdpos == old(rdpos) + 4 && count == old(count) + 1
                else
                  && value == defaultValue
                  && count == old(count) + (if tag == 'b' as int then 2 else 1)
                  && rdpos == if tag == 's' as int then end
                              else if tag == 'b' as int then old(rdpos) + 4 + 4 * BlobWords(OscInt(data, old(rdpos)))
                              else old(rdpos)
    {
      value := defaultValue;
      if rdpos >= size {
        return;
      }
      if tagged {
        if data[count + 1] == 'i' as int {
          value := OscInt(data, rdpos);
          rdpos := rdpos + 4;
        } else if data[count + 1] == 's' as int {
          rdpos := OscStrSkip(data, rdpos, end);
        } else if data[count + 1] == 'b' as int {
          SkipB();
        }
      } else {
        value := OscInt(data, rdpos);
        rdpos := rdpos + 4;
      }
      count := count + 1;
    }

    /** Where the next string is, if there is one. At the end of the message nothing is counted. */
    method GetS(ghost s: seq<Byte>, ghost end: nat) returns (found: bool, at: nat)
      requires rdpos < size ==> size <= |data| && (tagged ==> count + 1 < |data|)
      requires rdpos < size && NextTag('s' as int) == 's' as int ==> EndsAt(data, rdpos, end)
      modifies this
      ensures tagged == old(tagged)
      ensures old(rdpos) >= size ==> !found && rdpos == old(rdpos) && count == old(count)
      ensures old(rdpos) < size ==> count == old(count) + 1 && (found <==> old(NextTag('s' as int)) == 's' as int)
      ensures found ==> at == old(rdpos) && rdpos == end
      ensures !found ==> rdpos == old(rdpos)
    {
      found, at := false, 0;
      if rdpos >= size {
        return;
      }
      if !tagged || data[count + 1] == 's' as int {
        found, at := true, rdpos;
        rdpos := OscStrSkip(data, rdpos, end);
      }
      count := count + 1;
    }

    method GetBSize() returns (n: int)
      requires (tagged ==> count + 1 < |data|) && size <= |data|
      requires rdpos < size && NextTag('b' as int) == 'b' as int ==> rdpos + 4 <= |data|
      ensures n == if rdpos < size && NextTag('b' as int) == 'b' as int then OscInt(data, rdpos) else 0
    {
      if rdpos >= size {
        return 0;
      }
      if tagged && data[count + 1] != 'b' as int {
        return 0;
      }
      n := OscInt(data, rdpos);
    }

    /** A blob, if the room for it is as large as it is. */
    method GetB(room: nat) returns (out: seq<Byte>)
      requires rdpos + 4 <= |data| && OscInt(data, rdpos) >= 0
      requires room >= OscInt(data, rdpos) ==> rdpos + 4 + room <= |data|
      modifies this
      ensures tagged == old(tagged)
      ensures room < OscInt(data, old(rdpos)) ==> out == [] && rdpos == old(rdpos) && count == old(count)
      ensures room >= OscInt(data, old(rdpos)) ==>
                && out == data[old(rdpos) + 4..old(rdpos) + 4 + room]
                && rdpos == old(rdpos) + 4 + 4 * BlobWords(OscInt(data, old(rdpos))) && count == old(count) + 1
    {
      var len := OscInt(data, rdpos);
      if room < len {
        return [];
      }
      rdpos := rdpos + 4;
      var len4 := (len + 3) / 4 * 4;
      out := data[rdpos..rdpos + room];
      rdpos := rdpos + len4;
      count := count + 1;
    }

    method SkipB()
      requires rdpos + 4 <= |data| && OscInt(data, rdpos) >= 0
      modifies this
      ensures tagged == old(tagged) && count == old(count) + 1
      ensures rdpos == old(rdpos) + 4 + 4 * BlobWords(OscInt(data, old(rdpos)))
    {
      var len := OscInt(data, rdpos);
      rdpos := rdpos + 4;
      var len4 := (len + 3) / 4 * 4;
      rdpos := rdpos + len4;
      count := count + 1;
    }

    /** Reads the next argument by the getter for its type tag. */
    method GetArg(ghost a: Arg) returns (got: Arg)
      requires ArgOk(a) && ReadsAs(data, rdpos, a) && rdpos + ArgSize(a) <= size <= |data|
      requires tagged && count + 1 < |data| && data[count + 1] == Tag(a)
      modifies this
      ensures got == a && tagged && count == old(count) + 1 && rdpos == old(rdpos) + ArgSize(a)
    {
      hide EndsAt, IsCString;
      ghost var end := rdpos + ArgSize(a);
      if NextTag(0) == 'i' as int {
        var value := GetI(0, end);
        got := IntArg(value);
      } else if NextTag(0) == 's' as int {
        var found, at := GetS(a.text, end);
        var text := CString(data, at, a.text);
        got := StringArg(text);
      } else {
        var n := GetBSize();
        var blob := GetB(n);
        got := BlobArg(blob);
      }
    }

    /** Reads the arguments that the type tags announce. */
    method GetAll(ghost args: seq<Arg>) returns (got: seq<Arg>)
      requires ArgsOk(args) && size <= |data| && EncodesMessage(data[..size], args)
      requires tagged && count == 0 && rdpos == |TagBytes(args)|
      modifies this
      ensures got == args && rdpos == size
    {
      hide Getting, ReadsAs, ArgOk, EndsAt, EncodesMessage, TagBytes;
      got := [];
      GettingStarts(data, size, args);
      while NextTag(0) != 0
        invariant tagged && count == |got| <= |args| && got == args[..count]
        invariant Getting(data, size, args, rdpos, count)
        invariant count + 1 < |data| && (NextTag(0) == if count < |args| then Tag(args[count]) else 0)
        decreases |args| - count
      {
        GettingOn(data, size, args, rdpos, count);
        var arg := GetArg(args[count]);
        got := got + [arg];
      }
      GettingEnds(data, size, args, rdpos);
    }
  }

  /** The reader is at an argument, with the arguments from there on ahead. */
  ghost predicate Getting(data: seq<Byte>, size: nat, args: seq<Arg>, pos: nat, k: nat) {
    && ArgsOk(args) && size <= |data| && EncodesMessage(data[..size], args)
    && pos <= size && pos % 4 == 0 && k <= |args| && ArgsOk(args[k..]) && EncodesAll(data[pos..size], args[k..])
  }

  lemma GettingStarts(data: seq<Byte>, size: nat, args: seq<Arg>)
    requires ArgsOk(args) && size <= |data| && EncodesMessage(data[..size], args)
    ensures Getting(data, size, args, |TagBytes(args)|, 0)
    ensures 1 < |data| && data[1] == if |args| > 0 then Tag(args[0]) else 0
  {
    MessageParts(data, size, args);
    TagsAnnounce(data, size, args, 0);
  }

  lemma GettingOn(data: seq<Byte>, size: nat, args: seq<Arg>, pos: nat, k: nat)
    requires Getting(data, size, args, pos, k) && k < |args|
    ensures ArgOk(args[k]) && ReadsAs(data, pos, args[k]) && pos + ArgSize(args[k]) <= size <= |data|
    ensures Getting(data, size, args, pos + ArgSize(args[k]), k + 1)
    ensures k + 2 < |data| && data[k + 2] == if k + 1 < |args| then Tag(args[k + 1]) else 0
  {
    hide EncodesAll, ReadsAs, Encodes, EncodesMessage, ArgOk, ArgsOk, ArgSize, TagBytes, Tag;
    FirstArg(data, pos, size, args[k..]);
    assert args[k..][1..] == args[k + 1..];
    TagsAnnounce(data, size, args, k + 1);
  }

  lemma GettingEnds(data: seq<Byte>, size: nat, args: seq<Arg>, pos: nat)
    requires Getting(data, size, args, pos, |args|)
    ensures pos == size && args[..|args|] == args
  {
    assert args[|args|..] == [];
  }

  /** The characters of a string up to the first zero. */
  method CString(data: seq<Byte>, pos: nat, ghost s: seq<Byte>) returns (r: seq<Byte>)
    requires IsCString(data, pos, s)
    ensures r == s
  {
    NoZeroBefore(data, pos, s);
    var end := pos;
    while data[end] != 0
      invariant pos <= end <= pos + |s|
      decreases pos + |s| - end
    {
      end := end + 1;
    }
    r := data[pos..end];
  }

  lemma NoZeroBefore(data: seq<Byte>, pos: nat, s: seq<Byte>)
    requires IsCString(data, pos, s)
    ensures forall k :: pos <= k < pos + |s| ==> data[k] != 0
  {
    forall k | pos <= k < pos + |s|
      ensures data[k] != 0
    {
      assert data[k] == data[pos..pos + |s|][k - pos];
    }
  }

  lemma MessageParts(data: seq<Byte>, size: nat, args: seq<Arg>)
    requires ArgsOk(args) && size <= |data| && EncodesMessage(data[..size], args)
    ensures |TagBytes(args)| <= size && |TagBytes(args)| % 4 == 0 && 1 < |data|
    ensures EncodesAll(data[|TagBytes(args)|..size], args) && args[0..] == args
    ensures EndsAt(data, 0, |TagBytes(args)|)
  {
    var n := |TagBytes(args)|;
    assert data[..size][n..] == data[n..size] && data[..size][..n] == data[0..n];
    StringEnds(data, 0, [COMMA] + TagsOf(args));
  }

  /** Each tag says what the argument is, and a zero follows the last. */
  lemma TagsAnnounce(data: seq<Byte>, size: nat, args: seq<Arg>, k: nat)
    requires ArgsOk(args) && size <= |data| && EncodesMessage(data[..size], args) && k <= |args|
    ensures k + 1 < |data| && data[k + 1] == if k < |args| then Tag(args[k]) else 0
  {
    var tags := [COMMA] + TagsOf(args);
    assert data[k + 1] == data[..size][..|TagBytes(args)|][k + 1] == PaddedString(tags)[k + 1];
  }

  /** What the getter for an argument finds. */
  ghost predicate ReadsAs(data: seq<Byte>, pos: nat, a: Arg) {
    var end := pos + ArgSize(a);
    && end <= |data|
    && match a
       case IntArg(value) => OscInt(data, pos) == value
       case StringArg(text) => EndsAt(data, pos, end) && IsCString(data, pos, text)
       case BlobArg(blob) => OscInt(data, pos) == |blob| && data[pos + 4..pos + 4 + |blob|] == blob
  }

  lemma EncodedReads(data: seq<Byte>, pos: nat, a: Arg)
    requires ArgOk(a) && pos + ArgSize(a) <= |data| && Encodes(data[pos..pos + ArgSize(a)], a)
    ensures ReadsAs(data, pos, a)
  {
    hide PaddedString, EndsAt;
    match a
    case IntArg(value) => IntReads(data, pos, value);
    case StringArg(text) => StringEnds(data, pos, text);
    case BlobArg(blob) =>
      var bytes := data[pos..pos + ArgSize(a)];
      assert 4 + |blob| <= ArgSize(a);
      Within(data, pos, pos + ArgSize(a), 0, 4);
      Within(data, pos, pos + ArgSize(a), 4, 4 + |blob|);
      IntReads(data, pos, |blob|);
  }

  lemma IntReads(data: seq<Byte>, pos: nat, v: int)
    requires IsInt32(v) && pos + 4 <= |data| && data[pos..pos + 4] == Int32Bytes(v)
    ensures OscInt(data, pos) == v
  {
    hide BigEndian, FromBigEndian;
    FrontInt32(v, []);
    var bytes := Int32Bytes(v);
    assert bytes + [] == bytes;
    assert bytes[..4] == bytes;
  }

  /** What there is to read at the first argument. */
  lemma FirstArg(data: seq<Byte>, pos: nat, size: nat, args: seq<Arg>)
    requires ArgsOk(args) && pos <= size <= |data| && EncodesAll(data[pos..size], args) && args != []
    ensures var end := pos + ArgSize(args[0]);
            && end <= size && ArgOk(args[0]) && ReadsAs(data, pos, args[0])
            && ArgsOk(args[1..]) && EncodesAll(data[end..size], args[1..])
  {
    hide Encodes, ReadsAs;
    var n := ArgSize(args[0]);
    Within(data, pos, size, 0, n);
    Within(data, pos, size, n, size - pos);
    EncodedReads(data, pos, args[0]);
  }

  /** What is sent as a message is what is received. */
  method SendAndReceive(args: seq<Arg>, words: nat) returns (got: seq<Arg>)
    requires ArgsOk(args) && |TagBytes(args)| + ArgsSize(args) <= 4 * words
    ensures got == args
  {
    hide EncodesMessage, ArgOk;
    var packet := new ScPacket(words);
    packet.AddMessage(args);
    var size, data := packet.wrpos, packet.buf[..];
    assert data[0..size] == data[..size];
    MessageParts(data, size, args);
    BeginsWithComma(data, size, args);
    var iter := new MsgIter(size, data, |TagBytes(args)|);
    got := iter.GetAll(args);
  }

  lemma BeginsWithComma(data: seq<Byte>, size: nat, args: seq<Arg>)
    requires ArgsOk(args) && size <= |data| && EncodesMessage(data[..size], args)
    ensures |data| > 0 && data[0] == COMMA
  {
    assert data[0] == data[..size][..|TagBytes(args)|][0];
  }
}
