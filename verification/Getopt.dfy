/**
  The permuting option scanner: each call reports one option letter, and the elements of argv are moved so that in the
  end the options, with their arguments, come before everything else.
 */
module Getopts {

  datatype Arg = NoArg | Arg(text: string)

  /** What one call reports: a letter with its argument, or a letter that is unknown or misses its argument. */
  datatype Answer = Found(letter: char, arg: Arg) | Failed(letter: char)

  /** What one call returns: a letter, or that there are no more. */
  datatype Result = Letter(letter: char) | Finished

  /** How an answer looks to the caller. */
  predicate Reports(result: Result, optarg: Arg, optopt: char, answer: Answer) {
    match answer
    case Found(letter, arg) => result == Letter(letter) && optarg == arg
    case Failed(letter) => result == Letter('?') && optarg == NoArg && optopt == letter
  }

  // ---- what one call does, in terms of the arguments and of the option string alone ----

  /** From `from` on, the first element that starts with a dash and has more to it is the one at e, or there is none. */
  ghost predicate FirstDashed(args: seq<string>, from: nat, e: nat) {
    && from <= e <= |args|
    && (forall k :: from <= k < e ==> |args[k]| < 2 || args[k][0] != '-')
    && (e < |args| ==> |args[e]| >= 2 && args[e][0] == '-')
  }

  /** The letter is the first of what is left of an element, or of the first element with options from `from` on. */
  ghost predicate LetterAt(args: seq<string>, from: nat, left: string, e: nat, letters: string) {
    && e < |args|
    && if left != "" then e == from && letters == left
       else FirstDashed(args, from, e) && args[e] != "--" && letters == args[e][1..]
  }

  /** No options are left: every element from `from` on is something else, up to the end or to two dashes. */
  ghost predicate NoLetter(args: seq<string>, from: nat, left: string) {
    left == "" && exists e: nat :: FirstDashed(args, from, e) && (e == |args| || args[e] == "--")
  }

  /**
    What taking the first of some letters of the element e reports, and where the scan then is. A letter that is a
    colon or not in the option string is unknown. If its first place in the option string is not followed by a colon, it
    stands for itself. One colon behind it asks for an argument, which is the rest of the element or else the whole next
    element. Two colons allow for an argument, which can only be the rest of the element.
   */
  ghost predicate LetterTaken(optstring: string, args: seq<string>, e: nat, letters: string,
                              result: Result, optarg: Arg, optopt: char, optind: nat, nextchar: string)
    requires e < |args| && letters != ""
  {
    var c, more := letters[0], letters[1..];
    var unfinished := nextchar == more && optind == if more == "" then e + 1 else e;
    if c == ':' || c !in optstring then result == Letter('?') && optopt == c && optarg == NoArg && unfinished
    else
      forall p {:trigger optstring[p]} :: 0 <= p < |optstring| && optstring[p] == c && c !in optstring[..p] ==>
        if p + 1 == |optstring| || optstring[p + 1] != ':' then
          result == Letter(c) && optarg == NoArg && unfinished
        else if p + 2 < |optstring| && optstring[p + 2] == ':' then
          result == Letter(c) && optarg == (if more == "" then NoArg else Arg(more)) && nextchar == "" && optind == e + 1
        else if more != "" then
          result == Letter(c) && optarg == Arg(more) && nextchar == "" && optind == e + 1
        else if e + 1 < |args| then
          result == Letter(c) && optarg == Arg(args[e + 1]) && nextchar == "" && optind == e + 2
        else
          result == Letter('?') && optopt == c && optarg == NoArg && nextchar == "" && optind == e + 1
  }

  datatype Takes = Unknown | Nothing | Required | Optional

  /** What the option string is taken to say of a letter is what the places behind that letter hold. */
  lemma {:induction false} LookupAt(optstring: string, c: char, p: nat)
    requires p < |optstring| && optstring[p] == c && c !in optstring[..p]
    ensures IndexOf(optstring, c) == p
  {
    if p > 0 {
      assert optstring[..p][0] == optstring[0] && optstring[1..][..p - 1] == optstring[..p][1..];
      LookupAt(optstring[1..], c, p - 1);
    }
  }

  lemma LookupNowhere(optstring: string, c: char)
    ensures c !in optstring <==> IndexOf(optstring, c) == |optstring|
  {
    var i := IndexOf(optstring, c);
    assert i == |optstring| ==> optstring[..i] == optstring;
  }

  // ---- what the scan of the original arguments finds ----

  predicate IsOption(arg: string) { |arg| > 1 && arg[0] == '-' }

  function IndexOf(s: string, c: char): (i: nat)
    ensures i <= |s| && c !in s[..i] && (i < |s| ==> s[i] == c)
  {
    if s == "" || s[0] == c then 0
    else
      var rest := IndexOf(s[1..], c);
      assert s[..rest + 1] == [s[0]] + s[1..][..rest];
      1 + rest
  }

  function AtMost(a: nat, b: nat): nat { if a > b then b else a }

  /** What the option string says of a letter. */
  function Lookup(optstring: string, c: char): Takes {
    var i := IndexOf(optstring, c);
    if i == |optstring| || c == ':' then Unknown
    else if i + 1 < |optstring| && optstring[i + 1] == ':' then
      if i + 2 < |optstring| && optstring[i + 2] == ':' then Optional else Required
    else Nothing
  }

  /** An option string without a prefix that changes the mode, and without the long options that `W;` stands for. */
  predicate ShortOnly(optstring: string) {
    && (optstring != "" ==> optstring[0] != '-' && optstring[0] != '+' && optstring[0] != ':')
    && forall i :: 0 <= i < |optstring| - 1 ==> !(optstring[i] == 'W' && optstring[i + 1] == ';')
  }

  /** The arguments that belong to options, the others, and what is reported. */
  datatype Scan = Scan(options: seq<string>, others: seq<string>, answers: seq<Answer>)

  function Option(args: seq<string>, answers: seq<Answer>, rest: Scan): Scan {
    Scan(args + rest.options, rest.others, answers + rest.answers)
  }

  /** Scans the arguments from the i-th on, leaving them where they are. */
  function ScanFrom(optstring: string, args: seq<string>, i: nat): Scan
    requires i <= |args|
    decreases |args| - i, 1, 0
  {
    if i == |args| then Scan([], [], [])
    else if !IsOption(args[i]) then
      var rest := ScanFrom(optstring, args, i + 1);
      rest.(others := [args[i]] + rest.others)
    else if args[i] == "--" then Scan(["--"], args[i + 1..], [])
    else ScanLetters(optstring, args, i, args[i][1..])
  }

  /** Goes on with the letters that are left of the i-th argument. */
  function ScanLetters(optstring: string, args: seq<string>, i: nat, letters: string): Scan
    requires i < |args| && letters != ""
    decreases |args| - i, 0, |letters|
  {
    var c, more := letters[0], letters[1..];
    match Lookup(optstring, c)
    case Unknown =>
      if more == "" then Option([args[i]], [Failed(c)], ScanFrom(optstring, args, i + 1))
      else Option([], [Failed(c)], ScanLetters(optstring, args, i, more))
    case Nothing =>
      if more == "" then Option([args[i]], [Found(c, NoArg)], ScanFrom(optstring, args, i + 1))
      else Option([], [Found(c, NoArg)], ScanLetters(optstring, args, i, more))
    case Optional =>
      Option([args[i]], [Found(c, if more == "" then NoArg else Arg(more))], ScanFrom(optstring, args, i + 1))
    case Required =>
      if more != "" then Option([args[i]], [Found(c, Arg(more))], ScanFrom(optstring, args, i + 1))
      else if i + 1 == |args| then Option([args[i]], [Failed(c)], ScanFrom(optstring, args, i + 1))
      else Option([args[i], args[i + 1]], [Found(c, Arg(args[i + 1]))], ScanFrom(optstring, args, i + 2))
  }

  /** The scan from the state of the scanner: at an argument, or among its letters. */
  function Pending(optstring: string, args: seq<string>, i: nat, letters: string): Scan
    requires i <= |args| && (letters != "" ==> i < |args|)
  {
    if letters == "" then ScanFrom(optstring, args, i) else ScanLetters(optstring, args, i, letters)
  }

  /** Both keep their order in what they were taken from, and nothing is lost. */
  ghost predicate Interleaves(all: seq<string>, left: seq<string>, right: seq<string>) {
    if all == [] then left == [] && right == []
    else
      || (left != [] && left[0] == all[0] && Interleaves(all[1..], left[1..], right))
      || (right != [] && right[0] == all[0] && Interleaves(all[1..], left, right[1..]))
  }

  lemma {:induction false} AllRight(all: seq<string>)
    ensures Interleaves(all, [], all)
  {
    if all != [] { AllRight(all[1..]); }
  }

  /** The scan sorts the arguments into two kinds without changing the order of either. */
  lemma {:induction false} ScanIsPartition(optstring: string, args: seq<string>, i: nat)
    requires i <= |args|
    ensures var s := ScanFrom(optstring, args, i); Interleaves(args[i..], s.options, s.others)
    decreases |args| - i, 1, 0
  {
    if i < |args| {
      var s := ScanFrom(optstring, args, i);
      assert args[i..] == [args[i]] + args[i + 1..];
      if !IsOption(args[i]) {
        var rest := ScanFrom(optstring, args, i + 1);
        ScanIsPartition(optstring, args, i + 1);
      } else if args[i] == "--" {
        AllRight(args[i + 1..]);
        assert ["--"] + [] == ["--"];
      } else {
        LettersArePartition(optstring, args, i, args[i][1..]);
      }
    }
  }

  lemma {:induction false} LettersArePartition(optstring: string, args: seq<string>, i: nat, letters: string)
    requires i < |args| && letters != ""
    ensures var s := ScanLetters(optstring, args, i, letters); Interleaves(args[i..], s.options, s.others)
    decreases |args| - i, 0, |letters|
  {
    hide Interleaves, ScanFrom, Lookup;
    var s := ScanLetters(optstring, args, i, letters);
    var c, more := letters[0], letters[1..];
    assert args[i..] == [args[i]] + args[i + 1..];
    var takes := Lookup(optstring, c);
    if (takes.Unknown? || takes.Nothing?) && more != "" {
      LettersArePartition(optstring, args, i, more);
      assert s.options == ScanLetters(optstring, args, i, more).options;
    } else if takes.Required? && more == "" && i + 1 < |args| {
      var rest := ScanFrom(optstring, args, i + 2);
      ScanIsPartition(optstring, args, i + 2);
      assert args[i + 1..] == [args[i + 1]] + args[i + 2..];
      assert s.options == [args[i]] + ([args[i + 1]] + rest.options);
      OneMoreLeft(args[i + 1], args[i + 2..], rest.options, rest.others);
      OneMoreLeft(args[i], args[i + 1..], [args[i + 1]] + rest.options, rest.others);
    } else {
      var rest := ScanFrom(optstring, args, i + 1);
      ScanIsPartition(optstring, args, i + 1);
      OneMoreLeft(args[i], args[i + 1..], rest.options, rest.others);
    }
  }

  lemma OneMoreLeft(x: string, all: seq<string>, left: seq<string>, right: seq<string>)
    requires Interleaves(all, left, right)
    ensures Interleaves([x] + all, [x] + left, right)
  {
    assert ([x] + all)[1..] == all && ([x] + left)[1..] == left;
  }

  class Getopt {
    const optstring: string
    const argv: array<string>
    var optind: nat
    var firstNonopt: nat
    var lastNonopt: nat
    var nextchar: string
    var optarg: Arg
    var optopt: char
    var initialized: bool

    constructor (argv: array<string>, optstring: string)
      requires ShortOnly(optstring)
      ensures this.argv == argv && this.optstring == optstring
      ensures optind == 1 && nextchar == "" && !initialized
    {
      this.argv, this.optstring := argv, optstring;
      optind, firstNonopt, lastNonopt, nextchar := 1, 0, 0, "";
      optarg, optopt, initialized := NoArg, '?', false;
    }

    /** Between calls: before the first one, or somewhere in the arguments. */
    ghost predicate Ready(args: seq<string>)
      reads this, argv
    {
      && |args| == argv.Length > 0 && 1 <= optind <= argv.Length
      && (nextchar != "" ==> optind < argv.Length)
      && if initialized then Sorting(optstring, args, argv[..], firstNonopt, lastNonopt, optind, Ahead(args))
         else argv[..] == args && optind == 1 && nextchar == ""
    }

    /** What a scan of the original arguments still finds. */
    ghost function Ahead(args: seq<string>): Scan
      requires optind <= |args| && (nextchar != "" ==> optind < |args|)
      reads this
    {
      Pending(optstring, args, optind, nextchar)
    }

    /** The options are first, then the others, and `optind` is at the first of these. */
    ghost predicate Permuted(args: seq<string>)
      reads this, argv
    {
      && |args| > 0
      && var whole := ScanFrom(optstring, args, 1);
         && argv[..] == [args[0]] + whole.options + whole.others
         && optind == 1 + |whole.options|
    }

    method Initialize()
      modifies `firstNonopt, `lastNonopt, `nextchar
      ensures firstNonopt == lastNonopt == optind && nextchar == ""
    {
      firstNonopt, lastNonopt := optind, optind;
      nextchar := "";
    }

    /** Swaps two blocks that do not overlap. */
    method SwapBlocks(i: nat, j: nat, len: nat)
      requires i + len <= j && j + len <= argv.Length
      modifies argv
      ensures argv[..] == BlocksSwapped(old(argv[..]), i, j, len)
    {
      hide BlocksSwapped;
      ghost var was := argv[..];
      var k := 0;
      SwapsNone(was, i, j);
      while k < len
        invariant 0 <= k <= len
        invariant argv[..] == BlocksSwapped(was, i, j, k)
      {
        SwapsOneMore(was, i, j, k);
        ghost var now := argv[..];
        argv[i + k], argv[j + k] := argv[j + k], argv[i + k];
        assert argv[..] == now[i + k := now[j + k]][j + k := now[i + k]];
        k := k + 1;
      }
    }

    /**
      Exchanges the skipped arguments with the options found after them, so that both keep their order: the block from
      `firstNonopt` to `lastNonopt` and the block from there to `optind` trade places.
     */
    method Exchange()
      requires firstNonopt <= lastNonopt <= optind <= argv.Length
      modifies argv, `firstNonopt, `lastNonopt
      ensures firstNonopt == old(firstNonopt + (optind - lastNonopt)) && lastNonopt == optind
      ensures argv[..] == old(argv[..firstNonopt]) + old(argv[lastNonopt..optind])
                          + old(argv[firstNonopt..lastNonopt]) + old(argv[optind..])
    {
      hide Rotating, BlocksSwapped;
      ghost var was, first, end := argv[..], firstNonopt, optind;
      var bottom, middle, top := firstNonopt, lastNonopt, optind;
      RotatingStarts(was, bottom, middle, top);
      while top > middle && middle > bottom
        invariant first <= bottom <= middle <= top <= end == optind <= argv.Length
        invariant firstNonopt == first && lastNonopt == old(lastNonopt)
        invariant Rotating(argv[..], was, first, old(lastNonopt), bottom, middle, top, end)
        decreases top - bottom
      {
        ghost var now := argv[..];
        if top - middle > middle - bottom {
          var len := middle - bottom;
          SwapBlocks(bottom, top - len, len);
          BottomSwapped(now, was, first, old(lastNonopt), bottom, middle, top, end);
          top := top - len;
        } else {
          var len := top - middle;
          SwapBlocks(bottom, middle, len);
          TopSwapped(now, was, first, old(lastNonopt), bottom, middle, top, end);
          bottom := bottom + len;
        }
      }
      RotatingEnds(argv[..], was, first, old(lastNonopt), bottom, middle, top, end);
      firstNonopt := firstNonopt + (optind - lastNonopt);
      lastNonopt := optind;
    }

    /** Moves the options found since the others were skipped to the front of these. */
    method GatherOptions(ghost args: seq<string>, ghost ahead: Scan)
      requires Sorting(optstring, args, argv[..], firstNonopt, lastNonopt, optind, ahead)
      modifies argv, `firstNonopt, `lastNonopt
      ensures Sorting(optstring, args, argv[..], firstNonopt, optind, optind, ahead)
    {
      hide Sorting;
      SortingBounds(optstring, args, argv[..], firstNonopt, lastNonopt, optind, ahead);
      Gathered(optstring, args, argv[..], firstNonopt, lastNonopt, optind, ahead);
      if firstNonopt != lastNonopt && lastNonopt != optind {
        Exchange();
      } else if lastNonopt != optind {
        firstNonopt := optind;
      }
    }

    method SkipOthers(ghost args: seq<string>)
      requires |args| == argv.Length && optind <= argv.Length
      requires Sorting(optstring, args, argv[..], firstNonopt, optind, optind, ScanFrom(optstring, args, optind))
      modifies `optind, `lastNonopt
      ensures old(optind) <= optind <= argv.Length && lastNonopt == optind
      ensures Sorting(optstring, args, argv[..], firstNonopt, optind, optind, ScanFrom(optstring, args, optind))
      ensures ScanFrom(optstring, args, optind).answers == ScanFrom(optstring, args, old(optind)).answers
      ensures optind < argv.Length ==> IsOption(argv[optind])
      ensures FirstDashed(args, old(optind), optind)
    {
      hide Sorting, ScanFrom;
      SortingBounds(optstring, args, argv[..], firstNonopt, optind, optind, ScanFrom(optstring, args, optind));
      while optind < argv.Length && !IsOption(argv[optind])
        invariant old(optind) <= optind <= argv.Length
        invariant Sorting(optstring, args, argv[..], firstNonopt, optind, optind, ScanFrom(optstring, args, optind))
        invariant ScanFrom(optstring, args, optind).answers == ScanFrom(optstring, args, old(optind)).answers
        invariant forall k :: old(optind) <= k < optind ==> !IsOption(args[k])
      {
        SortingBounds(optstring, args, argv[..], firstNonopt, optind, optind, ScanFrom(optstring, args, optind));
        Skipped(optstring, args, argv[..], firstNonopt, optind);
        optind := optind + 1;
      }
      SortingBounds(optstring, args, argv[..], firstNonopt, optind, optind, ScanFrom(optstring, args, optind));
      lastNonopt := optind;
    }

    /** Counts the -- as an option, and everything after it as skipped. */
    method EndScan(ghost args: seq<string>)
      requires |args| == argv.Length && optind < argv.Length && argv[optind] == "--" && lastNonopt == optind
      requires Sorting(optstring, args, argv[..], firstNonopt, optind, optind, ScanFrom(optstring, args, optind))
      modifies argv, `firstNonopt, `lastNonopt, `optind
      ensures optind == lastNonopt == argv.Length && ScanFrom(optstring, args, old(optind)).answers == []
      ensures Sorting(optstring, args, argv[..], firstNonopt, optind, optind, Scan([], [], []))
    {
      hide Sorting, ScanFrom;
      SortingBounds(optstring, args, argv[..], firstNonopt, optind, optind, ScanFrom(optstring, args, optind));
      EndOfOptions(optstring, args, argv[..], firstNonopt, optind);
      ghost var rest := Scan([], args[optind + 1..], []);
      optind := optind + 1;
      Gathered(optstring, args, argv[..], firstNonopt, lastNonopt, optind, rest);
      if firstNonopt != lastNonopt && lastNonopt != optind {
        Exchange();
      } else if firstNonopt == lastNonopt {
        firstNonopt := optind;
      }
      RestAreOthers(optstring, args, argv[..], firstNonopt, optind, rest);
      lastNonopt := argv.Length;
      optind := argv.Length;
    }

    /** Goes to the next argument with options in it, or to the end. */
    method NextElement(ghost args: seq<string>) returns (more: bool)
      requires |args| == argv.Length && optind <= argv.Length && nextchar == ""
      requires Sorting(optstring, args, argv[..], firstNonopt, lastNonopt, optind, ScanFrom(optstring, args, optind))
      modifies argv, `firstNonopt, `lastNonopt, `optind, `nextchar
      ensures optind <= |args|
      ensures more ==> nextchar != "" && optind < |args|
      ensures more ==> ScanLetters(optstring, args, optind, nextchar).answers == ScanFrom(optstring, args, old(optind)).answers
      ensures more ==> Sorting(optstring, args, argv[..], firstNonopt, lastNonopt, optind,
                               ScanLetters(optstring, args, optind, nextchar))
      ensures !more ==> ScanFrom(optstring, args, old(optind)).answers == [] && Permuted(args)
      ensures if more then LetterAt(args, old(optind), "", optind, nextchar) else NoLetter(args, old(optind), "")
    {
      hide Sorting, ScanFrom, ScanLetters;
      SortingBounds(optstring, args, argv[..], firstNonopt, lastNonopt, optind, ScanFrom(optstring, args, optind));
      lastNonopt := AtMost(lastNonopt, optind);
      firstNonopt := AtMost(firstNonopt, optind);
      GatherOptions(args, ScanFrom(optstring, args, optind));
      SkipOthers(args);
      ghost var e := optind;
      SortingBounds(optstring, args, argv[..], firstNonopt, lastNonopt, optind, ScanFrom(optstring, args, optind));
      StartsLetters(optstring, args, optind);
      if optind != argv.Length && argv[optind] == "--" {
        EndScan(args);
      }
      more := optind != argv.Length;
      assert FirstDashed(args, old(optind), e);
      if more {
        nextchar := argv[optind][1..];
      } else {
        AllSorted(optstring, args, argv[..], firstNonopt, Scan([], [], []));
        SortingBounds(optstring, args, argv[..], firstNonopt, optind, optind, Scan([], [], []));
        if firstNonopt != lastNonopt {
          optind := firstNonopt;
        }
      }
    }

    /** Takes one letter off the current argument, with its argument if it has one. */
    method NextLetter(ghost args: seq<string>) returns (letter: char)
      requires |args| == argv.Length && optind < |args| && nextchar != ""
      requires Sorting(optstring, args, argv[..], firstNonopt, lastNonopt, optind,
                       ScanLetters(optstring, args, optind, nextchar))
      modifies `optind, `nextchar, `optarg, `optopt
      ensures optind <= |args| && (nextchar != "" ==> optind < |args|)
      ensures Sorting(optstring, args, argv[..], firstNonopt, lastNonopt, optind, Ahead(args))
      ensures var answers := old(ScanLetters(optstring, args, optind, nextchar)).answers;
              answers != [] && answers[1..] == Ahead(args).answers
              && Reports(Letter(letter), optarg, optopt, answers[0])
      ensures LetterTaken(optstring, args, old(optind), old(nextchar), Letter(letter), optarg, optopt, optind, nextchar)
    {
      hide Sorting, ScanFrom, ScanLetters, Lookup, Pending, LetterTaken;
      ghost var i, letters, ahead := optind, nextchar, ScanLetters(optstring, args, optind, nextchar);
      SortingBounds(optstring, args, argv[..], firstNonopt, lastNonopt, optind, ahead);
      optarg := NoArg;
      var c := nextchar[0];
      nextchar := nextchar[1..];
      var takes := Lookup(optstring, c);
      if nextchar == "" {
        optind := optind + 1;
      }
      letter := c;
      ghost var answer := Found(c, NoArg);
      match takes {
        case Unknown =>
          optopt := c;
          letter := '?';
          answer := Failed(c);
        case Nothing =>
        case Optional =>
          if nextchar != "" {
            optarg := Arg(nextchar);
            optind := optind + 1;
          }
          nextchar := "";
          answer := Found(c, optarg);
        case Required =>
          if nextchar != "" {
            optarg := Arg(nextchar);
            optind := optind + 1;
          } else if optind == argv.Length {
            optopt := c;
            letter := '?';
          } else {
            assert argv[optind] == argv[..][i..][1] && args[optind] == args[i..][1];
            optarg := Arg(argv[optind]);
            optind := optind + 1;
          }
          nextchar := "";
          answer := if letter == '?' && optarg == NoArg then Failed(c) else Found(c, optarg);
      }
      OneLetter(optstring, args, i, letters, optind, nextchar, answer);
      TakenByLookup(optstring, args, i, letters, answer, Letter(letter), optarg, optopt, optind, nextchar);
      Advanced(optstring, args, argv[..], firstNonopt, lastNonopt, i, optind, ahead, Ahead(args));
    }

    /**
      One call: reports the next thing that a scan of the original arguments finds. If there is nothing more, the
      arguments have been permuted.
     */
    method GetOpt(ghost args: seq<string>) returns (result: Result, ghost e: nat, ghost letters: string)
      requires Ready(args)
      modifies this, argv
      ensures old(Ahead(args)).answers == [] ==> result == Finished && Permuted(args)
      ensures old(Ahead(args)).answers != [] ==>
                && result.Letter? && Ready(args) && initialized
                && Ahead(args).answers == old(Ahead(args)).answers[1..]
                && Reports(result, optarg, optopt, old(Ahead(args)).answers[0])
      // which letter of which element that is, and what is reported of it
      ensures result.Letter? ==>
                && LetterAt(args, old(optind), old(nextchar), e, letters) && letters != ""
                && LetterTaken(optstring, args, e, letters, result, optarg, optopt, optind, nextchar)
      ensures result == Finished ==> NoLetter(args, old(optind), old(nextchar)) && optarg == NoArg
    {
      hide Sorting, ScanFrom, ScanLetters, LetterTaken, FirstDashed;
      optarg := NoArg;
      if optind == 0 || !initialized {
        Initialize();
        initialized := true;
        SortingStarts(optstring, args);
      }
      var more := true;
      if nextchar == "" {
        more := NextElement(args);
      }
      e, letters := optind, nextchar;
      if more {
        var letter := NextLetter(args);
        result := Letter(letter);
        SortingBounds(optstring, args, argv[..], firstNonopt, lastNonopt, optind, Ahead(args));
      } else {
        result := Finished;
      }
    }

    /** Calls until there is nothing more: everything that the arguments hold is reported, in order. */
    method GetAll() returns (reports: seq<(Result, Arg, char)>)
      requires argv.Length > 0 && optind == 1 && nextchar == "" && !initialized
      modifies this, argv
      ensures Permuted(old(argv[..]))
      ensures var answers := ScanFrom(optstring, old(argv[..]), 1).answers;
              && |reports| == |answers|
              && forall k :: 0 <= k < |answers| ==> Reports(reports[k].0, reports[k].1, reports[k].2, answers[k])
    {
      hide Sorting, ScanFrom, ScanLetters, Pending, Permuted, LetterAt, LetterTaken, NoLetter;
      ghost var args := argv[..];
      ghost var answers := Ahead(args).answers;
      assert answers == ScanFrom(optstring, args, 1).answers by { PendingStart(optstring, args); }
      reports := [];
      var result, e, letters := GetOpt(args);
      while result != Finished
        invariant result != Finished ==>
          && |reports| < |answers| && Ready(args) && Ahead(args).answers == answers[|reports| + 1..]
          && Reports(result, optarg, optopt, answers[|reports|])
        invariant result == Finished ==> |reports| == |answers| && Permuted(args)
        invariant forall k :: 0 <= k < |reports| && k < |answers| ==>
          Reports(reports[k].0, reports[k].1, reports[k].2, answers[k])
        decreases |answers| - |reports|, result != Finished
      {
        reports := reports + [(result, optarg, optopt)];
        result, e, letters := GetOpt(args);
      }
    }
  }

  lemma TakenByLookup(optstring: string, args: seq<string>, e: nat, letters: string, answer: Answer,
                      result: Result, optarg: Arg, optopt: char, optind: nat, nextchar: string)
    requires e < |args| && letters != "" && Reports(result, optarg, optopt, answer)
    requires TakenAs(optstring, args, e, letters, optind, nextchar, answer)
    ensures LetterTaken(optstring, args, e, letters, result, optarg, optopt, optind, nextchar)
  {
    var c := letters[0];
    LookupNowhere(optstring, c);
    forall p | 0 <= p < |optstring| && optstring[p] == c && c !in optstring[..p] ensures IndexOf(optstring, c) == p {
      LookupAt(optstring, c, p);
    }
  }

  lemma PendingStart(optstring: string, args: seq<string>)
    requires |args| > 0
    ensures Pending(optstring, args, 1, "") == ScanFrom(optstring, args, 1)
  {
  }

  lemma SortingStarts(optstring: string, args: seq<string>)
    requires |args| > 0
    ensures Sorting(optstring, args, args, 1, 1, 1, ScanFrom(optstring, args, 1))
  {
  }

  /** The answer to a letter, and where the scan then is. */
  ghost predicate TakenAs(optstring: string, args: seq<string>, i: nat, letters: string, i': nat, letters': string,
                          answer: Answer)
    requires i < |args| && letters != ""
  {
    var c, more := letters[0], letters[1..];
    match Lookup(optstring, c)
    case Unknown => answer == Failed(c) && letters' == more && i' == if more == "" then i + 1 else i
    case Nothing => answer == Found(c, NoArg) && letters' == more && i' == if more == "" then i + 1 else i
    case Optional =>
      && answer == Found(c, if more == "" then NoArg else Arg(more))
      && letters' == "" && i' == i + 1
    case Required =>
      && letters' == ""
      && if more != "" then answer == Found(c, Arg(more)) && i' == i + 1
         else if i + 1 == |args| then answer == Failed(c) && i' == i + 1
         else answer == Found(c, Arg(args[i + 1])) && i' == i + 2
  }

  /** What the scan finds at a letter is its answer and what it then still finds behind it. */
  lemma OneLetter(optstring: string, args: seq<string>, i: nat, letters: string, i': nat, letters': string,
                  answer: Answer)
    requires i < |args| && letters != "" && i <= i' <= |args| && (letters' != "" ==> i' < |args|)
    requires TakenAs(optstring, args, i, letters, i', letters', answer)
    ensures var here, next := ScanLetters(optstring, args, i, letters), Pending(optstring, args, i', letters');
            && here.options == args[i..i'] + next.options && here.others == next.others
            && here.answers == [answer] + next.answers
  {
    hide ScanFrom, Lookup;
    var next := Pending(optstring, args, i', letters');
    if i' == i {
      assert args[i..i'] + next.options == next.options;
    } else if i' == i + 1 {
      assert args[i..i'] == [args[i]];
    } else {
      assert args[i..i'] == [args[i], args[i + 1]];
    }
  }

  /** Dealing with the arguments of an option adds them to the options. */
  lemma Advanced(optstring: string, args: seq<string>, argv: seq<string>, first: nat, last: nat, ind: nat, ind': nat,
                 ahead: Scan, ahead': Scan)
    requires Sorting(optstring, args, argv, first, last, ind, ahead) && ind <= ind' <= |args|
    requires ahead.options == args[ind..ind'] + ahead'.options && ahead.others == ahead'.others
    ensures Sorting(optstring, args, argv, first, last, ind', ahead')
  {
    hide ScanFrom;
    assert argv[last..ind'] == argv[last..ind] + argv[ind..ind'];
    assert argv[ind..ind'] == argv[ind..][..ind' - ind] && args[ind..ind'] == args[ind..][..ind' - ind];
    assert argv[ind'..] == argv[ind..][ind' - ind..] && args[ind'..] == args[ind..][ind' - ind..];
  }

  /** The scan at an argument with options in it, and at the end. */
  lemma StartsLetters(optstring: string, args: seq<string>, i: nat)
    requires i <= |args|
    ensures i == |args| ==> ScanFrom(optstring, args, i) == Scan([], [], [])
    ensures i < |args| && IsOption(args[i]) && args[i] != "--" ==>
              ScanFrom(optstring, args, i) == ScanLetters(optstring, args, i, args[i][1..])
  {
  }

  /**
    The arguments before `ind` have been dealt with: options are before `first` and from `last` on, and the others
    between. With what is ahead, that makes the whole scan of the original arguments.
   */
  ghost predicate Sorting(optstring: string, args: seq<string>, argv: seq<string>, first: nat, last: nat, ind: nat, ahead: Scan) {
    && |args| == |argv| > 0 && argv[0] == args[0]
    && 1 <= first <= last <= ind <= |argv|
    && argv[ind..] == args[ind..]
    && var whole := ScanFrom(optstring, args, 1);
       && whole.options == argv[1..first] + argv[last..ind] + ahead.options
       && whole.others == argv[first..last] + ahead.others
  }

  lemma SortingBounds(optstring: string, args: seq<string>, argv: seq<string>, first: nat, last: nat, ind: nat, ahead: Scan)
    requires Sorting(optstring, args, argv, first, last, ind, ahead)
    ensures |args| == |argv| && 1 <= first <= last <= ind <= |argv|
    ensures argv[ind..] == args[ind..] && (ind < |argv| ==> argv[ind] == args[ind])
  {
    assert ind < |argv| ==> argv[ind] == argv[ind..][0] && args[ind] == args[ind..][0];
  }

  /** Exchanging the blocks, or having no others, leaves the options gathered. */
  lemma Gathered(optstring: string, args: seq<string>, argv: seq<string>, first: nat, last: nat, ind: nat, ahead: Scan)
    requires Sorting(optstring, args, argv, first, last, ind, ahead)
    ensures var exchanged := argv[..first] + argv[last..ind] + argv[first..last] + argv[ind..];
            Sorting(optstring, args, exchanged, first + (ind - last), ind, ind, ahead)
    ensures first == last ==> Sorting(optstring, args, argv, ind, ind, ind, ahead)
  {
    hide ScanFrom;
    var exchanged := argv[..first] + argv[last..ind] + argv[first..last] + argv[ind..];
    var middle := first + (ind - last);
    assert exchanged[ind..] == argv[ind..];
    assert exchanged[1..middle] == argv[1..first] + argv[last..ind];
    assert exchanged[middle..ind] == argv[first..last];
    assert exchanged[ind..ind] == [];
    if first == last {
      assert argv[1..ind] == argv[1..first] + argv[last..ind];
    }
  }

  lemma Skipped(optstring: string, args: seq<string>, argv: seq<string>, first: nat, ind: nat)
    requires ind <= |args| && Sorting(optstring, args, argv, first, ind, ind, ScanFrom(optstring, args, ind))
    requires ind < |argv| && !IsOption(argv[ind])
    ensures Sorting(optstring, args, argv, first, ind + 1, ind + 1, ScanFrom(optstring, args, ind + 1))
    ensures ScanFrom(optstring, args, ind + 1).answers == ScanFrom(optstring, args, ind).answers
  {
    var ahead := ScanFrom(optstring, args, ind);
    SortingBounds(optstring, args, argv, first, ind, ind, ahead);
    var rest := ScanFrom(optstring, args, ind + 1);
    assert ahead == rest.(others := [args[ind]] + rest.others);
    assert argv[first..ind + 1] == argv[first..ind] + [argv[ind]];
    assert argv[ind + 1..] == argv[ind..][1..] && args[ind + 1..] == args[ind..][1..];
    hide ScanFrom;
    assert argv[first..ind] + ahead.others == argv[first..ind + 1] + rest.others;
  }

  lemma EndOfOptions(optstring: string, args: seq<string>, argv: seq<string>, first: nat, ind: nat)
    requires ind <= |args| && Sorting(optstring, args, argv, first, ind, ind, ScanFrom(optstring, args, ind))
    requires ind < |argv| && argv[ind] == "--"
    ensures Sorting(optstring, args, argv, first, ind, ind + 1, Scan([], args[ind + 1..], []))
    ensures ScanFrom(optstring, args, ind).answers == []
  {
    SortingBounds(optstring, args, argv, first, ind, ind, ScanFrom(optstring, args, ind));
    assert argv[ind..ind + 1] == ["--"];
    assert argv[ind + 1..] == argv[ind..][1..] && args[ind + 1..] == args[ind..][1..];
    assert argv[1..first] + argv[ind..ind] + ["--"] == argv[1..first] + ["--"] + [];
  }

  /** After the end of options everything is skipped. */
  lemma RestAreOthers(optstring: string, args: seq<string>, argv: seq<string>, first: nat, ind: nat, rest: Scan)
    requires Sorting(optstring, args, argv, first, ind, ind, rest) && rest == Scan([], args[ind..], [])
    ensures Sorting(optstring, args, argv, first, |argv|, |argv|, Scan([], [], []))
  {
    hide ScanFrom;
    assert argv[first..|argv|] == argv[first..ind] + argv[ind..];
    assert argv[1..first] + argv[ind..ind] + [] == argv[1..first] + argv[|argv|..|argv|] + [];
    assert argv[first..ind] + args[ind..] == argv[first..|argv|] + [];
  }

  lemma AllSorted(optstring: string, args: seq<string>, argv: seq<string>, first: nat, ahead: Scan)
    requires Sorting(optstring, args, argv, first, |argv|, |argv|, ahead) && ahead == Scan([], [], [])
    ensures var whole := ScanFrom(optstring, args, 1);
            argv == [args[0]] + whole.options + whole.others && first == 1 + |whole.options|
  {
    hide ScanFrom;
    var whole := ScanFrom(optstring, args, 1);
    assert whole.options == argv[1..first] + argv[|argv|..|argv|] + [];
    assert whole.options == argv[1..first];
    assert whole.others == argv[first..|argv|] + [];
    Parted(argv, first);
  }

  lemma Parted<T>(s: seq<T>, k: nat)
    requires 1 <= k <= |s|
    ensures s == [s[0]] + s[1..k] + s[k..] && s[k..] == s[k..|s|]
  {
  }

  ghost function BlocksSwapped<T>(s: seq<T>, i: nat, j: nat, len: nat): (r: seq<T>)
    requires i + len <= j && j + len <= |s|
    ensures |r| == |s|
  {
    seq(|s|, m requires 0 <= m < |s| =>
      if i <= m < i + len then s[m + (j - i)] else if j <= m < j + len then s[m - (j - i)] else s[m])
  }

  lemma SwapsNone<T>(s: seq<T>, i: nat, j: nat)
    requires i <= j <= |s|
    ensures BlocksSwapped(s, i, j, 0) == s
  {
  }

  lemma SwapsOneMore<T>(s: seq<T>, i: nat, j: nat, k: nat)
    requires i + k < j && j + k < |s|
    ensures var r := BlocksSwapped(s, i, j, k);
            BlocksSwapped(s, i, j, k + 1) == r[i + k := r[j + k]][j + k := r[i + k]]
  {
  }

  /** What the exchanged range will hold: its ends are done, and the two blocks between still have to trade places. */
  ghost function Rotated<T>(s: seq<T>, first: nat, bottom: nat, middle: nat, top: nat, end: nat): seq<T>
    requires first <= bottom <= middle <= top <= end <= |s|
  {
    s[first..bottom] + s[middle..top] + s[bottom..middle] + s[top..end]
  }

  /** `s` is on the way from `was` to the sequence with the two blocks in each other's place. */
  ghost predicate Rotating<T>(s: seq<T>, was: seq<T>, first: nat, last: nat, bottom: nat, middle: nat, top: nat, end: nat) {
    && first <= last <= end <= |was| == |s| && first <= bottom <= middle <= top <= end
    && s[..first] == was[..first] && s[end..] == was[end..]
    && Rotated(s, first, bottom, middle, top, end) == was[last..end] + was[first..last]
  }

  lemma RotatingStarts<T>(s: seq<T>, first: nat, middle: nat, end: nat)
    requires first <= middle <= end <= |s|
    ensures Rotating(s, s, first, middle, first, middle, end, end)
  {
  }

  lemma BottomSwapped<T>(s: seq<T>, was: seq<T>, first: nat, last: nat, bottom: nat, middle: nat, top: nat, end: nat)
    requires Rotating(s, was, first, last, bottom, middle, top, end) && top - middle > middle - bottom
    ensures var len := middle - bottom;
            Rotating(BlocksSwapped(s, bottom, top - len, len), was, first, last, bottom, middle, top - len, end)
  {
    hide BlocksSwapped, Rotated;
    BottomIsShorter(s, first, bottom, middle, top, end);
  }

  lemma TopSwapped<T>(s: seq<T>, was: seq<T>, first: nat, last: nat, bottom: nat, middle: nat, top: nat, end: nat)
    requires Rotating(s, was, first, last, bottom, middle, top, end) && top - middle <= middle - bottom
    ensures var len := top - middle;
            Rotating(BlocksSwapped(s, bottom, middle, len), was, first, last, bottom + len, middle, top, end)
  {
    hide BlocksSwapped, Rotated;
    TopIsShorter(s, first, bottom, middle, top, end);
  }

  /** The five stretches of a sequence with two blocks swapped. */
  lemma SwappedStretches<T>(s: seq<T>, i: nat, j: nat, len: nat)
    requires i + len <= j && j + len <= |s|
    ensures var r := BlocksSwapped(s, i, j, len);
            && r[..i] == s[..i] && r[i..i + len] == s[j..j + len] && r[i + len..j] == s[i + len..j]
            && r[j..j + len] == s[i..i + len] && r[j + len..] == s[j + len..]
  {
    hide BlocksSwapped;
    StretchesOutside(s, i, j, len);
    LowerStretch(s, i, j, len);
    UpperStretch(s, i, j, len);
  }

  lemma StretchesOutside<T>(s: seq<T>, i: nat, j: nat, len: nat)
    requires i + len <= j && j + len <= |s|
    ensures var r := BlocksSwapped(s, i, j, len);
            r[..i] == s[..i] && r[i + len..j] == s[i + len..j] && r[j + len..] == s[j + len..]
  {
  }

  lemma LowerStretch<T>(s: seq<T>, i: nat, j: nat, len: nat)
    requires i + len <= j && j + len <= |s|
    ensures BlocksSwapped(s, i, j, len)[i..i + len] == s[j..j + len]
  {
  }

  lemma UpperStretch<T>(s: seq<T>, i: nat, j: nat, len: nat)
    requires i + len <= j && j + len <= |s|
    ensures BlocksSwapped(s, i, j, len)[j..j + len] == s[i..i + len]
  {
  }

  /** A stretch inside a prefix or a suffix that two sequences share. */
  lemma SameStretch<T>(r: seq<T>, s: seq<T>, a: nat, b: nat, c: nat, d: nat)
    requires |r| == |s| && a <= b <= c <= d <= |s| && r[..b] == s[..b] && r[c..] == s[c..]
    ensures r[a..b] == s[a..b] && r[c..d] == s[c..d] && r[..a] == s[..a] && r[d..] == s[d..]
  {
    assert r[a..b] == r[..b][a..] && s[a..b] == s[..b][a..] && r[..a] == r[..b][..a] && s[..a] == s[..b][..a];
    assert r[c..d] == r[c..][..d - c] && s[c..d] == s[c..][..d - c];
    assert r[d..] == r[c..][d - c..] && s[d..] == s[c..][d - c..];
  }

  lemma Joined<T>(s: seq<T>, a: nat, b: nat, c: nat)
    requires a <= b <= c <= |s|
    ensures s[a..c] == s[a..b] + s[b..c]
  {
  }

  lemma BottomIsShorter<T>(s: seq<T>, first: nat, bottom: nat, middle: nat, top: nat, end: nat)
    requires first <= bottom <= middle <= top <= end <= |s| && top - middle > middle - bottom
    ensures var len := middle - bottom;
            var r := BlocksSwapped(s, bottom, top - len, len);
            && Rotated(r, first, bottom, middle, top - len, end) == Rotated(s, first, bottom, middle, top, end)
            && r[..first] == s[..first] && r[end..] == s[end..]
  {
    hide BlocksSwapped;
    var len := middle - bottom;
    var cut := top - len;
    var r := BlocksSwapped(s, bottom, cut, len);
    SwappedStretches(s, bottom, cut, len);
    SameStretch(r, s, first, bottom, top, end);
    Joined(r, cut, top, end);
    Joined(s, middle, cut, top);
    var a, b, c, d, e := s[first..bottom], s[middle..cut], s[cut..top], s[bottom..middle], s[top..end];
    assert Rotated(r, first, bottom, middle, cut, end) == a + b + c + (d + e);
    Regroup(a, b, c, d, e);
  }

  lemma Regroup<T>(a: seq<T>, b: seq<T>, c: seq<T>, d: seq<T>, e: seq<T>)
    ensures a + b + c + (d + e) == a + (b + c) + d + e
  {
  }

  lemma TopIsShorter<T>(s: seq<T>, first: nat, bottom: nat, middle: nat, top: nat, end: nat)
    requires first <= bottom <= middle <= top <= end <= |s| && top - middle <= middle - bottom
    ensures var len := top - middle;
            var r := BlocksSwapped(s, bottom, middle, len);
            && Rotated(r, first, bottom + len, middle, top, end) == Rotated(s, first, bottom, middle, top, end)
            && r[..first] == s[..first] && r[end..] == s[end..]
  {
    hide BlocksSwapped, Rotated;
    var len := top - middle;
    var r := BlocksSwapped(s, bottom, middle, len);
    SwappedStretches(s, bottom, middle, len);
    SameStretch(r, s, first, bottom, top, end);
    TopRotated(r, s, first, bottom, bottom + len, middle, top, end);
  }

  lemma TopRotated<T>(r: seq<T>, s: seq<T>, first: nat, bottom: nat, cut: nat, middle: nat, top: nat, end: nat)
    requires first <= bottom <= cut <= middle <= top <= end <= |s| == |r|
    requires r[first..bottom] == s[first..bottom] && r[bottom..cut] == s[middle..top]
    requires r[cut..middle] == s[cut..middle] && r[middle..top] == s[bottom..cut] && r[top..end] == s[top..end]
    ensures Rotated(r, first, cut, middle, top, end) == Rotated(s, first, bottom, middle, top, end)
  {
    Joined(r, first, bottom, cut);
    Joined(s, bottom, cut, middle);
    RegroupTop(s[first..bottom], s[middle..top], s[bottom..cut], s[cut..middle], s[top..end]);
  }

  lemma RegroupTop<T>(a: seq<T>, b: seq<T>, c: seq<T>, d: seq<T>, e: seq<T>)
    ensures (a + b) + c + d + e == a + b + (c + d) + e
  {
  }

  /** When nothing is left to trade places, the blocks are in each other's place. */
  lemma RotatingEnds<T>(s: seq<T>, was: seq<T>, first: nat, last: nat, bottom: nat, middle: nat, top: nat, end: nat)
    requires Rotating(s, was, first, last, bottom, middle, top, end) && (top == middle || middle == bottom)
    ensures s == was[..first] + was[last..end] + was[first..last] + was[end..]
  {
    assert s[first..end] == Rotated(s, first, bottom, middle, top, end);
    assert s == s[..first] + s[first..end] + s[end..];
  }
}
