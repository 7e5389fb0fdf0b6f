/**
  The lock-free FIFO between the real-time and the non-real-time thread. One writer, one performer and one freer
  take small steps in any order; each step reads or writes at most one shared variable.
 */
module MsgFifo {
  import opened Bits
  import opened Probing

  datatype Slot<M> = Blank | Holding(msg: M)

  datatype Writer<M> = WriterIdle | HasRoom(data: M) | Stored(data: M)
  datatype Reader = ReaderIdle | SawItem | DidItem

  /** The shared variables, where each thread is, and what has happened so far. */
  datatype State<M> = State(
    items: seq<Slot<M>>, writeHead: nat, readHead: nat, freeHead: nat,
    writer: Writer<M>, performer: Reader, freer: Reader,
    written: seq<M>, performed: seq<Slot<M>>, freed: seq<Slot<M>>)

  datatype Action<M> =
    | BeginWrite(data: M) | Store | PublishWrite
    | CheckData | PerformItem | PublishRead
    | CheckFree | FreeItem | PublishFree

  function Init<M>(n: nat): State<M>
  {
    State(seq(n, _ => Blank), 0, 0, 0, WriterIdle, ReaderIdle, ReaderIdle, [], [], [])
  }

  /** One step of one thread; a step that its thread is not at does nothing. */
  function Do<M>(s: State<M>, a: Action<M>): State<M>
    requires |s.items| > 0
  {
    var n := |s.items|;
    match a
    case BeginWrite(data) =>
      if s.writer.WriterIdle? && Next(s.writeHead, n) != s.freeHead then s.(writer := HasRoom(data)) else s
    case Store =>
      if s.writer.HasRoom?
      then s.(items := s.items[Next(s.writeHead, n) := Holding(s.writer.data)], writer := Stored(s.writer.data))
      else s
    case PublishWrite =>
      if s.writer.Stored?
      then s.(writeHead := Next(s.writeHead, n), writer := WriterIdle, written := s.written + [s.writer.data])
      else s
    case CheckData =>
      if s.performer.ReaderIdle? && s.readHead != s.writeHead then s.(performer := SawItem) else s
    case PerformItem =>
      if s.performer.SawItem?
      then s.(performed := s.performed + [s.items[Next(s.readHead, n)]], performer := DidItem)
      else s
    case PublishRead =>
      if s.performer.DidItem? then s.(readHead := Next(s.readHead, n), performer := ReaderIdle) else s
    case CheckFree =>
      if s.freer.ReaderIdle? && s.freeHead != s.readHead then s.(freer := SawItem) else s
    case FreeItem =>
      if s.freer.SawItem?
      then s.(freed := s.freed + [s.items[Next(s.freeHead, n)]], freer := DidItem)
      else s
    case PublishFree =>
      if s.freer.DidItem? then s.(freeHead := Next(s.freeHead, n), freer := ReaderIdle) else s
  }

  function Run<M>(s: State<M>, actions: seq<Action<M>>): (s': State<M>)
    requires |s.items| > 0
    ensures |s'.items| == |s.items|
  {
    if actions == [] then s else Do(Run(s, actions[..|actions| - 1]), actions[|actions| - 1])
  }

  // ---- counting instead of wrapping ----

  /** How many messages the performer, and the freer, have moved past. */
  ghost function ReadCount<M>(s: State<M>): int { |s.performed| - (if s.performer.DidItem? then 1 else 0) }

  ghost function FreeCount<M>(s: State<M>): int { |s.freed| - (if s.freer.DidItem? then 1 else 0) }

  /** The slot of the k-th message (counting from 0) is the one behind position k. */
  ghost function SlotOf(n: nat, k: nat): (i: nat)
    requires n > 0
    ensures i < n
  {
    k % n
  }

  ghost predicate Inv<M>(s: State<M>) {
    var n, w, r, f := |s.items|, |s.written|, ReadCount(s), FreeCount(s);
    && n > 0 && IsPow2(n)
    // the heads are the three counts, which lag behind each other by less than a whole round
    && 0 <= f <= r <= w <= f + n - 1
    && s.writeHead == SlotOf(n, w) && s.readHead == SlotOf(n, r) && s.freeHead == SlotOf(n, f)
    // a thread that has seen room, or an item, can count on it
    && (!s.writer.WriterIdle? ==> w + 1 <= f + n - 1)
    && (s.writer.Stored? ==> s.items[SlotOf(n, w + 1)] == Holding(s.writer.data))
    && (!s.performer.ReaderIdle? ==> r < w)
    && (!s.freer.ReaderIdle? ==> f < r)
    // what is written and not freed is still in place
    && (forall k {:trigger InPlace(s, k)} :: f <= k < w ==> InPlace(s, k))
    // what is done is done in the order of writing
    && DoneInOrder(s.performed, s.written) && DoneInOrder(s.freed, s.written)
  }

  ghost predicate InPlace<M>(s: State<M>, k: nat)
    requires |s.items| > 0 && k < |s.written|
  {
    s.items[SlotOf(|s.items|, k + 1)] == Holding(s.written[k])
  }

  /** What was done is the first messages written, each once, in order. */
  ghost predicate DoneInOrder<M>(done: seq<Slot<M>>, written: seq<M>) {
    |done| <= |written| && forall k :: 0 <= k < |done| ==> done[k] == Holding(written[k])
  }

  lemma NextSlot(n: nat, k: nat)
    requires IsPow2(n) && n > 0
    ensures Next(SlotOf(n, k), n) == SlotOf(n, k + 1)
  {
    hide IsPow2, Next;
    NextWraps(k % n, n);
    RemainderSteps(n, k);
  }

  lemma RemainderSteps(n: nat, k: nat)
    requires n > 0
    ensures (k + 1) % n == if k % n + 1 == n then 0 else k % n + 1
  {
    var i, q := k % n, k / n;
    assert k == q * n + i;
    if i + 1 == n {
      assert k + 1 == (q + 1) * n;
      DivideUnique(k + 1, n, q + 1, 0);
    } else {
      DivideUnique(k + 1, n, q, i + 1);
    }
  }

  /** A whole round on, it is the same slot again. */
  lemma SlotsWrap(n: nat, k: nat)
    requires n > 0
    ensures SlotOf(n, k + n) == SlotOf(n, k)
  {
    var i, q := k % n, k / n;
    assert k == q * n + i;
    assert k + n == (q + 1) * n + i;
    DivideUnique(k + n, n, q + 1, i);
  }

  /** Positions less than a round apart have different slots. */
  lemma SlotsDiffer(n: nat, j: nat, k: nat)
    requires n > 0 && j < k < j + n
    ensures SlotOf(n, j) != SlotOf(n, k)
  {
    assert j == (j / n) * n + j % n && k == (k / n) * n + k % n;
    assert j % n == k % n ==> (k / n - j / n) * n == k - j;
    NoMultipleBetween(k / n - j / n, n, k - j);
  }

  lemma NoMultipleBetween(q: int, n: int, d: int)
    requires 0 < d < n
    ensures q * n != d
  {
    if q * n == d { SmallMultiple(q, n); }
  }

  lemma InitInv<M>(n: nat)
    requires IsPow2(n) && n > 0
    ensures Inv(Init<M>(n))
  {
  }

  lemma WriterInv<M>(s: State<M>, a: Action<M>)
    requires Inv(s) && (a.BeginWrite? || a.Store? || a.PublishWrite?)
    ensures Inv(Do(s, a))
  {
    hide IsPow2, Next, SlotOf;
    var n, w, f, s' := |s.items|, |s.written|, FreeCount(s), Do(s, a);
    NextSlot(n, w);
    SlotsWrap(n, f);
    forall k | f <= k < |s'.written| ensures InPlace(s', k) {
      if k < w {
        assert InPlace(s, k);
        if !s.writer.WriterIdle? { SlotsDiffer(n, k + 1, w + 1); }
      }
    }
  }

  lemma PerformerInv<M>(s: State<M>, a: Action<M>)
    requires Inv(s) && (a.CheckData? || a.PerformItem? || a.PublishRead?)
    ensures Inv(Do(s, a))
  {
    hide IsPow2, Next, SlotOf;
    var n, r, s' := |s.items|, ReadCount(s), Do(s, a);
    NextSlot(n, r);
    if r < |s.written| { assert InPlace(s, r); }
    forall k | FreeCount(s') <= k < |s'.written| ensures InPlace(s', k) { assert InPlace(s, k); }
  }

  lemma FreerInv<M>(s: State<M>, a: Action<M>)
    requires Inv(s) && (a.CheckFree? || a.FreeItem? || a.PublishFree?)
    ensures Inv(Do(s, a))
  {
    hide IsPow2, Next, SlotOf;
    var n, f, s' := |s.items|, FreeCount(s), Do(s, a);
    NextSlot(n, f);
    if f < |s.written| { assert InPlace(s, f); }
    forall k | FreeCount(s') <= k < |s'.written| ensures InPlace(s', k) { assert InPlace(s, k); }
  }

  /** In every interleaving, from the empty FIFO on, all of this holds in every state. */
  lemma {:induction false} AlwaysInv<M>(n: nat, actions: seq<Action<M>>)
    requires IsPow2(n) && n > 0
    ensures Inv(Run(Init<M>(n), actions))
    decreases |actions|
  {
    if actions == [] {
      InitInv<M>(n);
    } else {
      var before, a := actions[..|actions| - 1], actions[|actions| - 1];
      AlwaysInv(n, before);
      var s := Run(Init<M>(n), before);
      match a {
        case BeginWrite(_) => WriterInv(s, a);
        case Store => WriterInv(s, a);
        case PublishWrite => WriterInv(s, a);
        case CheckData => PerformerInv(s, a);
        case PerformItem => PerformerInv(s, a);
        case PublishRead => PerformerInv(s, a);
        case CheckFree => FreerInv(s, a);
        case FreeItem => FreerInv(s, a);
        case PublishFree => FreerInv(s, a);
      }
    }
  }

  // ---- what this means to the threads ----

  /** Every message is performed at most once, in the order of writing, and freed only after it was performed. */
  lemma OnceInOrder<M>(n: nat, actions: seq<Action<M>>)
    requires IsPow2(n) && n > 0
    ensures var s := Run(Init<M>(n), actions);
            && |s.freed| <= |s.performed| <= |s.written|
            && (forall k :: 0 <= k < |s.performed| ==> s.performed[k] == Holding(s.written[k]))
            && (forall k :: 0 <= k < |s.freed| ==> s.freed[k] == Holding(s.written[k]))
  {
    AlwaysInv(n, actions);
    var s := Run(Init<M>(n), actions);
    assert FreeCount(s) <= ReadCount(s);
  }

  /** At most n - 1 messages are outstanding, and each of them is still in its slot as it was written. */
  lemma OutstandingInPlace<M>(n: nat, actions: seq<Action<M>>)
    requires IsPow2(n) && n > 0
    ensures var s := Run(Init<M>(n), actions);
            && |s.written| - FreeCount(s) <= n - 1
            && forall k: nat :: FreeCount(s) <= k < |s.written| ==> InPlace(s, k)
  {
    AlwaysInv(n, actions);
  }

  /** The store of a new message never hits the slot of one that is not freed yet. */
  lemma StoreHitsFreeSlot<M>(n: nat, actions: seq<Action<M>>, k: nat)
    requires IsPow2(n) && n > 0
    requires var s := Run(Init<M>(n), actions); s.writer.HasRoom? && FreeCount(s) <= k < |s.written|
    ensures var s := Run(Init<M>(n), actions); Next(s.writeHead, n) != SlotOf(n, k + 1)
  {
    hide Next, IsPow2, SlotOf;
    AlwaysInv(n, actions);
    var s := Run(Init<M>(n), actions);
    NextSlot(n, |s.written|);
    SlotsDiffer(n, k + 1, |s.written| + 1);
  }

  /** A performer that finds no data has performed everything written so far, and a freer everything performed. */
  lemma IdleMeansDone<M>(n: nat, actions: seq<Action<M>>)
    requires IsPow2(n) && n > 0
    ensures var s := Run(Init<M>(n), actions);
            && (s.performer.ReaderIdle? && s.readHead == s.writeHead ==> |s.performed| == |s.written|)
            && (s.freer.ReaderIdle? && s.freeHead == s.readHead ==> |s.freed| == ReadCount(s))
  {
    hide Next, IsPow2, SlotOf;
    AlwaysInv(n, actions);
    var s := Run(Init<M>(n), actions);
    var w, r, f := |s.written|, ReadCount(s), FreeCount(s);
    if r < w { SlotsDiffer(n, r, w); }
    if f < r { SlotsDiffer(n, f, r); }
  }

  /** Write is refused exactly when n - 1 messages are outstanding. */
  lemma FullExactly<M>(n: nat, actions: seq<Action<M>>)
    requires IsPow2(n) && n > 0
    ensures var s := Run(Init<M>(n), actions);
            Next(s.writeHead, n) == s.freeHead <==> |s.written| - FreeCount(s) == n - 1
  {
    hide Next, IsPow2, SlotOf;
    AlwaysInv(n, actions);
    var s := Run(Init<M>(n), actions);
    var w, f := |s.written|, FreeCount(s);
    NextSlot(n, w);
    SlotsWrap(n, f);
    if w + 1 < f + n { SlotsDiffer(n, f, w + 1); }
  }

  // ---- what the steps do ----

  /**
    In every reachable state, whatever the other threads are at: a writer that is idle gets room just when fewer than
    n - 1 messages are outstanding, stores its message, and publishes just that one.
   */
  lemma WriterSteps<M>(n: nat, actions: seq<Action<M>>, data: M)
    requires IsPow2(n) && n > 0
    ensures var s := Run(Init<M>(n), actions);
            && (s.writer.WriterIdle? ==>
                  Do(s, BeginWrite(data)) == if |s.written| - FreeCount(s) < n - 1 then s.(writer := HasRoom(data)) else s)
            && (s.writer.HasRoom? ==>
                  && Do(s, Store).writer == Stored(s.writer.data) && WriteNotBy(s, Do(s, Store))
                  && Do(s, Store).written == s.written && Do(s, Store).writeHead == s.writeHead)
            && (s.writer.Stored? ==>
                  && Do(s, PublishWrite).writer == WriterIdle && WriteNotBy(s, Do(s, PublishWrite))
                  && Do(s, PublishWrite).written == s.written + [s.writer.data]
                  && Do(s, PublishWrite).items == s.items)
  {
    hide Next, IsPow2, SlotOf;
    AlwaysInv(n, actions);
    FullExactly(n, actions);
  }

  /** Nothing changes for the two readers. */
  ghost predicate WriteNotBy<M>(s: State<M>, s': State<M>) {
    && s'.readHead == s.readHead && s'.freeHead == s.freeHead && s'.performer == s.performer && s'.freer == s.freer
    && s'.performed == s.performed && s'.freed == s.freed
  }

  /**
    In every reachable state: an idle performer sees a message just when one is written that it has not performed,
    performs the next one in the order of writing, and moves on.
   */
  lemma PerformerSteps<M>(s: State<M>)
    requires Inv(s)
    ensures s.performer.ReaderIdle? ==>
              Do(s, CheckData) == if |s.performed| < |s.written| then s.(performer := SawItem) else s
    ensures s.performer.SawItem? ==>
              && |s.performed| < |s.written|
              && Do(s, PerformItem)
                 == s.(performed := s.performed + [Holding(s.written[|s.performed|])], performer := DidItem)
    ensures s.performer.DidItem? ==>
              var s' := Do(s, PublishRead); s' == s.(performer := ReaderIdle, readHead := s'.readHead)
  {
    hide Next, IsPow2, SlotOf;
    var n, w, r := |s.items|, |s.written|, ReadCount(s);
    if r < w {
      SlotsDiffer(n, r, w);
      NextSlot(n, r);
      assert InPlace(s, r);
    }
  }

  /** The same of the freer, which follows what the performer has moved past. */
  lemma FreerSteps<M>(s: State<M>)
    requires Inv(s)
    ensures s.freer.ReaderIdle? ==>
              Do(s, CheckFree) == if |s.freed| < ReadCount(s) then s.(freer := SawItem) else s
    ensures s.freer.SawItem? ==>
              && |s.freed| < |s.written|
              && Do(s, FreeItem) == s.(freed := s.freed + [Holding(s.written[|s.freed|])], freer := DidItem)
    ensures s.freer.DidItem? ==>
              var s' := Do(s, PublishFree); s' == s.(freer := ReaderIdle, freeHead := s'.freeHead)
  {
    hide Next, IsPow2, SlotOf;
    var n, r, f := |s.items|, ReadCount(s), FreeCount(s);
    if f < r {
      SlotsDiffer(n, f, r);
      NextSlot(n, f);
      assert InPlace(s, f);
    }
  }

  // ---- whole calls ----

  /** One round of the loop of `Perform`, and one of that of `Free`. */
  function PerformRound<M>(): seq<Action<M>> { [CheckData, PerformItem, PublishRead] }

  function FreeRound<M>(): seq<Action<M>> { [CheckFree, FreeItem, PublishFree] }

  function Rounds<M>(round: seq<Action<M>>, k: nat): seq<Action<M>> {
    if k == 0 then [] else Rounds(round, k - 1) + round
  }

  lemma {:induction false} RunOn<M>(s: State<M>, before: seq<Action<M>>, after: seq<Action<M>>)
    requires |s.items| > 0
    ensures Run(s, before + after) == Run(Run(s, before), after)
    decreases |after|
  {
    hide Do;
    if after == [] {
      assert before + after == before;
    } else {
      var n, all := |after| - 1, before + after;
      RunOn(s, before, after[..n]);
      assert all[..|all| - 1] == before + after[..n] && all[|all| - 1] == after[n];
    }
  }

  lemma ThreeSteps<M>(s: State<M>, a: Action<M>, b: Action<M>, c: Action<M>)
    requires |s.items| > 0
    ensures Run(s, [a, b, c]) == Do(Do(Do(s, a), b), c)
  {
    assert [a, b, c][..2] == [a, b] && [a, b][..1] == [a] && [a][..0] == [];
    assert Run(s, [a]) == Do(s, a);
    assert Run(s, [a, b]) == Do(Do(s, a), b);
  }

  /** Writing from any reachable state appends the message just when fewer than n - 1 are outstanding. */
  lemma WritesOne<M>(n: nat, actions: seq<Action<M>>, data: M)
    requires IsPow2(n) && n > 0 && Run(Init<M>(n), actions).writer.WriterIdle?
    ensures var s := Run(Init<M>(n), actions);
            var s' := Run(s, [BeginWrite(data), Store, PublishWrite]);
            && s'.writer == WriterIdle && WriteNotBy(s, s')
            && s'.written == if |s.written| - FreeCount(s) < n - 1 then s.written + [data] else s.written
  {
    hide Next, IsPow2, FreeCount;
    var s := Run(Init<M>(n), actions);
    FullExactly(n, actions);
    OutstandingInPlace(n, actions);
    ThreeSteps(s, BeginWrite(data), Store, PublishWrite);
  }

  /** A round performs the next message, if there is one. */
  lemma PerformsOne<M>(s: State<M>)
    requires Inv(s) && s.performer.ReaderIdle?
    ensures var s' := Run(s, PerformRound());
            && Inv(s') && s'.performer.ReaderIdle? && s'.written == s.written && s'.freed == s.freed && s'.freer == s.freer
            && s'.performed
               == if |s.performed| < |s.written| then s.performed + [Holding(s.written[|s.performed|])] else s.performed
  {
    hide Inv, Do;
    AsManyAsWritten(s);
    ThreeSteps(s, CheckData, PerformItem, PublishRead);
    var s1 := Do(s, CheckData);
    PerformerInv(s, CheckData);
    AsManyAsWritten(s1);
    var s2 := Do(s1, PerformItem);
    PerformerInv(s1, PerformItem);
    PerformerInv(s2, PublishRead);
    PerformerSteps(s);
    PerformerSteps(s1);
    PerformerSteps(s2);
    if s1.performer.ReaderIdle? { IdlePerformer(s1); }
  }

  lemma IdlePerformer<M>(s: State<M>)
    requires |s.items| > 0 && s.performer.ReaderIdle?
    ensures Do(s, PerformItem) == s && Do(s, PublishRead) == s
  {
  }

  lemma FreesOne<M>(s: State<M>)
    requires Inv(s) && s.freer.ReaderIdle?
    ensures var s' := Run(s, FreeRound());
            && Inv(s') && s'.freer.ReaderIdle? && s'.written == s.written
            && s'.performed == s.performed && s'.performer == s.performer
            && s'.freed == if |s.freed| < ReadCount(s) then s.freed + [Holding(s.written[|s.freed|])] else s.freed
  {
    hide Inv, Do;
    AsManyAsWritten(s);
    ThreeSteps(s, CheckFree, FreeItem, PublishFree);
    var s1 := Do(s, CheckFree);
    FreerInv(s, CheckFree);
    AsManyAsWritten(s1);
    var s2 := Do(s1, FreeItem);
    FreerInv(s1, FreeItem);
    FreerInv(s2, PublishFree);
    FreerSteps(s);
    FreerSteps(s1);
    FreerSteps(s2);
    if s1.freer.ReaderIdle? { IdleFreer(s1); }
  }

  lemma IdleFreer<M>(s: State<M>)
    requires |s.items| > 0 && s.freer.ReaderIdle?
    ensures Do(s, FreeItem) == s && Do(s, PublishFree) == s
  {
  }

  function AtMost(k: int, limit: int): int { if k < limit then k else limit }

  lemma {:induction false} PerformsRounds<M>(s: State<M>, k: nat)
    requires Inv(s) && s.performer.ReaderIdle?
    ensures var s' := Run(s, Rounds(PerformRound(), k));
            && Inv(s') && s'.performer.ReaderIdle? && s'.written == s.written && s'.freed == s.freed && s'.freer == s.freer
            && |s'.performed| == AtMost(|s.performed| + k, |s.written|)
  {
    hide Inv, Do;
    AsManyAsWritten(s);
    if k > 0 {
      PerformsRounds(s, k - 1);
      RunOn(s, Rounds(PerformRound(), k - 1), PerformRound());
      PerformsOne(Run(s, Rounds(PerformRound(), k - 1)));
    }
  }

  lemma {:induction false} FreesRounds<M>(s: State<M>, k: nat)
    requires Inv(s) && s.freer.ReaderIdle?
    ensures var s' := Run(s, Rounds(FreeRound(), k));
            && Inv(s') && s'.freer.ReaderIdle? && s'.written == s.written
            && s'.performed == s.performed && s'.performer == s.performer
            && |s'.freed| == AtMost(|s.freed| + k, ReadCount(s))
  {
    hide Inv, Do;
    AsManyAsWritten(s);
    if k > 0 {
      FreesRounds(s, k - 1);
      RunOn(s, Rounds(FreeRound(), k - 1), FreeRound());
      FreesOne(Run(s, Rounds(FreeRound(), k - 1)));
    }
  }

  lemma AsManyAsWritten<M>(s: State<M>)
    requires Inv(s)
    ensures |s.items| > 0 && |s.freed| <= |s.written| && |s.performed| <= |s.written|
    ensures s.freer.ReaderIdle? ==> |s.freed| <= ReadCount(s)
  {
  }

  /** From any reachable state, performing until nothing is left performs everything written, and freeing frees it. */
  lemma PerformAndFreeAll<M>(n: nat, actions: seq<Action<M>>, k: nat)
    requires IsPow2(n) && n > 0 && k >= n
    requires var s := Run(Init<M>(n), actions); s.performer.ReaderIdle? && s.freer.ReaderIdle?
    ensures var s := Run(Init<M>(n), actions);
            var done := Run(s, Rounds(PerformRound(), k));
            var empty := Run(done, Rounds(FreeRound(), k));
            && done.written == empty.written == s.written && empty.performed == done.performed && done.freed == s.freed
            && |done.performed| == |empty.freed| == |s.written|
            && forall i :: 0 <= i < |s.written| ==>
                 done.performed[i] == Holding(s.written[i]) && empty.freed[i] == Holding(s.written[i])
  {
    hide Do, Rounds, Run, Next, SlotOf;
    AlwaysInv(n, actions);
    var s := Run(Init<M>(n), actions);
    assert |s.items| == n;
    PerformsRounds(s, k);
    FreesRounds(Run(s, Rounds(PerformRound(), k)), k);
  }
}
