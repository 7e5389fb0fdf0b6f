/**
  The scheduler's queue: a binary heap of events in an array of fixed size. The first element of an empty queue is an
  event at the end of time.
 */
module PriorityQueues {
  const MAX_TIME := 0x7FFF_FFFF_FFFF_FFFF
  const MIN_TIME := -0x8000_0000_0000_0000

  type Time = t: int | MIN_TIME <= t <= MAX_TIME witness 0

  datatype Event<T> = Event(time: Time, data: T)

  function Parent(i: nat): (p: nat)
    requires i > 0
    ensures p < i && (i == 2 * p + 1 || i == 2 * p + 2)
  {
    (i - 1) / 2
  }

  ghost predicate Above<T>(q: seq<Event<T>>, i: nat)
    requires 0 < i < |q|
  {
    q[Parent(i)].time <= q[i].time
  }

  /** No event comes before its parent. */
  ghost predicate Heap<T>(q: seq<Event<T>>) {
    forall i {:trigger Above(q, i)} :: 0 < i < |q| ==> Above(q, i)
  }

  /** The heap order, except that the event at `me` may come before its parent. */
  ghost predicate HeapUpTo<T>(q: seq<Event<T>>, me: nat) {
    && me < |q|
    && (forall i {:trigger Above(q, i)} :: 0 < i < |q| && i != me ==> Above(q, i))
    && (me > 0 ==> forall i {:trigger Parent(i)} :: 0 < i < |q| && Parent(i) == me ==> q[Parent(me)].time <= q[i].time)
  }

  /** The heap order, except that the event at `mom` may come after its children. */
  ghost predicate HeapDownTo<T>(q: seq<Event<T>>, mom: nat) {
    && mom < |q|
    && (forall i {:trigger Above(q, i)} :: 0 < i < |q| && Parent(i) != mom ==> Above(q, i))
    && (mom > 0 ==> forall i {:trigger Parent(i)} :: 0 < i < |q| && Parent(i) == mom ==> q[Parent(mom)].time <= q[i].time)
  }

  lemma {:induction false} RootIsFirst<T>(q: seq<Event<T>>, i: nat)
    requires Heap(q) && i < |q|
    ensures q[0].time <= q[i].time
  {
    if i > 0 {
      assert Above(q, i);
      RootIsFirst(q, Parent(i));
    }
  }

  ghost function Swapped<T>(q: seq<T>, i: nat, j: nat): (r: seq<T>)
    requires i < |q| && j < |q|
    ensures |r| == |q|
  {
    q[i := q[j]][j := q[i]]
  }

  lemma SwapUp<T>(q: seq<Event<T>>, me: nat)
    requires HeapUpTo(q, me) && me > 0 && q[me].time < q[Parent(me)].time
    ensures HeapUpTo(Swapped(q, me, Parent(me)), Parent(me))
  {
    var mom, r := Parent(me), Swapped(q, me, Parent(me));
    forall i | 0 < i < |r| && i != mom
      ensures Above(r, i)
    {
      assert i != me ==> Above(q, i);
    }
    if mom > 0 {
      assert Above(q, mom);
      forall i | 0 < i < |r| && Parent(i) == mom
        ensures r[Parent(mom)].time <= r[i].time
      {
        assert i != me ==> Above(q, i);
      }
    }
  }

  lemma SettledUp<T>(q: seq<Event<T>>, me: nat)
    requires HeapUpTo(q, me) && (me == 0 || q[Parent(me)].time <= q[me].time)
    ensures Heap(q)
  {
    forall i | 0 < i < |q|
      ensures Above(q, i)
    {
    }
  }

  /** The child that comes first, if there is one. */
  ghost predicate FirstChild<T>(q: seq<Event<T>>, mom: nat, me: nat) {
    && 0 < me < |q| && Parent(me) == mom
    && forall i {:trigger Parent(i)} :: 0 < i < |q| && Parent(i) == mom ==> q[me].time <= q[i].time
  }

  lemma SwapDown<T>(q: seq<Event<T>>, mom: nat, me: nat)
    requires HeapDownTo(q, mom) && FirstChild(q, mom, me) && q[me].time < q[mom].time
    ensures HeapDownTo(Swapped(q, mom, me), me)
  {
    var r := Swapped(q, mom, me);
    forall i | 0 < i < |r| && Parent(i) != me
      ensures Above(r, i)
    {
      assert Parent(i) != mom ==> Above(q, i);
    }
    forall i | 0 < i < |r| && Parent(i) == me
      ensures r[Parent(me)].time <= r[i].time
    {
      assert Above(q, i);
    }
  }

  lemma SettledDown<T>(q: seq<Event<T>>, mom: nat)
    requires HeapDownTo(q, mom)
    requires forall i {:trigger Parent(i)} :: 0 < i < |q| && Parent(i) == mom ==> q[mom].time <= q[i].time
    ensures Heap(q)
  {
    forall i | 0 < i < |q|
      ensures Above(q, i)
    {
    }
  }

  /** The children of `mom` are the two at 2 * mom + 1 and 2 * mom + 2, as far as they are in the queue. */
  lemma Children<T>(q: seq<Event<T>>, mom: nat)
    ensures forall i {:trigger Parent(i)} :: 0 < i < |q| && Parent(i) == mom ==> i == 2 * mom + 1 || i == 2 * mom + 2
    ensures Parent(2 * mom + 1) == mom && Parent(2 * mom + 2) == mom
  {
  }

  /** Moving what is at j into the hole at i makes j the hole. */
  lemma HoleMoves<T>(s: seq<T>, temp: T, i: nat, j: nat)
    requires i < |s| && j < |s| && i != j
    ensures s[i := s[j]][j := temp] == Swapped(s[i := temp], i, j)
  {
  }

  lemma {:induction false} SwapKeepsAll<T>(q: seq<T>, i: nat, j: nat)
    requires i < |q| && j < |q|
    ensures multiset(Swapped(q, i, j)) == multiset(q)
  {
  }

  /** The last event takes the place of the first, which is taken out. */
  lemma LastForFirst<T>(q: seq<T>)
    requires |q| > 1
    ensures var n := |q| - 1; multiset(q[..n][0 := q[n]]) == multiset(q) - multiset{q[0]}
  {
    var n := |q| - 1;
    assert q == [q[0]] + q[1..n] + [q[n]];
    assert q[..n][0 := q[n]] == [q[n]] + q[1..n];
  }

  /** The elements of a sequence are ordered by time. */
  ghost predicate InTimeOrder<T>(events: seq<Event<T>>) {
    forall i, j :: 0 <= i < j < |events| ==> events[i].time <= events[j].time
  }

  class PriorityQueue<T(0)> {
    var events: array<Event<T>>
    var size: nat

    ghost predicate Valid()
      reads this, events
    {
      && size <= events.Length && events.Length > 0
      && Heap(events[..size])
      && (size == 0 ==> events[0].time == MAX_TIME)
    }

    ghost function Contents(): multiset<Event<T>>
      requires Valid()
      reads this, events
    {
      multiset(events[..size])
    }

    constructor (n: nat, blank: T)
      requires n > 0
      ensures Valid() && fresh(events) && events.Length == n && Contents() == multiset{}
    {
      events := new Event<T>[n](_ => Event(MAX_TIME, blank));
      size := 0;
    }

    function NextTime(): Time
      requires events.Length > 0
      reads this, events
    {
      events[0].time
    }

    method Empty()
      requires Valid()
      modifies `size, events
      ensures Valid() && Contents() == multiset{}
    {
      size := 0;
      SetEmptyTime();
    }

    method SetEmptyTime()
      requires events.Length > 0
      modifies events
      ensures events[0].time == MAX_TIME
      ensures forall i :: 0 < i < events.Length ==> events[i] == old(events[i])
    {
      events[0] := events[0].(time := MAX_TIME);
    }

    /** Adds an event if there is room. */
    method Add(e: Event<T>) returns (ok: bool)
      requires Valid()
      modifies `size, events
      ensures Valid() && (ok <==> old(size) < events.Length)
      ensures size == old(size) + (if ok then 1 else 0)
      ensures Contents() == if ok then old(Contents()) + multiset{e} else old(Contents())
    {
      hide Heap, Rising, Swapped;
      if size >= events.Length {
        return false;
      }
      ghost var q0 := events[..size];
      var mom := size;
      size := size + 1;
      var me := mom;
      AddedLast(q0, e, events[..size][me := e]);
      while mom > 0
        invariant mom == me < size == |q0| + 1 <= events.Length
        invariant Rising(q0, e, events[..size][me := e], me)
      {
        ghost var s, hole := events[..size], me;
        mom := (mom - 1) / 2;
        if e.time < events[mom].time {
          Rises(q0, e, s[me := e], me);
          events[me] := events[mom];
          me := mom;
          assert events[..size] == s[hole := s[mom]];
          HoleMoves(s, e, hole, mom);
        } else {
          break;
        }
      }
      Risen(q0, e, events[..size][me := e], me);
      events[me] := e;
      return true;
    }

    /** Puts an event in the place of the first one, and below the events that come before it. */
    method Demote(temp: Event<T>)
      requires 0 < size < events.Length && HeapDownTo(events[..size][0 := temp], 0)
      modifies events
      ensures Heap(events[..size])
      ensures multiset(events[..size]) == multiset(old(events[..size])[0 := temp])
    {
      hide Heap, HeapDownTo, Above, Swapped, FirstChild;
      ghost var all := multiset(events[..size][0 := temp]);
      var mom, me := 0, 1;
      while me < size
        invariant me == 2 * mom + 1 && mom < size
        invariant HeapDownTo(events[..size][mom := temp], mom)
        invariant multiset(events[..size][mom := temp]) == all
      {
        ghost var s, q, hole := events[..size], events[..size][mom := temp], mom;
        if me + 1 < size && events[me].time > events[me + 1].time {
          me := me + 1;
        }
        IsFirstChild(q, mom, me);
        if temp.time > events[me].time {
          SwapDown(q, mom, me);
          SwapKeepsAll(q, mom, me);
          events[mom] := events[me];
          mom := me;
          me := me * 2 + 1;
          assert events[..size] == s[hole := s[mom]];
          HoleMoves(s, temp, hole, mom);
        } else {
          FirstChildSettles(q, mom, me);
          break;
        }
      }
      Children(events[..size][mom := temp], mom);
      SettledDown(events[..size][mom := temp], mom);
      events[mom] := temp;
    }

    /** Takes out an event that no other comes before. */
    method Remove() returns (event: Event<T>)
      requires Valid() && size > 0
      modifies `size, events
      ensures Valid() && size == old(size) - 1
      ensures event == old(events[0]) && event in old(Contents())
      ensures Contents() == old(Contents()) - multiset{event}
      ensures forall e :: e in old(Contents()) ==> event.time <= e.time
    {
      hide Heap, HeapDownTo;
      ghost var q0 := events[..size];
      RootFirstOfAll(q0);
      event := events[0];
      assert event in multiset(q0) by { assert q0[0] == event; }
      size := size - 1;
      if size == 0 {
        assert q0 == [event];
        SetEmptyTime();
        NothingIsHeap(events[..size]);
      } else {
        var temp := events[size];
        LastForFirst(q0);
        LastOnTop(q0);
        assert events[..size][0 := temp] == q0[..size][0 := q0[size]];
        Demote(temp);
      }
    }

    /**
      Delivers the events up to a time, which must not be the end of time: just these, each in its turn, and no other
      event leaves the queue.
     */
    method Perform(inTime: Time) returns (delivered: seq<Event<T>>)
      requires Valid() && inTime < MAX_TIME
      modifies `size, events
      ensures Valid()
      ensures multiset(delivered) + Contents() == old(Contents())
      ensures InTimeOrder(delivered)
      ensures forall e :: e in delivered ==> e.time <= inTime
      ensures forall e :: e in Contents() ==> inTime < e.time
      ensures NextTime() > inTime
    {
      hide Heap, Delivering;
      delivered := [];
      ghost var all := Contents();
      NothingDelivered(all, inTime);
      while NextTime() <= inTime
        invariant Valid()
        invariant Delivering(delivered, Contents(), all, inTime)
        decreases size
      {
        ghost var before := Contents();
        var event := Remove();
        Delivers(delivered, before, all, inTime, event);
        delivered := delivered + [event];
      }
      AllDelivered(delivered, Contents(), all, inTime);
      RootFirstOfAll(events[..size]);
    }

    /** The first time is that of an event that no other comes before, or the end of time if there is none. */
    lemma NextTimeIsFirst()
      requires Valid()
      ensures forall e :: e in Contents() ==> NextTime() <= e.time
      ensures if size == 0 then NextTime() == 0x7FFF_FFFF_FFFF_FFFF else exists e :: e in Contents() && e.time == NextTime()
    {
      RootFirstOfAll(events[..size]);
      if size > 0 {
        assert events[..size][0] in Contents();
      }
    }

    /** An empty queue stops `Perform` just when the time asked for is not the end of time; `Flush` asks for that. */
    lemma EmptyStopsUnlessEndOfTime(inTime: Time)
      requires Valid()
      ensures (size == 0 && NextTime() <= inTime) <==> (size == 0 && inTime == MAX_TIME)
    {
    }
  }

  /** A new event on its way up: all that is left to check is whether it comes before its parent. */
  ghost predicate Rising<T>(q0: seq<Event<T>>, e: Event<T>, q: seq<Event<T>>, me: nat) {
    HeapUpTo(q, me) && q[me] == e && multiset(q) == multiset(q0) + multiset{e}
  }

  lemma AddedLast<T>(q0: seq<Event<T>>, e: Event<T>, q: seq<Event<T>>)
    requires Heap(q0) && |q| == |q0| + 1 && q[..|q0|] == q0 && q[|q0|] == e
    ensures Rising(q0, e, q, |q0|)
  {
    assert q == q0 + [e];
    forall i | 0 < i < |q0|
      ensures Above(q, i)
    {
      assert Above(q0, i);
    }
  }

  lemma Rises<T>(q0: seq<Event<T>>, e: Event<T>, q: seq<Event<T>>, me: nat)
    requires Rising(q0, e, q, me) && me > 0 && me < |q| && e.time < q[Parent(me)].time
    ensures Rising(q0, e, Swapped(q, me, Parent(me)), Parent(me))
  {
    hide HeapUpTo;
    assert me < |q| && HeapUpTo(q, me);
    SwapUp(q, me);
    SwapKeepsAll(q, me, Parent(me));
  }

  lemma Risen<T>(q0: seq<Event<T>>, e: Event<T>, q: seq<Event<T>>, me: nat)
    requires Rising(q0, e, q, me) && me < |q| && (me == 0 || q[Parent(me)].time <= e.time)
    ensures Heap(q) && multiset(q) == multiset(q0) + multiset{e}
  {
    SettledUp(q, me);
  }

  lemma NothingIsHeap<T>(q: seq<Event<T>>)
    requires q == []
    ensures Heap(q)
  {
  }

  lemma RootFirstOfAll<T>(q: seq<Event<T>>)
    requires Heap(q)
    ensures forall e :: e in multiset(q) ==> q != [] && q[0].time <= e.time
  {
    forall e | e in multiset(q)
      ensures q != [] && q[0].time <= e.time
    {
      var i :| 0 <= i < |q| && q[i] == e;
      RootIsFirst(q, i);
    }
  }

  /** With the last event in place of the first, only the top can be out of order. */
  lemma LastOnTop<T>(q: seq<Event<T>>)
    requires Heap(q) && |q| > 1
    ensures HeapDownTo(q[..|q| - 1][0 := q[|q| - 1]], 0)
  {
    var r := q[..|q| - 1][0 := q[|q| - 1]];
    forall i | 0 < i < |r| && Parent(i) != 0
      ensures Above(r, i)
    {
      assert Above(q, i);
    }
  }

  lemma IsFirstChild<T>(q: seq<Event<T>>, mom: nat, me: nat)
    requires me < |q| && (me == 2 * mom + 1 || me == 2 * mom + 2)
    requires me == 2 * mom + 1 && me + 1 < |q| ==> q[me].time <= q[me + 1].time
    requires me == 2 * mom + 2 ==> q[me].time <= q[me - 1].time
    ensures FirstChild(q, mom, me)
  {
    Children(q, mom);
  }

  lemma FirstChildSettles<T>(q: seq<Event<T>>, mom: nat, me: nat)
    requires FirstChild(q, mom, me) && mom < |q| && q[mom].time <= q[me].time
    ensures forall i {:trigger Parent(i)} :: 0 < i < |q| && Parent(i) == mom ==> q[mom].time <= q[i].time
  {
  }

  /** Some events have been delivered in time order, before all that are still to come. */
  ghost predicate Delivering<T>(delivered: seq<Event<T>>, left: multiset<Event<T>>, all: multiset<Event<T>>, inTime: Time) {
    && multiset(delivered) + left == all && InTimeOrder(delivered)
    && forall d :: d in delivered ==> d.time <= inTime && forall e :: e in left ==> d.time <= e.time
  }

  lemma NothingDelivered<T>(all: multiset<Event<T>>, inTime: Time)
    ensures Delivering([], all, all, inTime)
  {
  }

  lemma Delivers<T>(delivered: seq<Event<T>>, left: multiset<Event<T>>, all: multiset<Event<T>>, inTime: Time, event: Event<T>)
    requires Delivering(delivered, left, all, inTime) && event in left && event.time <= inTime
    requires forall e :: e in left ==> event.time <= e.time
    ensures Delivering(delivered + [event], left - multiset{event}, all, inTime)
  {
    hide InTimeOrder;
    assert multiset(delivered + [event]) == multiset(delivered) + multiset{event};
    DeliveredLast(delivered, event);
    forall d | d in delivered + [event]
      ensures d.time <= inTime && forall e :: e in left - multiset{event} ==> d.time <= e.time
    {
      if d !in delivered { assert d == event; }
      forall e | e in left - multiset{event} ensures d.time <= e.time { assert e in left; }
    }
  }

  lemma DeliveredLast<T>(delivered: seq<Event<T>>, event: Event<T>)
    requires InTimeOrder(delivered) && forall d :: d in delivered ==> d.time <= event.time
    ensures InTimeOrder(delivered + [event])
  {
  }

  lemma AllDelivered<T>(delivered: seq<Event<T>>, left: multiset<Event<T>>, all: multiset<Event<T>>, inTime: Time)
    requires Delivering(delivered, left, all, inTime)
    ensures multiset(delivered) + left == all && InTimeOrder(delivered)
    ensures forall d :: d in delivered ==> d.time <= inTime
  {
  }
}
