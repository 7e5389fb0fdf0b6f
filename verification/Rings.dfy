/**
  The doubly linked rings that hold allocator bins, areas and everything else the server keeps in a Link.
  A node is an address; the two pointers stored in it are kept in a map from addresses to links.
 */
module Rings {

  type Address = int

  datatype Link = Link(next: Address, prev: Address)

  type Links = map<Address, Link>

  /** The nodes of cyc, in this order and closed on themselves, are linked both ways. */
  ghost predicate Ring(m: Links, cyc: seq<Address>) {
    && |cyc| > 0
    && Distinct(cyc)
    && (forall i :: 0 <= i < |cyc| ==> Linked(m, cyc, i))
  }

  /** The node at position i points to its two neighbours in cyc. */
  ghost predicate Linked(m: Links, cyc: seq<Address>, i: nat)
    requires i < |cyc|
  {
    cyc[i] in m && m[cyc[i]] == Link(cyc[After(cyc, i)], cyc[Before(cyc, i)])
  }

  ghost predicate Distinct(s: seq<Address>) {
    forall i, j :: 0 <= i < j < |s| ==> s[i] != s[j]
  }

  function After(cyc: seq<Address>, i: nat): (j: nat)
    requires i < |cyc|
    ensures j < |cyc|
  {
    if i + 1 < |cyc| then i + 1 else 0
  }

  function Before(cyc: seq<Address>, i: nat): (j: nat)
    requires i < |cyc|
    ensures j < |cyc|
  {
    if i > 0 then i - 1 else |cyc| - 1
  }

  function InsertAt(s: seq<Address>, k: nat, x: Address): seq<Address>
    requires k <= |s|
  {
    s[..k] + [x] + s[k..]
  }

  function RemoveAt(s: seq<Address>, k: nat): seq<Address>
    requires k < |s|
  {
    s[..k] + s[k + 1..]
  }

  // ---- what the pointer surgery does to the map ----

  /** x is spliced in between the nodes p and n. */
  function Spliced(m: Links, x: Address, p: Address, n: Address): (m': Links)
    requires p in m && n in m
  {
    var m1 := m[x := Link(n, p)];
    var m2 := m1[n := m1[n].(prev := x)];
    m2[p := m2[p].(next := x)]
  }

  /** The neighbours of x skip over it; the pointers inside x are left dangling. */
  function Bypassed(m: Links, x: Address): (m': Links)
    requires x in m && m[x].prev in m && m[x].next in m
  {
    var m1 := m[m[x].prev := m[m[x].prev].(next := m[x].next)];
    m1[m1[x].next := m1[m1[x].next].(prev := m1[x].prev)]
  }

  /** Splicing x in before position k (or at the end, when k is the length) inserts it into the ring. */
  lemma SpliceRing(m: Links, cyc: seq<Address>, k: nat, x: Address)
    requires Ring(m, cyc) && 1 <= k <= |cyc| && x !in cyc
    ensures var n := if k == |cyc| then 0 else k;
            && cyc[k - 1] in m && cyc[n] in m
            && m[cyc[k - 1]].next == cyc[n] && m[cyc[n]].prev == cyc[k - 1]
            && Ring(Spliced(m, x, cyc[k - 1], cyc[n]), InsertAt(cyc, k, x))
  {
    hide Spliced, InsertAt;
    var n := if k == |cyc| then 0 else k;
    assert Linked(m, cyc, k - 1) && Linked(m, cyc, n);
    var m', c' := Spliced(m, x, cyc[k - 1], cyc[n]), InsertAt(cyc, k, x);
    InsertDistinct(cyc, k, x);
    forall i | 0 <= i < |c'| ensures Linked(m', c', i) {
      if i == k {
        SplicedHere(m, x, cyc[k - 1], cyc[n]);
        InsertBetween(cyc, k, x);
      } else {
        SpliceNode(m, cyc, k, x, if i < k then i else i - 1);
      }
    }
  }

  lemma SpliceNode(m: Links, cyc: seq<Address>, k: nat, x: Address, l: nat)
    requires Ring(m, cyc) && 1 <= k <= |cyc| && x !in cyc && l < |cyc|
    requires m.Keys >= {cyc[k - 1], cyc[if k == |cyc| then 0 else k]}
    ensures var n := if k == |cyc| then 0 else k;
            var l' := if l < k then l else l + 1;
            && l' < |InsertAt(cyc, k, x)|
            && Linked(Spliced(m, x, cyc[k - 1], cyc[n]), InsertAt(cyc, k, x), l')
  {
    hide Spliced, InsertAt;
    assert Linked(m, cyc, l);
    InsertNeighbours(cyc, k, x, l);
    SplicedElsewhere(m, x, cyc[k - 1], cyc[if k == |cyc| then 0 else k], cyc[l]);
  }

  lemma SplicedHere(m: Links, x: Address, p: Address, n: Address)
    requires p in m && n in m && x != p && x != n
    ensures x in Spliced(m, x, p, n) && Spliced(m, x, p, n)[x] == Link(n, p)
  {
  }

  lemma SplicedElsewhere(m: Links, x: Address, p: Address, n: Address, y: Address)
    requires p in m && n in m && y in m && y != x
    ensures y in Spliced(m, x, p, n)
    ensures Spliced(m, x, p, n)[y] == Link(if y == p then x else m[y].next, if y == n then x else m[y].prev)
  {
  }

  lemma InsertDistinct(s: seq<Address>, k: nat, x: Address)
    requires Distinct(s) && x !in s && k <= |s|
    ensures Distinct(InsertAt(s, k, x)) && |InsertAt(s, k, x)| == |s| + 1
  {
  }

  lemma InsertBetween(s: seq<Address>, k: nat, x: Address)
    requires 1 <= k <= |s|
    ensures var s' := InsertAt(s, k, x);
            && |s'| == |s| + 1 && s'[k] == x
            && s'[Before(s', k)] == s[k - 1] && s'[After(s', k)] == s[if k == |s| then 0 else k]
  {
  }

  /** The neighbours of another node are what they were, except for the new node. */
  lemma InsertNeighbours(s: seq<Address>, k: nat, x: Address, l: nat)
    requires Distinct(s) && 1 <= k <= |s| && l < |s|
    ensures var s' := InsertAt(s, k, x);
            var l' := if l < k then l else l + 1;
            && |s'| == |s| + 1 && s'[l'] == s[l]
            && s'[After(s', l')] == (if s[l] == s[k - 1] then x else s[After(s, l)])
            && s'[Before(s', l')] == (if s[l] == s[if k == |s| then 0 else k] then x else s[Before(s, l)])
  {
  }

  /** Bypassing the node at position k takes exactly that node out of the ring. */
  lemma BypassRing(m: Links, cyc: seq<Address>, k: nat)
    requires Ring(m, cyc) && k < |cyc| && |cyc| > 1
    ensures cyc[k] in m && m[cyc[k]].prev in m && m[cyc[k]].next in m
    ensures Ring(Bypassed(m, cyc[k]), RemoveAt(cyc, k))
  {
    hide Bypassed, RemoveAt;
    var p, n := Before(cyc, k), After(cyc, k);
    assert Linked(m, cyc, k) && Linked(m, cyc, p) && Linked(m, cyc, n);
    var m', c' := Bypassed(m, cyc[k]), RemoveAt(cyc, k);
    RemoveDistinct(cyc, k);
    forall i | 0 <= i < |c'| ensures Linked(m', c', i) {
      BypassNode(m, cyc, k, if i < k then i else i + 1);
    }
  }

  lemma BypassNode(m: Links, cyc: seq<Address>, k: nat, l: nat)
    requires Ring(m, cyc) && k < |cyc| && |cyc| > 1 && l < |cyc| && l != k
    requires m.Keys >= {cyc[k], cyc[Before(cyc, k)], cyc[After(cyc, k)]}
    requires m[cyc[k]] == Link(cyc[After(cyc, k)], cyc[Before(cyc, k)])
    ensures var l' := if l < k then l else l - 1;
            l' < |RemoveAt(cyc, k)| && Linked(Bypassed(m, cyc[k]), RemoveAt(cyc, k), l')
  {
    hide Bypassed, RemoveAt;
    assert Linked(m, cyc, l);
    RemoveNeighbours(cyc, k, l);
    BypassedElsewhere(m, cyc[k], cyc[l]);
  }

  lemma BypassedElsewhere(m: Links, x: Address, y: Address)
    requires x in m && m[x].prev in m && m[x].next in m && y in m
    requires x != y && x != m[x].prev && x != m[x].next
    ensures y in Bypassed(m, x)
    ensures Bypassed(m, x)[y] == Link(if y == m[x].prev then m[x].next else m[y].next,
                                      if y == m[x].next then m[x].prev else m[y].prev)
  {
  }

  lemma RemoveDistinct(s: seq<Address>, k: nat)
    requires Distinct(s) && k < |s|
    ensures Distinct(RemoveAt(s, k)) && |RemoveAt(s, k)| == |s| - 1
  {
  }

  /** The neighbours of another node are what they were, except that the missing node is skipped. */
  lemma RemoveNeighbours(s: seq<Address>, k: nat, l: nat)
    requires Distinct(s) && k < |s| && l < |s| && l != k
    ensures var s' := RemoveAt(s, k);
            var l' := if l < k then l else l - 1;
            && |s'| == |s| - 1 && s'[l'] == s[l] && s[Before(s, k)] != s[k] && s[After(s, k)] != s[k]
            && s'[After(s', l')] == (if s[l] == s[Before(s, k)] then s[After(s, k)] else s[After(s, l)])
            && s'[Before(s', l')] == (if s[l] == s[After(s, k)] then s[Before(s, k)] else s[Before(s, l)])
  {
  }

  /** A ring may be entered at any of its nodes. */
  lemma RotateRing(m: Links, cyc: seq<Address>, k: nat)
    requires Ring(m, cyc) && k < |cyc|
    ensures Ring(m, cyc[k..] + cyc[..k])
  {
    var c' := cyc[k..] + cyc[..k];
    forall i | 0 <= i < |c'| ensures Linked(m, c', i) {
      assert Linked(m, cyc, if i < |cyc| - k then i + k else i - (|cyc| - k));
    }
  }

  /** A ring only depends on the links of its own nodes. */
  lemma RingFrame(m: Links, m': Links, cyc: seq<Address>)
    requires Ring(m, cyc)
    requires forall x :: x in cyc ==> x in m' && (x in m ==> m'[x] == m[x])
    ensures Ring(m', cyc)
  {
    forall i | 0 <= i < |cyc| ensures Linked(m', cyc, i) {
      assert Linked(m, cyc, i) && cyc[i] in cyc;
    }
  }

  /** The pointers determine the order: two readings of a ring from the same node agree. */
  lemma {:induction false} RingUnique(m: Links, a: seq<Address>, b: seq<Address>, n: nat)
    requires Ring(m, a) && Ring(m, b) && a[0] == b[0]
    requires n < |a| && n < |b|
    ensures a[n] == b[n]
  {
    if n > 0 {
      RingUnique(m, a, b, n - 1);
      assert Linked(m, a, n - 1) && Linked(m, b, n - 1);
    }
  }

  /** Memory holding links, with the operations of Link on it. */
  class LinkMemory {
    var at: Links

    constructor ()
      ensures at == map[]
    {
      at := map[];
    }

    method BeEmpty(x: Address)
      modifies this
      ensures at == old(at)[x := Link(x, x)] && Ring(at, [x])
    {
      at := at[x := Link(x, x)];
    }

    method IsEmpty(x: Address) returns (empty: bool)
      requires x in at
      ensures empty <==> at[x].next == x
      ensures forall cyc :: Ring(at, cyc) && cyc[0] == x ==> (empty <==> |cyc| == 1)
    {
      empty := at[x].next == x;
      forall cyc | Ring(at, cyc) && cyc[0] == x ensures empty <==> |cyc| == 1 {
        assert Linked(at, cyc, 0);
      }
    }

    method RemoveLeaveDangling(x: Address)
      requires x in at && at[x].prev in at && at[x].next in at
      modifies this
      ensures at == Bypassed(old(at), x)
    {
      at := at[at[x].prev := at[at[x].prev].(next := at[x].next)];
      at := at[at[x].next := at[at[x].next].(prev := at[x].prev)];
    }

    method InsertAfter(x: Address, link: Address)
      requires link in at && at[link].next in at && x != link
      modifies this
      ensures at == Spliced(old(at), x, link, old(at)[link].next)
    {
      var next := at[link].next;
      at := at[x := Link(next, link)];
      at := at[at[x].next := at[at[x].next].(prev := x)];
      at := at[at[x].prev := at[at[x].prev].(next := x)];
    }

    method InsertBefore(x: Address, link: Address)
      requires link in at && at[link].prev in at && x != link
      modifies this
      ensures at == Spliced(old(at), x, old(at)[link].prev, link)
    {
      var prev := at[link].prev;
      at := at[x := Link(link, prev)];
      at := at[at[x].next := at[at[x].next].(prev := x)];
      at := at[at[x].prev := at[at[x].prev].(next := x)];
    }

    /** Moves all the nodes of one list, in their order, to the end of another. */
    method Cat(x: Address, link: Address, ghost a: seq<Address>, ghost b: seq<Address>)
      requires Ring(at, [x] + a) && Ring(at, [link] + b)
      requires forall y :: y in [x] + a ==> y !in [link] + b
      modifies this
      ensures Ring(at, [x] + a + b) && Ring(at, [link])
      ensures b == [] ==> at == old(at)
      ensures b != [] ==> HasList(old(at), x) && HasList(old(at), link) && at == Catted(old(at), x, link)
    {
      hide Ring;
      ghost var m := at;
      ListHead(m, [x] + a);
      ListHead(m, [link] + b);
      assert b == [] ==> [x] + a + b == [x] + a && [link] + b == [link];
      if at[link].next != link {
        CatRing(m, [x] + a, [link] + b);
        assert x in [x] + a && link in [link] + b;
        assert [x] + a + ([link] + b)[1..] == [x] + a + b;
        if at[x].next == x {
          at := at[x := Link(at[link].next, at[link].prev)];
          at := at[at[link].next := at[at[link].next].(prev := x)];
          at := at[at[link].prev := at[at[link].prev].(next := x)];
        } else {
          at := at[at[link].next := at[at[link].next].(prev := at[x].prev)];
          at := at[at[link].prev := at[at[link].prev].(next := x)];
          at := at[at[x].prev := at[at[x].prev].(next := at[link].next)];
          at := at[x := at[x].(prev := at[link].prev)];
        }
        at := at[link := Link(link, link)];
        assert at == Catted(m, x, link);
      }
    }
  }

  ghost predicate HasList(m: Links, x: Address) { x in m && m[x].next in m && m[x].prev in m }

  /** The list of `link` put at the end of the list of `x`. */
  ghost function Catted(m: Links, x: Address, link: Address): Links
    requires HasList(m, x) && HasList(m, link)
  {
    var first, last, tail := m[link].next, m[link].prev, m[x].prev;
    var m1 := m[first := m[first].(prev := tail)];
    var m2 := m1[last := m1[last].(next := x)];
    var m3 := m2[tail := m2[tail].(next := first)];
    var m4 := m3[x := m3[x].(prev := last)];
    m4[link := Link(link, link)]
  }

  /** The first node of a ring knows the second and the last, and points to itself just when there are no others. */
  lemma ListHead(m: Links, c: seq<Address>)
    requires Ring(m, c)
    ensures HasList(m, c[0]) && m[c[0]].prev == c[|c| - 1] && m[c[0]].next == c[After(c, 0)]
    ensures (m[c[0]].next == c[0] <==> |c| == 1) && (m[c[0]].prev == c[0] <==> |c| == 1)
    ensures m[c[0]].next in c && m[c[0]].prev in c
  {
    assert Linked(m, c, 0) && Linked(m, c, |c| - 1) && Linked(m, c, After(c, 0));
  }

  lemma CatRing(m: Links, c: seq<Address>, d: seq<Address>)
    requires Ring(m, c) && Ring(m, d) && |d| > 1 && (forall y :: y in c ==> y !in d)
    ensures HasList(m, c[0]) && HasList(m, d[0])
    ensures Ring(Catted(m, c[0], d[0]), c + d[1..]) && Ring(Catted(m, c[0], d[0]), [d[0]])
  {
    ListHead(m, c);
    ListHead(m, d);
    var r, m' := c + d[1..], Catted(m, c[0], d[0]);
    forall i, j | 0 <= i < j < |r|
      ensures r[i] != r[j]
    {
      if i < |c| <= j { assert r[i] in c && r[j] in d; }
    }
    forall i | 0 <= i < |r|
      ensures Linked(m', r, i)
    {
      if i < |c| { CatFront(m, c, d, i); } else { CatBack(m, c, d, i - |c| + 1); }
    }
    assert Linked(m', [d[0]], 0);
  }

  lemma CatFront(m: Links, c: seq<Address>, d: seq<Address>, i: nat)
    requires Ring(m, c) && Ring(m, d) && |d| > 1 && (forall y :: y in c ==> y !in d) && i < |c|
    requires HasList(m, c[0]) && HasList(m, d[0])
    ensures Linked(Catted(m, c[0], d[0]), c + d[1..], i)
  {
    ListHead(m, c);
    ListHead(m, d);
    assert Linked(m, c, i);
    assert c[i] in c && d[0] in d && d[1] in d && d[|d| - 1] in d;
    assert i > 0 ==> c[i] != c[0];
    assert i < |c| - 1 ==> c[i] != c[|c| - 1];
  }

  lemma CatBack(m: Links, c: seq<Address>, d: seq<Address>, i: nat)
    requires Ring(m, c) && Ring(m, d) && |d| > 1 && (forall y :: y in c ==> y !in d) && 1 <= i < |d|
    requires HasList(m, c[0]) && HasList(m, d[0])
    ensures Linked(Catted(m, c[0], d[0]), c + d[1..], i - 1 + |c|)
  {
    ListHead(m, c);
    ListHead(m, d);
    assert Linked(m, d, i);
    assert d[i] in d && c[0] in c && c[|c| - 1] in c;
    assert i > 1 ==> d[i] != d[1];
    assert i < |d| - 1 ==> d[i] != d[|d| - 1];
  }
}
