/** Circular doubly linked lists threaded through an array by index, as bio.c and
    lru_swap.c use them: what unlinking and linking do to the cycle of elements. */
module Ring {
  import opened Common

  datatype Links = Links(next: seq<nat>, prev: seq<nat>)

  ghost function Succ(n: nat, i: nat): nat {
    if i + 1 < n then i + 1 else 0
  }

  ghost predicate Distinct(c: seq<nat>) {
    forall i, j :: 0 <= i < j < |c| ==> c[i] != c[j]
  }

  /** Going round by next, and back by prev, from c[0] visits exactly c. */
  ghost predicate IsRing(l: Links, c: seq<nat>) {
    && |c| > 0 && |l.next| == |l.prev| && Distinct(c)
    && (forall i :: 0 <= i < |c| ==> c[i] < |l.next|)
    && (forall i {:trigger l.next[c[i]]} :: 0 <= i < |c| ==> l.next[c[i]] == c[Succ(|c|, i)])
    && (forall i {:trigger l.next[c[i]]} :: 0 <= i < |c| ==> l.prev[l.next[c[i]]] == c[i])
  }

  function Unlinked(l: Links, x: nat): Links
    requires |l.next| == |l.prev| && x < |l.next| && l.next[x] < |l.next| && l.prev[x] < |l.next|
  {
    Links(l.next[l.prev[x] := l.next[x]], l.prev[l.next[x] := l.prev[x]])
  }

  function LinkedBehind(l: Links, p: nat, x: nat): Links
    requires |l.next| == |l.prev| && p < |l.next| && x < |l.next| && l.next[p] < |l.next|
  {
    Links(l.next[x := l.next[p]][p := x], l.prev[x := p][l.next[p] := x])
  }

  lemma UnlinkedSize(l: Links, x: nat)
    requires |l.next| == |l.prev| && x < |l.next| && l.next[x] < |l.next| && l.prev[x] < |l.next|
    ensures |Unlinked(l, x).next| == |Unlinked(l, x).prev| == |l.next|
  {
  }

  lemma LinkedBehindSize(l: Links, p: nat, x: nat)
    requires |l.next| == |l.prev| && p < |l.next| && x < |l.next| && l.next[p] < |l.next|
    ensures |LinkedBehind(l, p, x).next| == |LinkedBehind(l, p, x).prev| == |l.next|
  {
  }

  lemma RingAt(l: Links, c: seq<nat>, i: nat)
    requires IsRing(l, c) && i < |c|
    ensures |l.prev| == |l.next| && c[i] < |l.next| && l.next[c[i]] == c[Succ(|c|, i)]
    ensures l.prev[c[Succ(|c|, i)]] == c[i]
  {
    assert l.next[c[i]] == c[Succ(|c|, i)];
  }

  /** The predecessor of element k is element k - 1, or the last one. */
  lemma RingPrev(l: Links, c: seq<nat>, k: nat)
    requires IsRing(l, c) && k < |c|
    ensures c[k] < |l.prev| && l.prev[c[k]] == c[if k == 0 then |c| - 1 else k - 1]
  {
    RingAt(l, c, if k == 0 then |c| - 1 else k - 1);
  }

  lemma UnlinkAt(l: Links, c: seq<nat>, c': seq<nat>, k: nat, j: nat)
    requires IsRing(l, c) && |c| > 1 && Without(c, c', k) && j < |c'|
    requires l.next[c[k]] < |l.next| && l.prev[c[k]] < |l.next|
    ensures var l' := Unlinked(l, c[k]);
            && c'[j] < |l'.next| && l'.next[c'[j]] == c'[Succ(|c'|, j)] && c'[Succ(|c'|, j)] < |l'.next|
            && l'.prev[c'[Succ(|c'|, j)]] == c'[j]
  {
    hide IsRing;
    var i := if j < k then j else j + 1;
    RingAt(l, c, i);
    RingAt(l, c, Succ(|c|, i));
    RingAt(l, c, k);
    RingPrev(l, c, k);
    RingDistinct(l, c, i, if k == 0 then |c| - 1 else k - 1);
    RingDistinct(l, c, i, k);
    RingDistinct(l, c, Succ(|c|, i), Succ(|c|, k));
    assert c'[Succ(|c'|, j)] == if Succ(|c|, i) == k then c[Succ(|c|, k)] else c[Succ(|c|, i)];
  }

  lemma RingDistinct(l: Links, c: seq<nat>, i: nat, j: nat)
    requires IsRing(l, c) && i < |c| && j < |c|
    ensures c[i] == c[j] <==> i == j
  {
  }

  lemma UnlinkKeepsRing(l: Links, c: seq<nat>, c': seq<nat>, k: nat)
    requires IsRing(l, c) && |c| > 1 && Without(c, c', k)
    ensures l.next[c[k]] < |l.next| && l.prev[c[k]] < |l.next|
    ensures IsRing(Unlinked(l, c[k]), c')
  {
    RingAt(l, c, k);
    RingPrev(l, c, k);
    forall j | 0 <= j < |c'|
      ensures var l' := Unlinked(l, c[k]);
              && c'[j] < |l'.next| && l'.next[c'[j]] == c'[Succ(|c'|, j)] && c'[Succ(|c'|, j)] < |l'.next|
              && l'.prev[c'[Succ(|c'|, j)]] == c'[j]
    {
      UnlinkAt(l, c, c', k, j);
    }
  }

  lemma LinkAt(l: Links, c: seq<nat>, c': seq<nat>, k: nat, x: nat, j: nat)
    requires IsRing(l, c) && With(c, c', k, x) && x < |l.next| && x !in c && j < |c'|
    requires l.next[c[k]] < |l.next|
    ensures var l' := LinkedBehind(l, c[k], x);
            && c'[j] < |l'.next| && l'.next[c'[j]] == c'[Succ(|c'|, j)] && c'[Succ(|c'|, j)] < |l'.next|
            && l'.prev[c'[Succ(|c'|, j)]] == c'[j]
  {
    hide IsRing;
    var i := if j <= k then j else j - 1;
    RingAt(l, c, i);
    RingAt(l, c, Succ(|c|, i));
    RingAt(l, c, k);
    RingDistinct(l, c, i, k);
    RingDistinct(l, c, Succ(|c|, i), Succ(|c|, k));
    assert c'[Succ(|c'|, j)] == if j == k then x else c[Succ(|c|, i)];
    assert c[Succ(|c|, i)] != x;
  }

  lemma LinkKeepsRing(l: Links, c: seq<nat>, c': seq<nat>, k: nat, x: nat)
    requires IsRing(l, c) && With(c, c', k, x) && x < |l.next| && x !in c
    ensures c[k] < |l.next| && l.next[c[k]] < |l.next|
    ensures IsRing(LinkedBehind(l, c[k], x), c')
  {
    RingAt(l, c, k);
    forall j | 0 <= j < |c'|
      ensures var l' := LinkedBehind(l, c[k], x);
              && c'[j] < |l'.next| && l'.next[c'[j]] == c'[Succ(|c'|, j)] && c'[Succ(|c'|, j)] < |l'.next|
              && l'.prev[c'[Succ(|c'|, j)]] == c'[j]
    {
      LinkAt(l, c, c', k, x, j);
    }
    forall i, j | 0 <= i < j < |c'|
      ensures c'[i] != c'[j]
    {
      var i', j' := if i <= k then i else i - 1, if j <= k then j else j - 1;
      assert c[i'] in c && c[j'] in c;
    }
  }

  /** What follows element k in a list that ends, -1 standing for the end. */
  ghost function Next(l: seq<nat>, k: nat): int {
    if k + 1 < |l| then l[k + 1] else -1
  }

  // ----- counting -----

  ghost function Elems(o: seq<nat>): set<nat> {
    set x | x in o
  }

  ghost function Below(n: nat): (s: set<nat>)
    ensures |s| == n && forall x: nat :: x in s <==> x < n
  {
    if n == 0 then {} else Below(n - 1) + {n - 1}
  }

  lemma {:induction false} DistinctSize(o: seq<nat>)
    requires Distinct(o)
    ensures |Elems(o)| == |o|
  {
    if o == [] {
    } else {
      var o', x := o[..|o| - 1], o[|o| - 1];
      DistinctSize(o');
      assert o == o' + [x];
      assert Elems(o) == Elems(o') + {x};
      assert x !in Elems(o');
    }
  }

  /** n distinct numbers below n include each number below n. */
  lemma Pigeonhole(o: seq<nat>, n: nat, i: nat)
    requires |o| == n && i < n && (forall k :: 0 <= k < n ==> o[k] < n) && Distinct(o)
    ensures i in o
  {
    DistinctSize(o);
    if i !in Elems(o) {
      SubsetSmaller(Elems(o), Below(n) - {i});
    }
  }
}
