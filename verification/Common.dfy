/** Shared by the models of all parts. */
module Common {
  datatype Option<T> = None | Some(value: T)

  const TWO32: nat := 0x1_0000_0000  // unsigned ints wrap here

  lemma SubsetSmaller<T>(a: set<T>, b: set<T>)
    requires a <= b
    ensures |a| <= |b|
  {
    assert b == a + (b - a);
  }

  lemma ProperSmaller<T>(a: set<T>, b: set<T>)
    requires a <= b && a != b
    ensures |a| < |b|
  {
    assert b == a + (b - a);
  }

  lemma OneMore<T>(s: set<T>, x: T)
    ensures |s + {x}| == if x in s then |s| else |s| + 1
  {
    if x in s {
      assert s + {x} == s;
    }
  }

  /** The numbers from lo to before lo + n. */
  ghost function Span(lo: nat, n: nat): (s: set<int>)
    ensures |s| == n && forall x :: x in s <==> lo <= x < lo + n
  {
    if n == 0 then {} else Span(lo, n - 1) + {lo + n - 1}
  }

  lemma {:induction false} ElementsFit<T>(s: set<T>, xs: seq<T>)
    requires forall x :: x in s ==> x in xs
    ensures |s| <= |xs|
  {
    if xs == [] {
      assert s == {};
    } else {
      var last, rest := xs[|xs| - 1], xs[..|xs| - 1];
      ElementsFit(s - {last}, rest);
      SubsetSmaller(s, (s - {last}) + {last});
    }
  }

  lemma MapMinusOne<K, V>(m: map<K, V>, k: K)
    requires k in m
    ensures |m - {k}| == |m| - 1
  {
    assert m.Keys == (m - {k}).Keys + {k};
  }

  /** c' is c without element k. */
  ghost predicate Without<T>(c: seq<T>, c': seq<T>, k: nat) {
    && k < |c| && |c'| == |c| - 1
    && (forall j :: 0 <= j < k ==> c'[j] == c[j])
    && (forall j :: k <= j < |c'| ==> c'[j] == c[j + 1])
  }

  /** c' is c with x inserted behind element k. */
  ghost predicate With<T>(c: seq<T>, c': seq<T>, k: nat, x: T) {
    && k < |c| && |c'| == |c| + 1
    && (forall j :: 0 <= j <= k ==> c'[j] == c[j])
    && c'[k + 1] == x
    && (forall j :: k + 1 < j < |c'| ==> c'[j] == c[j - 1])
  }

  lemma WithoutConcat<T>(c: seq<T>, k: nat)
    requires k < |c|
    ensures Without(c, c[..k] + c[k + 1..], k)
  {
  }

  lemma WithConcat<T>(c: seq<T>, k: nat, x: T)
    requires k < |c|
    ensures With(c, c[..k + 1] + [x] + c[k + 1..], k, x)
  {
  }
}
