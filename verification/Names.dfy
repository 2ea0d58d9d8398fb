/** Names in paths and directory entries: string.c's strncmp() and strncpy(), and fs.c's
    skipelem(). A C string is the bytes from its pointer on, as far as they are known; it ends
    at the first NUL. */
module Names {
  import opened Common
  import opened Blocks

  const DIRSIZ: nat := 14
  const SLASH: byte := 47

  type Bytestring = seq<byte>

  /** At least n bytes, or a NUL among the first n, can be read. */
  predicate Readable(s: Bytestring, n: nat) {
    |s| >= n || 0 in s
  }

  /** The bytes before the first NUL, but at most n: what counts as the name. */
  function Upto(s: Bytestring, n: nat): (r: Bytestring)
    ensures |r| <= n && |r| <= |s| && r == s[..|r|] && 0 !in r
    ensures |r| < n && |r| < |s| ==> s[|r|] == 0
  {
    if n == 0 || s == [] || s[0] == 0 then [] else [s[0]] + Upto(s[1..], n - 1)
  }

  /** These properties leave no other choice. */
  lemma {:induction false} UptoUnique(s: Bytestring, n: nat, r: Bytestring)
    requires |r| <= n && |r| <= |s| && r == s[..|r|] && 0 !in r
    requires |r| == n || |r| == |s| || s[|r|] == 0
    ensures r == Upto(s, n)
  {
    if r == [] {
    } else {
      assert r[0] in r && r[0] == s[0];
      assert r[1..] == s[1..][..|r| - 1];
      UptoUnique(s[1..], n - 1, r[1..]);
    }
  }

  lemma {:induction false} UptoOther(s: Bytestring, t: Bytestring, n: nat, k: nat)
    requires k < n && k < |s| && k < |t| && s[..k] == t[..k] && 0 !in s[..k] && s[k] != t[k]
    ensures Upto(s, n) != Upto(t, n)
  {
    if k == 0 {
    } else {
      assert s[0] == s[..k][0] && t[0] == t[..k][0];
      assert s[1..][..k - 1] == s[..k][1..] && t[1..][..k - 1] == t[..k][1..];
      UptoOther(s[1..], t[1..], n - 1, k - 1);
    }
  }

  /** strncmp(): zero exactly for equal names. */
  method Strncmp(p: Bytestring, q: Bytestring, n: nat) returns (r: int)
    requires Readable(p, n) && Readable(q, n)
    ensures r == 0 <==> Upto(p, n) == Upto(q, n)
  {
    hide Upto;
    var k := 0;
    InReach(p, q, n, k);
    while k < n && p[k] != 0 && p[k] == q[k]
      invariant k <= n && k <= |p| && k <= |q| && p[..k] == q[..k] && 0 !in p[..k]
      invariant k < n ==> k < |p| && k < |q|
    {
      k := k + 1;
      assert p[..k] == p[..k - 1] + [p[k - 1]] && q[..k] == q[..k - 1] + [q[k - 1]];
      InReach(p, q, n, k);
    }
    if k == n {
      UptoUnique(p, n, p[..k]);
      UptoUnique(q, n, q[..k]);
      return 0;
    }
    var a: int, b: int := p[k], q[k];
    r := a - b;
    if r == 0 {
      UptoUnique(p, n, p[..k]);
      UptoUnique(q, n, q[..k]);
    } else {
      UptoOther(p, q, n, k);
    }
  }

  /** While no NUL was met there is a next byte. */
  lemma InReach(p: Bytestring, q: Bytestring, n: nat, k: nat)
    requires Readable(p, n) && Readable(q, n) && k <= |p| && k <= |q| && p[..k] == q[..k] && 0 !in p[..k]
    ensures k < n ==> k < |p| && k < |q|
  {
    assert p[..k] == p || k < |p|;
    assert q[..k] == q || k < |q|;
  }

  function Padded(s: Bytestring, n: nat): (r: Bytestring)
    requires |s| <= n
    ensures |r| == n
  {
    s + seq(n - |s|, _ => 0)
  }

  /** strncpy(): the name, filled up with NULs. */
  method Strncpy(t: Bytestring, n: nat) returns (s: Bytestring)
    requires Readable(t, n)
    ensures s == Padded(Upto(t, n), n)
  {
    hide Upto;
    s := [];
    var k := 0;
    var more := true;
    while k < n && more
      invariant k <= n && |s| == k && (more ==> k <= |t| && s == t[..k] && 0 !in s && (k < n ==> k < |t|))
      invariant !more ==> 0 < k <= |t| && s == t[..k] && t[k - 1] == 0 && 0 !in t[..k - 1]
      decreases n - k, more
    {
      CanRead(t, n, k);
      s := s + [t[k]];
      more := t[k] != 0;
      k := k + 1;
      if more && k < n {
        CanRead(t, n, k);
      }
    }
    ghost var name := if more then t[..k] else t[..k - 1];
    UptoUnique(t, n, name);
    while k < n
      invariant |name| <= |s| == k <= n && s[..|name|] == name && forall j :: |name| <= j < k ==> s[j] == 0
    {
      s := s + [0];
      k := k + 1;
    }
    assert s == Padded(name, n);
  }

  lemma CanRead(t: Bytestring, n: nat, k: nat)
    requires Readable(t, n) && k < n && k <= |t| && 0 !in t[..k]
    ensures k < |t|
  {
    assert t[..k] == t || k < |t|;
  }

  /** What strncpy() writes reads back as the name. */
  lemma PaddedName(s: Bytestring, n: nat)
    requires |s| <= n && 0 !in s
    ensures Upto(Padded(s, n), n) == s
  {
    UptoUnique(Padded(s, n), n, s);
  }

  // ----- paths -----

  /** The length of the first path element of a path that starts with one. */
  function ElemLength(path: Bytestring): (k: nat)
    ensures k <= |path| && SLASH !in path[..k] && (k < |path| ==> path[k] == SLASH)
    ensures path != [] && path[0] != SLASH ==> k > 0
  {
    if path == [] || path[0] == SLASH then 0 else 1 + ElemLength(path[1..])
  }

  /** The non-empty elements between slashes. */
  function Components(path: Bytestring): (r: seq<Bytestring>)
    ensures forall k :: 0 <= k < |r| ==> r[k] != [] && SLASH !in r[k]
    decreases |path|
  {
    if path == [] then []
    else if path[0] == SLASH then Components(path[1..])
    else [path[..ElemLength(path)]] + Components(path[ElemLength(path)..])
  }

  lemma {:induction false} ElemLengthUnique(path: Bytestring, k: nat)
    requires k <= |path| && SLASH !in path[..k] && (k == |path| || path[k] == SLASH)
    ensures ElemLength(path) == k
  {
    if k == 0 {
    } else {
      assert path[0] == path[..k][0];
      assert path[1..][..k - 1] == path[..k][1..];
      ElemLengthUnique(path[1..], k - 1);
    }
  }

  /** A slash separates: with SingleComponent and the empty path this says what the
      components of any path are. */
  lemma {:induction false} ComponentsSlash(a: Bytestring, b: Bytestring)
    ensures Components(a + [SLASH] + b) == Components(a) + Components(b)
    decreases |a|
  {
    var p := a + [SLASH] + b;
    if a == [] {
      assert p[0] == SLASH && p[1..] == b;
    } else if a[0] == SLASH {
      ComponentsSlash(a[1..], b);
      assert p[1..] == a[1..] + [SLASH] + b;
    } else {
      var k := ElemLength(a);
      assert p[..k] == a[..k];
      ElemLengthUnique(p, k);
      ComponentsSlash(a[k..], b);
      assert p[k..] == a[k..] + [SLASH] + b;
    }
  }

  lemma SingleComponent(c: Bytestring)
    requires c != [] && SLASH !in c
    ensures Components(c) == [c]
  {
    assert c[..|c|] == c && c[|c|..] == [] && c[0] in c;
    ElemLengthUnique(c, |c|);
  }

  lemma {:induction false} LeadingSlashes(path: Bytestring, k: nat)
    requires k <= |path| && forall j :: 0 <= j < k ==> path[j] == SLASH
    ensures Components(path) == Components(path[k..])
  {
    if k == 0 {
      assert path[0..] == path;
    } else {
      LeadingSlashes(path[1..], k - 1);
      assert path[1..][k - 1..] == path[k..];
    }
  }

  /** skipelem(): the name in the 14-byte buffer is the first component, cut to DIRSIZ, and
      the path returned has the others; null when there is none. */
  method Skipelem(path: Bytestring, name: Bytestring) returns (rest: Option<Bytestring>, name': Bytestring)
    requires 0 !in path && |name| == DIRSIZ
    ensures |name'| == DIRSIZ
    ensures rest.None? <==> Components(path) == []
    ensures rest.None? ==> name' == name
    ensures rest.Some? ==>
              && Upto(name', DIRSIZ) == Cut(Components(path)[0]) && Components(rest.value) == Components(path)[1..]
              && |rest.value| < |path| && 0 !in rest.value && (rest.value != [] ==> rest.value[0] != SLASH)
  {
    hide Components, ElemLength, Upto;
    var s := SkipSlashes(path, 0);
    assert path[0..] == path;
    if s == |path| {
      NoComponents(path[s..]);
      return None, name;
    }
    var e := SkipOthers(path, s);
    var len := e - s;
    if len >= DIRSIZ {
      name' := path[s..s + DIRSIZ];
    } else {
      name' := path[s..e] + [0] + name[len + 1..];
    }
    CutName(path[s..e], name');
    var i := SkipSlashes(path, e);
    rest := Some(path[i..]);
  }

  /** The loop over slashes. */
  method SkipSlashes(path: Bytestring, start: nat) returns (i: nat)
    requires start <= |path|
    ensures start <= i <= |path| && (i < |path| ==> path[i] != SLASH)
    ensures Components(path[start..]) == Components(path[i..])
  {
    hide Components;
    i := start;
    while i < |path| && path[i] == SLASH
      invariant start <= i <= |path| && forall j :: start <= j < i ==> path[j] == SLASH
    {
      i := i + 1;
    }
    LeadingSlashes(path[start..], i - start);
    assert path[start..][i - start..] == path[i..];
  }

  /** The loop over the bytes of an element. */
  method SkipOthers(path: Bytestring, start: nat) returns (i: nat)
    requires start < |path| && path[start] != SLASH
    ensures start < i <= |path|
    ensures Components(path[start..]) == [path[start..i]] + Components(path[i..])
  {
    hide Components;
    i := start;
    while i < |path| && path[i] != SLASH
      invariant start <= i <= |path| && forall j :: start <= j < i ==> path[j] != SLASH
    {
      i := i + 1;
    }
    FirstComponent(path[start..], i - start);
    assert path[start..][..i - start] == path[start..i] && path[start..][i - start..] == path[i..];
  }

  /** A path element as names are compared: its first DIRSIZ bytes. */
  function Cut(c: Bytestring): Bytestring {
    if |c| <= DIRSIZ then c else c[..DIRSIZ]
  }

  lemma NoComponents(path: Bytestring)
    requires path == []
    ensures Components(path) == []
  {
  }

  lemma FirstComponent(path: Bytestring, k: nat)
    requires 0 < k <= |path| && (forall j :: 0 <= j < k ==> path[j] != SLASH) && (k == |path| || path[k] == SLASH)
    ensures Components(path) == [path[..k]] + Components(path[k..])
  {
    ElemLengthUnique(path, k);
  }

  lemma CutName(c: Bytestring, name: Bytestring)
    requires |name| == DIRSIZ && 0 !in c
    requires if |c| >= DIRSIZ then name == c[..DIRSIZ] else name[..|c|] == c && name[|c|] == 0
    ensures Upto(name, DIRSIZ) == Cut(c)
  {
    if |c| >= DIRSIZ {
      assert name[..DIRSIZ] == name && 0 !in name;
      assert c == c[..DIRSIZ] + c[DIRSIZ..];
    }
    UptoUnique(name, DIRSIZ, Cut(c));
  }
}
