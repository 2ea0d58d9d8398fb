/** The log_write() calls of an operation as values. */
module Writes {
  import opened Common
  import opened Blocks

  datatype Write = Write(b: uint32, data: Block)

  /** The disk image after the calls, in order. */
  ghost function After(d: seq<Block>, ws: seq<Write>): (r: seq<Block>)
    ensures |r| == |d|
  {
    if ws == [] then d
    else
      var r, w := After(d, ws[..|ws| - 1]), ws[|ws| - 1];
      if w.b < |r| then r[w.b := w.data] else r
  }

  /** The blocks they log. */
  ghost function Logged(ws: seq<Write>): set<int> {
    set k | 0 <= k < |ws| :: ws[k].b
  }

  /** Every call comes while fewer than n blocks have been logged. */
  ghost predicate Within(ws: seq<Write>, n: nat) {
    forall k :: 0 <= k < |ws| ==> |Logged(ws[..k])| < n
  }

  lemma Snoc(d: seq<Block>, ws: seq<Write>, w: Write)
    ensures After(d, ws + [w]) == if w.b < |d| then After(d, ws)[w.b := w.data] else After(d, ws)
    ensures Logged(ws + [w]) == Logged(ws) + {w.b}
  {
    assert (ws + [w])[..|ws|] == ws;
    assert (ws + [w])[|ws|] == w;
    forall x | x in Logged(ws) + {w.b}
      ensures x in Logged(ws + [w])
    {
      if x in Logged(ws) {
        var k :| 0 <= k < |ws| && ws[k].b == x;
        assert (ws + [w])[k].b == x;
      }
    }
  }

  /** A block that is not logged is as it was. */
  lemma {:induction false} AfterOutside(d: seq<Block>, ws: seq<Write>, a: nat)
    requires a < |d| && a !in Logged(ws)
    ensures After(d, ws)[a] == d[a]
  {
    if ws == [] {
    } else {
      assert ws[|ws| - 1].b in Logged(ws);
      assert Logged(ws[..|ws| - 1]) <= Logged(ws);
      AfterOutside(d, ws[..|ws| - 1], a);
    }
  }

  /** What the calls make of a block depends on that block only. */
  lemma {:induction false} AfterSame(d: seq<Block>, e: seq<Block>, ws: seq<Write>, a: nat)
    requires |d| == |e| && a < |d| && d[a] == e[a]
    ensures After(d, ws)[a] == After(e, ws)[a]
  {
    if ws == [] {
    } else {
      AfterSame(d, e, ws[..|ws| - 1], a);
    }
  }

  lemma LoggedPrefix(ws: seq<Write>, k: nat)
    requires k <= |ws|
    ensures Logged(ws[..k]) <= Logged(ws)
  {
  }

  /** Fewer than n blocks before the last call are enough. */
  lemma LastCall(ws: seq<Write>, ws': seq<Write>, n: nat)
    requires |Logged(ws)| < n && ws <= ws' && |ws'| <= |ws| + 1
    ensures Within(ws', n) && |Logged(ws')| <= n
  {
    forall k | 0 <= k <= |ws|
      ensures |Logged(ws'[..k])| < n
    {
      assert ws'[..k] == ws[..k];
      LoggedPrefix(ws, k);
      SubsetSmaller(Logged(ws[..k]), Logged(ws));
    }
    if ws' == ws {
    } else {
      assert ws' == ws + [ws'[|ws|]];
      Snoc([], ws, ws'[|ws|]);
      OneMore(Logged(ws), ws'[|ws|].b);
    }
  }

  lemma LastCallIff(ws: seq<Write>, ws': seq<Write>, n: nat)
    requires ws <= ws' && |ws'| == |ws| + 1
    ensures Within(ws', n) <==> |Logged(ws)| < n
  {
    if |Logged(ws)| < n {
      LastCall(ws, ws', n);
    }
    assert ws'[..|ws|] == ws;
  }
}
