/** grep.c's matcher against a declarative meaning of its patterns. Strings are the characters
    before the NUL. */
module Regex {
  // ----- what a pattern means -----

  /** One character, any number of characters, or the end of the text. */
  datatype Item = One(c: char) | Star(c: char) | End

  /** A character followed by * repeats; $ ends the text only as the last character; every
      other character, including a leading *, stands for itself or, if a dot, for any. */
  function Items(re: string): (r: seq<Item>)
    ensures forall k :: 0 <= k < |r| - 1 ==> !r[k].End?
  {
    if re == "" then []
    else if |re| >= 2 && re[1] == '*' then [Star(re[0])] + Items(re[2..])
    else if re == "$" then [End]
    else [One(re[0])] + Items(re[1..])
  }

  predicate Stands(c: char, x: char) {
    c == '.' || c == x
  }

  ghost predicate Fits(item: Item, seg: string) {
    match item
    case One(c) => |seg| == 1 && Stands(c, seg[0])
    case Star(c) => forall k :: 0 <= k < |seg| ==> Stands(c, seg[k])
    case End => seg == ""
  }

  ghost function Concat(segs: seq<string>): string {
    if segs == [] then "" else segs[0] + Concat(segs[1..])
  }

  /** segs is a way to read the items off the front of text, or off all of it if they end
      with End. */
  ghost predicate Reading(items: seq<Item>, segs: seq<string>, text: string) {
    && |segs| == |items| && (forall k :: 0 <= k < |items| ==> Fits(items[k], segs[k]))
    && Concat(segs) <= text && (items != [] && items[|items| - 1].End? ==> Concat(segs) == text)
  }

  ghost predicate Here(items: seq<Item>, text: string) {
    exists segs :: Reading(items, segs, text)
  }

  /** A leading ^ ties the pattern to the start of the text, otherwise it may start anywhere,
      also at the very end. */
  ghost predicate Matches(re: string, text: string) {
    if re != "" && re[0] == '^' then Here(Items(re[1..]), text)
    else exists i :: 0 <= i <= |text| && Here(Items(re), text[i..])
  }

  // ----- one item at a time -----

  lemma HereNil(text: string)
    ensures Here([], text)
  {
    assert Reading([], [], text);
  }

  lemma HereEnd(text: string)
    ensures Here([End], text) <==> text == ""
  {
    if Here([End], text) {
      var segs :| Reading([End], segs, text);
      assert segs == [segs[0]] && segs[1..] == [];
    }
    if text == "" {
      assert Concat([""]) == "";
      assert Reading([End], [""], text);
    }
  }

  lemma ReadingCons(item: Item, items: seq<Item>, seg: string, segs: seq<string>, text: string)
    requires item.End? ==> items == []
    requires |seg| <= |text| && text[..|seg|] == seg
    requires Fits(item, seg) && Reading(items, segs, text[|seg|..]) && (item.End? ==> seg == text)
    ensures Reading([item] + items, [seg] + segs, text)
  {
    var all := [seg] + segs;
    assert all[0] == seg && all[1..] == segs;
    assert Concat(all) == seg + Concat(segs);
    assert text == seg + text[|seg|..];
  }

  lemma ReadingTail(item: Item, items: seq<Item>, segs: seq<string>, text: string)
    requires Reading([item] + items, segs, text) && (items == [] ==> !item.End?)
    ensures |segs| > 0 && Fits(item, segs[0]) && |segs[0]| <= |text| && text[..|segs[0]|] == segs[0]
    ensures Reading(items, segs[1..], text[|segs[0]|..])
  {
    var all := [item] + items;
    assert all[0] == item && all[1..] == items;
    assert Concat(segs) == segs[0] + Concat(segs[1..]);
    assert text[..|Concat(segs)|] == Concat(segs);
    assert text[|segs[0]|..][..|Concat(segs[1..])|] == Concat(segs[1..]);
    forall k | 0 <= k < |items|
      ensures Fits(items[k], segs[1..][k])
    {
      assert all[k + 1] == items[k];
    }
  }

  lemma HereOne(c: char, items: seq<Item>, text: string)
    ensures Here([One(c)] + items, text) <==> text != "" && Stands(c, text[0]) && Here(items, text[1..])
  {
    if Here([One(c)] + items, text) {
      var segs :| Reading([One(c)] + items, segs, text);
      ReadingTail(One(c), items, segs, text);
    }
    if text != "" && Stands(c, text[0]) && Here(items, text[1..]) {
      var segs :| Reading(items, segs, text[1..]);
      ReadingCons(One(c), items, text[..1], segs, text);
    }
  }

  /** The first k characters of text can be repetitions of c. */
  ghost predicate Repeats(c: char, text: string, k: nat) {
    k <= |text| && forall j :: 0 <= j < k ==> Stands(c, text[j])
  }

  lemma HereStar(c: char, items: seq<Item>, text: string)
    ensures Here([Star(c)] + items, text) <==> exists k: nat :: Repeats(c, text, k) && Here(items, text[k..])
  {
    if Here([Star(c)] + items, text) {
      var segs :| Reading([Star(c)] + items, segs, text);
      ReadingTail(Star(c), items, segs, text);
      assert Repeats(c, text, |segs[0]|);
    }
    if exists k: nat :: Repeats(c, text, k) && Here(items, text[k..]) {
      var k: nat :| Repeats(c, text, k) && Here(items, text[k..]);
      var segs :| Reading(items, segs, text[k..]);
      ReadingCons(Star(c), items, text[..k], segs, text);
    }
  }

  // ----- the matcher -----

  /** match() */
  method Match(re: string, text: string) returns (r: bool)
    ensures r <==> Matches(re, text)
  {
    hide Here, Items;
    if re != "" && re[0] == '^' {
      r := MatchHere(re[1..], text);
      return;
    }
    var t := 0;
    while true
      invariant t <= |text| && forall i :: 0 <= i < t ==> !Here(Items(re), text[i..])
      decreases |text| - t
    {
      r := MatchHere(re, text[t..]);
      if r {
        return;
      }
      if t == |text| {
        return false;
      }
      t := t + 1;
    }
  }

  /** matchhere() */
  method MatchHere(re: string, text: string) returns (r: bool)
    ensures r <==> Here(Items(re), text)
    decreases |re|, 0
  {
    hide Here;
    if re == "" {
      HereNil(text);
      return true;
    }
    if |re| >= 2 && re[1] == '*' {
      HereStar(re[0], Items(re[2..]), text);
      r := MatchStar(re[0], re[2..], text);
      return;
    }
    if re[0] == '$' && |re| == 1 {
      HereEnd(text);
      return text == "";
    }
    HereOne(re[0], Items(re[1..]), text);
    if text != "" && (re[0] == '.' || re[0] == text[0]) {
      r := MatchHere(re[1..], text[1..]);
      return;
    }
    return false;
  }

  /** matchstar() */
  method MatchStar(c: char, re: string, text: string) returns (r: bool)
    ensures r <==> exists k: nat :: Repeats(c, text, k) && Here(Items(re), text[k..])
    decreases |re|, 1
  {
    hide Here, Items;
    var t := 0;
    while true
      invariant Repeats(c, text, t)
      invariant forall k :: 0 <= k < t ==> !Here(Items(re), text[k..])
      decreases |text| - t
    {
      r := MatchHere(re, text[t..]);
      if r {
        return;
      }
      if !(t < |text| && (text[t] == c || c == '.')) {
        return;
      }
      t := t + 1;
    }
  }
}
