/** sh.c's recursive descent over the input buffer, proved against the reference parser, and
    nulterminate(), which turns every counted string of the tree into a C string in place. */
module Shell {
  import opened Common
  import opened ShellGrammar

  /** The character a token starts with, for tokens that are symbols. */
  function First(kind: char): char {
    if kind == '+' then '>' else kind
  }

  predicate Next(ts: seq<Token>, c: char) {
    ts != [] && ts[0].kind == c
  }

  predicate AtRedir(ts: seq<Token>) {
    ts != [] && RedirKind(ts[0].kind)
  }

  class Parser {
    const buf: array<char>
    const es: nat
    var ps: nat
    ghost const line: string  // the input as it was

    ghost predicate Valid()
      reads this, buf
    {
      buf.Length == es + 1 && ps <= es && |line| == es && buf[..es] == line && buf[es] == NUL && NUL !in line
    }

    constructor (line: string)
      requires NUL !in line
      ensures Valid() && fresh(buf) && this.line == line && ps == 0
    {
      this.line := line;
      es := |line|;
      ps := 0;
      buf := new char[|line| + 1](i => CharAt(line, i));
    }

    method SkipBlanks(i: nat) returns (j: nat)
      requires Valid() && i <= es
      ensures j == SkipSpace(line, i)
    {
      j := i;
      while j < es && Space(buf[j])
        invariant i <= j <= es && SkipSpace(line, j) == SkipSpace(line, i)
      {
        assert buf[j] == line[j];
        j := j + 1;
      }
      assert j < es ==> buf[j] == line[j];
    }

    /** gettoken() */
    method Gettoken() returns (t: Token)
      requires Valid()
      modifies `ps
      ensures Valid() && t == TokenAt(line, old(ps)) && ps == SkipSpace(line, t.eq)
      ensures ps >= old(ps) && (t.kind != NUL <==> Tokens(line, old(ps)) != [])
      ensures t.kind != NUL ==>
                ps > old(ps) && t == Tokens(line, old(ps))[0] && Tokens(line, ps) == Tokens(line, old(ps))[1..]
      ensures t.kind == NUL ==> Tokens(line, ps) == []
    {
      hide TokenAt, Tokens;
      t := ReadToken();
      TokensStep(line, ps);
      ps := SkipBlanks(t.eq);
    }

    /** The token at ps, with the blanks in front of it skipped. */
    method ReadToken() returns (t: Token)
      requires Valid()
      ensures t == TokenAt(line, ps)
    {
      var q := SkipBlanks(ps);
      var s := q;
      var kind := buf[q];
      BufAt(q);
      if q < es {
        NotNul(q);
      }
      if kind == NUL {
        // the end of the line
      } else if kind == '>' {
        s := s + 1;
        BufAt(s);
        if buf[s] == '>' {
          kind := '+';
          s := s + 1;
        }
      } else if Symbol(kind) {
        s := s + 1;
      } else {
        kind := 'a';
        s := WordLoop(q);
      }
      t := Token(kind, q, s);
    }

    /** The loop over a word. */
    method WordLoop(q: nat) returns (s: nat)
      requires Valid() && q <= es
      ensures s == WordEnd(line, q)
    {
      s := q;
      while s < es && !Space(buf[s]) && !Symbol(buf[s])
        invariant q <= s <= es && WordEnd(line, s) == WordEnd(line, q)
      {
        assert buf[s] == line[s];
        s := s + 1;
      }
      assert s < es ==> buf[s] == line[s];
    }

    lemma BufAt(i: nat)
      requires Valid() && i <= es
      ensures buf[i] == CharAt(line, i)
    {
      assert i < es ==> buf[..es][i] == line[i];
    }

    lemma NotNul(i: nat)
      requires Valid() && i < es
      ensures CharAt(line, i) != NUL
    {
      assert line[i] in line;
    }

    /** peek(), for symbols: whether the next token starts with one of them. */
    method Peek(toks: string) returns (r: bool)
      requires Valid() && forall c :: c in toks ==> Symbol(c)
      modifies `ps
      ensures Valid() && ps == SkipSpace(line, old(ps)) && ps >= old(ps) && Tokens(line, ps) == Tokens(line, old(ps))
      ensures r <==> Tokens(line, ps) != [] && First(Tokens(line, ps)[0].kind) in toks
    {
      hide Tokens;
      TokensAfterSpace(line, ps);
      SkipSpaceTwice(line, ps);
      ps := SkipBlanks(ps);
      BufAt(ps);
      if ps < es {
        NotNul(ps);
      }
      r := buf[ps] != NUL && buf[ps] in toks;
    }

    method PeekRedir() returns (r: bool)
      requires Valid()
      modifies `ps
      ensures Valid() && ps >= old(ps) && Tokens(line, ps) == Tokens(line, old(ps))
      ensures (r <==> AtRedir(Tokens(line, ps)))
    {
      hide Tokens, SkipSpace;
      r := Peek("<>");
    }

    method PeekStop() returns (r: bool)
      requires Valid()
      modifies `ps
      ensures Valid() && ps >= old(ps) && Tokens(line, ps) == Tokens(line, old(ps))
      ensures r <==> Tokens(line, ps) != [] && StopsWords(Tokens(line, ps))
    {
      hide Tokens, SkipSpace;
      r := Peek("|)&;");
    }

    method PeekOne(c: char) returns (r: bool)
      requires Valid() && Symbol(c) && c != '>'
      modifies `ps
      ensures Valid() && ps >= old(ps) && Tokens(line, ps) == Tokens(line, old(ps))
      ensures (r <==> Next(Tokens(line, ps), c))
    {
      hide Tokens, SkipSpace;
      r := Peek([c]);
    }

    /** parseredirs(): the redirections here, in order; false for a missing file. */
    method Parseredirs() returns (ok: bool, rs: seq<Redirection>)
      requires Valid()
      modifies `ps
      ensures Valid() && ps >= old(ps)
      ensures ok <==> Redirs(Tokens(line, old(ps))).Ok?
      ensures ok ==> Redirs(Tokens(line, old(ps))) == Ok(rs, Tokens(line, ps))
    {
      hide Tokens, Redirs, RedirsAre, SkipSpace, AtRedir, TokenAt;
      ghost var ts := Tokens(line, ps);
      rs := [];
      RedirsFrom(ts);
      var more := PeekRedir();
      while more
        invariant Valid() && ps >= old(ps)
        invariant more <==> AtRedir(Tokens(line, ps))
        invariant RedirsAre(ts, rs, Tokens(line, ps))
        decreases es - ps
      {
        ghost var cur := Tokens(line, ps);
        RedirsNext(ts, rs, cur);
        var tok := Gettoken();
        var file := Gettoken();
        if file.kind != 'a' {
          return false, rs;
        }
        rs := rs + [RedirOf(tok.kind, file)];
        more := PeekRedir();
      }
      RedirsEnd(ts, rs, Tokens(line, ps));
      ok := true;
    }

    /** The words of parseexec()'s loop, with the redirections among them; false for a token
        that cannot be there or too many words. */
    method ParseArgs() returns (ok: bool, argv: seq<Word>, rs: seq<Redirection>)
      requires Valid()
      modifies `ps
      ensures Valid() && ps >= old(ps)
      ensures ok <==> Args(Tokens(line, old(ps)), 0).Ok?
      ensures ok ==> Args(Tokens(line, old(ps)), 0) == Ok((argv, rs), Tokens(line, ps))
    {
      hide Tokens, Args, ArgsAre, Redirs, SkipSpace, TokenAt;
      ghost var ts := Tokens(line, ps);
      argv, rs := [], [];
      ArgsFrom(ts);
      var stop := PeekStop();
      while !stop
        invariant Valid() && ps >= old(ps) && |argv| < MAXARGS && ArgsAre(ts, argv, rs, Tokens(line, ps))
        invariant stop ==> StopsWords(Tokens(line, ps))
        invariant !stop ==> Tokens(line, ps) == [] || !StopsWords(Tokens(line, ps))
        decreases es - ps, !stop
      {
        ghost var cur := Tokens(line, ps);
        ArgsNext(ts, argv, rs, cur);
        var tok := Gettoken();
        if tok.kind == NUL {
          stop := true;
        } else {
          if tok.kind != 'a' || |argv| + 1 >= MAXARGS {
            return false, argv, rs;
          }
          var more;
          ok, more := Parseredirs();
          if !ok {
            return;
          }
          argv, rs := argv + [WordOf(tok)], rs + more;
          stop := PeekStop();
        }
      }
      ArgsEnd(ts, argv, rs, Tokens(line, ps));
      ok := true;
    }

    /** parseexec(): the execcmd is filled in while redircmds are put around it; here the words
        and the redirections are collected and put together at the end. None stands for a
        syntax panic. */
    method Parseexec() returns (r: Option<Cmd>)
      requires Valid()
      modifies `ps
      ensures Valid() && ps >= old(ps) && Parsed(Command(Tokens(line, old(ps))), r, Tokens(line, ps))
      decreases es - ps, 1
    {
      hide Tokens, Args, Redirs, Line, Wrap, SkipSpace, TokenAt;
      var block := PeekOne('(');
      if block {
        r := Parseblock();
        return;
      }
      var ok, rs := Parseredirs();
      if !ok {
        return None;
      }
      var argv, more;
      ok, argv, more := ParseArgs();
      if !ok {
        return None;
      }
      r := Some(Wrap(Exec(argv), rs + more));
    }

    /** parseblock(), where peek() has seen the parenthesis. */
    method Parseblock() returns (r: Option<Cmd>)
      requires Valid() && Next(Tokens(line, ps), '(')
      modifies `ps
      ensures Valid() && ps >= old(ps) && Parsed(Command(Tokens(line, old(ps))), r, Tokens(line, ps))
      decreases es - ps, 0
    {
      hide Tokens, Redirs, Line, Wrap, SkipSpace, TokenAt;
      var open := Gettoken();
      r := Parseline();
      if r.None? {
        return;
      }
      var closing := PeekOne(')');
      if !closing {
        return None;
      }
      var close := Gettoken();
      var ok, rs := Parseredirs();
      if !ok {
        return None;
      }
      r := Some(Wrap(r.value, rs));
    }

    /** parsepipe() */
    method Parsepipe() returns (r: Option<Cmd>)
      requires Valid()
      modifies `ps
      ensures Valid() && ps >= old(ps) && Parsed(Pipeline(Tokens(line, old(ps))), r, Tokens(line, ps))
      decreases es - ps, 2
    {
      hide Tokens, Command, SkipSpace, TokenAt;
      r := Parseexec();
      if r.None? {
        return;
      }
      var left := r.value;
      var bar := PeekOne('|');
      if bar {
        var tok := Gettoken();
        r := Parsepipe();
        if r.Some? {
          r := Some(Pipe(left, r.value));
        }
      }
    }

    /** The & signs of parseline(). */
    method ParseBacks(c: Cmd) returns (cmd: Cmd)
      requires Valid()
      modifies `ps
      ensures Valid() && ps >= old(ps) && Backs(c, Tokens(line, old(ps))) == (cmd, Tokens(line, ps))
    {
      hide Tokens, SkipSpace, TokenAt;
      cmd := c;
      var amp := PeekOne('&');
      while amp
        invariant Valid() && ps >= old(ps) && Backs(cmd, Tokens(line, ps)) == Backs(c, Tokens(line, old(ps)))
        invariant amp <==> Next(Tokens(line, ps), '&')
        decreases es - ps
      {
        var tok := Gettoken();
        cmd := Back(cmd);
        amp := PeekOne('&');
      }
    }

    /** parseline() */
    method Parseline() returns (r: Option<Cmd>)
      requires Valid()
      modifies `ps
      ensures Valid() && ps >= old(ps) && Parsed(Line(Tokens(line, old(ps))), r, Tokens(line, ps))
      decreases es - ps, 3
    {
      hide Tokens, Pipeline, Backs, SkipSpace, TokenAt;
      r := Parsepipe();
      if r.None? {
        return;
      }
      var cmd := ParseBacks(r.value);
      var semi := PeekOne(';');
      if semi {
        var tok := Gettoken();
        r := Parseline();
        if r.Some? {
          r := Some(List(cmd, r.value));
        }
      } else {
        r := Some(cmd);
      }
    }

    method TerminateOne(w: Word)
      requires w.eq < buf.Length
      modifies buf
      ensures Terminated(old(buf[..]), buf[..], [w])
    {
      buf[w.eq] := NUL;
      assert [w][0].eq == w.eq;
    }

    /** nulterminate() */
    method Nulterminate(cmd: Cmd)
      requires EndsWithin(Words(cmd), buf.Length)
      modifies buf
      ensures Terminated(old(buf[..]), buf[..], Words(cmd))
      decreases cmd, 1
    {
      hide Terminated, EndsWithin;
      ghost var b := buf[..];
      match cmd
      case Exec(argv) =>
        TerminateAll(argv);
      case Redir(c, to) =>
        assert Words(cmd) == Words(c) + [to.file];
        WithinBoth(Words(c), [to.file], buf.Length);
        Nulterminate(c);
        ghost var b1 := buf[..];
        WithinOne(to.file, buf.Length);
        TerminateOne(to.file);
        TerminatedBoth(b, b1, buf[..], Words(c), [to.file]);
      case Pipe(l, r) =>
        assert Words(cmd) == Words(l) + Words(r);
        TerminateBoth(cmd, l, r);
      case List(l, r) =>
        assert Words(cmd) == Words(l) + Words(r);
        TerminateBoth(cmd, l, r);
      case Back(c) =>
        assert Words(cmd) == Words(c);
        Nulterminate(c);
    }

    /** The loop over an argv. */
    method TerminateAll(argv: seq<Word>)
      requires EndsWithin(argv, buf.Length)
      modifies buf
      ensures Terminated(old(buf[..]), buf[..], argv)
    {
      hide Terminated;
      ghost var b := buf[..];
      TerminatedNone(b);
      for i := 0 to |argv|
        invariant Terminated(b, buf[..], argv[..i])
      {
        ghost var b1 := buf[..];
        TerminateOne(argv[i]);
        TerminatedBoth(b, b1, buf[..], argv[..i], [argv[i]]);
        assert argv[..i + 1] == argv[..i] + [argv[i]];
      }
      assert argv[..|argv|] == argv;
    }

    method TerminateBoth(ghost cmd: Cmd, l: Cmd, r: Cmd)
      requires l < cmd && r < cmd && EndsWithin(Words(l) + Words(r), buf.Length)
      modifies buf
      ensures Terminated(old(buf[..]), buf[..], Words(l) + Words(r))
      decreases cmd, 0
    {
      hide Terminated, EndsWithin, Words;
      ghost var b := buf[..];
      WithinBoth(Words(l), Words(r), buf.Length);
      Nulterminate(l);
      ghost var b1 := buf[..];
      Nulterminate(r);
      TerminatedBoth(b, b1, buf[..], Words(l), Words(r));
    }

    /** parsecmd(): finds the command whose tree the tokens of the line form, or, with None for
        a syntax panic or leftovers, there is none. Every string of the command is then the C
        string of a word of the line. */
    method Parsecmd() returns (r: Option<Cmd>)
      requires Valid() && ps == 0
      modifies this`ps, buf
      ensures r.Some? ==> IsLine(Tokens(line, 0), r.value)
      ensures r.None? ==> forall c :: !IsLine(Tokens(line, 0), c)
      ensures r.Some? ==> forall w :: w in Words(r.value) ==>
                WholeWord(line, w) && w.q < w.eq <= |line| < buf.Length && CString(buf[..], w.q) == line[w.q..w.eq]
    {
      hide Tokens, Line, IsLine, Words, Terminated, CString, WholeWord, SkipSpace;
      r := ParseWhole();
      if r.None? {
        return;
      }
      ghost var ws, b := Words(r.value), buf[..];
      WholeWords(line, r.value);
      Nulterminate(r.value);
      forall w | w in ws
        ensures WholeWord(line, w) && w.q < w.eq <= |line| && CString(buf[..], w.q) == line[w.q..w.eq]
      {
        var k :| 0 <= k < |ws| && ws[k] == w;
        WordsSurvive(line, b, buf[..], ws, k);
      }
    }

    /** parsecmd() up to the check for leftovers. */
    method ParseWhole() returns (r: Option<Cmd>)
      requires Valid() && ps == 0
      modifies `ps
      ensures Valid()
      ensures r.Some? ==> IsLine(Tokens(line, 0), r.value)
      ensures r.None? ==> forall c :: !IsLine(Tokens(line, 0), c)
    {
      hide Tokens, Line, IsLine, SkipSpace;
      r := Parseline();
      ParseOutcome(Tokens(line, 0));
      if r.None? {
        return;
      }
      ghost var a := ps;
      var p := Peek("");
      SkipSpaceTwice(line, a);
      TokensLeft(line, ps);
      if ps != es {
        return None;
      }
    }
  }

  // ----- the C strings -----

  /** The C string that starts at q. */
  function CString(b: string, q: nat): string
    requires q <= |b|
    decreases |b| - q
  {
    if q == |b| || b[q] == NUL then "" else [b[q]] + CString(b, q + 1)
  }

  lemma {:induction false} CStringIs(b: string, q: nat, eq: nat, text: string)
    requires q <= eq < |b| && b[eq] == NUL && b[q..eq] == text && NUL !in text
    ensures CString(b, q) == text
    decreases eq - q
  {
    if q < eq {
      assert b[q] == text[0] && text[0] in text;
      CStringIs(b, q + 1, eq, text[1..]);
      assert text == [b[q]] + text[1..];
    } else {
      assert text == "";
    }
  }

  ghost predicate EndsAt(ws: seq<Word>, i: int) {
    exists k :: 0 <= k < |ws| && ws[k].eq == i
  }

  /** b' is b with a NUL behind each of the words. */
  ghost predicate Terminated(b: string, b': string, ws: seq<Word>) {
    |b'| == |b| && forall i :: 0 <= i < |b| ==> b'[i] == if EndsAt(ws, i) then NUL else b[i]
  }

  lemma TerminatedBoth(b: string, b1: string, b2: string, w1: seq<Word>, w2: seq<Word>)
    requires Terminated(b, b1, w1) && Terminated(b1, b2, w2)
    ensures Terminated(b, b2, w1 + w2)
  {
    forall i | 0 <= i < |b|
      ensures EndsAt(w1 + w2, i) <==> EndsAt(w1, i) || EndsAt(w2, i)
    {
      if EndsAt(w1, i) {
        var k :| 0 <= k < |w1| && w1[k].eq == i;
        assert (w1 + w2)[k].eq == i;
      }
      if EndsAt(w2, i) {
        var k :| 0 <= k < |w2| && w2[k].eq == i;
        assert (w1 + w2)[|w1| + k].eq == i;
      }
    }
  }

  lemma NoEndInside(s: string, ws: seq<Word>, i: nat)
    requires WordsOk(s, ws) && WordChar(s, i)
    ensures !EndsAt(ws, i)
  {
    forall j | 0 <= j < |ws|
      ensures ws[j].eq != i
    {
      assert WholeWord(s, ws[j]);
    }
  }

  ghost predicate EndsWithin(ws: seq<Word>, n: nat) {
    forall k :: 0 <= k < |ws| ==> ws[k].eq < n
  }

  lemma WithinBoth(w1: seq<Word>, w2: seq<Word>, n: nat)
    requires EndsWithin(w1 + w2, n)
    ensures EndsWithin(w1, n) && EndsWithin(w2, n)
  {
    assert forall k :: 0 <= k < |w1| ==> (w1 + w2)[k] == w1[k];
    assert forall k :: 0 <= k < |w2| ==> (w1 + w2)[|w1| + k] == w2[k];
  }

  lemma WithinOne(w: Word, n: nat)
    requires EndsWithin([w], n)
    ensures w.eq < n
  {
    assert [w][0] == w;
  }

  lemma TerminatedNone(b: string)
    ensures Terminated(b, b, [])
  {
  }

  /** No terminator lands in a word: each is written on a character that ends a word, so
      every word of the tree is afterwards the C string of its own text. */
  lemma WordsSurvive(s: string, b: string, b': string, ws: seq<Word>, k: nat)
    requires NUL !in s && |b| == |s| + 1 && b[..|s|] == s && Terminated(b, b', ws) && WordsOk(s, ws) && k < |ws|
    ensures ws[k].q < ws[k].eq <= |s| && CString(b', ws[k].q) == s[ws[k].q..ws[k].eq]
  {
    var w := ws[k];
    assert WholeWord(s, w);
    assert EndsAt(ws, w.eq);
    forall i | w.q <= i < w.eq
      ensures b'[i] == s[i]
    {
      assert b[i] == b[..|s|][i];
      NoEndInside(s, ws, i);
    }
    assert b'[w.q..w.eq] == s[w.q..w.eq];
    CStringIs(b', w.q, w.eq, s[w.q..w.eq]);
  }

  // ----- the loops -----

  /** What a parse function of the class returns for what the reference parser finds. */
  ghost predicate Parsed(p: Parse<Cmd>, r: Option<Cmd>, rest: seq<Token>) {
    if p.Fail? then r.None? else r == Some(p.value) && rest == p.rest
  }

  /** With rs found so far, cur is left to look for redirections in. */
  ghost predicate RedirsAre(ts: seq<Token>, rs: seq<Redirection>, cur: seq<Token>) {
    match Redirs(cur)
    case Fail => Redirs(ts).Fail?
    case Ok(more, rest) => Redirs(ts) == Ok(rs + more, rest)
  }

  lemma RedirsFrom(ts: seq<Token>)
    ensures RedirsAre(ts, [], ts)
  {
    hide Redirs;
    assert Redirs(ts).Ok? ==> [] + Redirs(ts).value == Redirs(ts).value;
  }

  lemma RedirsNext(ts: seq<Token>, rs: seq<Redirection>, cur: seq<Token>)
    requires RedirsAre(ts, rs, cur) && AtRedir(cur)
    ensures cur != []
    ensures |cur| < 2 || cur[1].kind != 'a' ==> Redirs(ts).Fail?
    ensures |cur| >= 2 && cur[1].kind == 'a' ==> RedirsAre(ts, rs + [RedirOf(cur[0].kind, cur[1])], cur[1..][1..])
  {
    assert |cur| >= 2 ==> cur[1..][1..] == cur[2..];
    if |cur| >= 2 && cur[1].kind == 'a' && Redirs(cur[2..]).Ok? {
      var x, more := RedirOf(cur[0].kind, cur[1]), Redirs(cur[2..]).value;
      assert rs + ([x] + more) == rs + [x] + more;
    }
  }

  lemma RedirsEnd(ts: seq<Token>, rs: seq<Redirection>, cur: seq<Token>)
    requires RedirsAre(ts, rs, cur) && !AtRedir(cur)
    ensures Redirs(ts) == Ok(rs, cur)
  {
    assert rs + [] == rs;
  }

  ghost predicate ArgsAre(ts: seq<Token>, argv: seq<Word>, rs: seq<Redirection>, cur: seq<Token>) {
    match Args(cur, |argv|)
    case Fail => Args(ts, 0).Fail?
    case Ok(more, rest) => Args(ts, 0) == Ok((argv + more.0, rs + more.1), rest)
  }

  lemma ArgsFrom(ts: seq<Token>)
    ensures ArgsAre(ts, [], [], ts)
  {
    hide Args;
    assert Args(ts, 0).Ok? ==>
             [] + Args(ts, 0).value.0 == Args(ts, 0).value.0 && [] + Args(ts, 0).value.1 == Args(ts, 0).value.1;
  }

  lemma ArgsNext(ts: seq<Token>, argv: seq<Word>, rs: seq<Redirection>, cur: seq<Token>)
    requires ArgsAre(ts, argv, rs, cur)
    ensures !StopsWords(cur) && (cur[0].kind != 'a' || |argv| + 1 >= MAXARGS || Redirs(cur[1..]).Fail?) ==>
              Args(ts, 0).Fail?
    ensures !StopsWords(cur) && cur[0].kind == 'a' && |argv| + 1 < MAXARGS && Redirs(cur[1..]).Ok? ==>
              ArgsAre(ts, argv + [WordOf(cur[0])], rs + Redirs(cur[1..]).value, Redirs(cur[1..]).rest)
  {
    hide Redirs;
    if !StopsWords(cur) && cur[0].kind == 'a' && |argv| + 1 < MAXARGS && Redirs(cur[1..]).Ok? {
      var q := Redirs(cur[1..]);
      var p := Args(q.rest, |argv| + 1);
      if p.Ok? {
        assert argv + ([WordOf(cur[0])] + p.value.0) == argv + [WordOf(cur[0])] + p.value.0;
        assert rs + (q.value + p.value.1) == rs + q.value + p.value.1;
      }
    }
  }

  lemma ArgsEnd(ts: seq<Token>, argv: seq<Word>, rs: seq<Redirection>, cur: seq<Token>)
    requires ArgsAre(ts, argv, rs, cur) && StopsWords(cur)
    ensures Args(ts, 0) == Ok((argv, rs), cur)
  {
    assert argv + [] == argv && rs + [] == rs;
  }

  /** Past the blanks there are tokens left exactly before the end of the line. */
  lemma TokensLeft(s: string, i: nat)
    requires i <= |s| && i == SkipSpace(s, i)
    ensures Tokens(s, i) == [] <==> i == |s|
  {
  }

  lemma WholeWords(s: string, c: Cmd)
    requires IsLine(Tokens(s, 0), c)
    ensures forall w :: w in Words(c) ==> WholeWord(s, w)
    ensures EndsWithin(Words(c), |s| + 1) && WordsOk(s, Words(c))
  {
    hide Tokens, IsLine, Words, IsWordOf, WholeWord;
    LineWords(Tokens(s, 0), c);
    forall w | w in Words(c)
      ensures WholeWord(s, w) && w.eq < |s| + 1
    {
      TokensWhole(s, 0, w);
      WholeEnd(s, w);
    }
  }

  lemma WholeEnd(s: string, w: Word)
    requires WholeWord(s, w)
    ensures w.q < w.eq <= |s|
  {
  }

  ghost predicate WordsOk(s: string, ws: seq<Word>) {
    forall k :: 0 <= k < |ws| ==> WholeWord(s, ws[k])
  }
}
