/** The language sh.c's parser accepts: the tokens of a line, the grammar as a relation between
    token sequences and commands, and a reference parser on token sequences that is proved to
    find exactly the trees of the grammar. */
module ShellGrammar {
  const MAXARGS: nat := 10
  const O_RDONLY: nat := 0
  const O_CREATE_WRONLY: nat := 0x201
  const NUL: char := 0 as char
  const TAB: char := 9 as char
  const NEWLINE: char := 10 as char
  const VTAB: char := 11 as char
  const RETURN: char := 13 as char

  // ----- tokens -----

  predicate Space(c: char) {
    c == ' ' || c == TAB || c == RETURN || c == NEWLINE || c == VTAB
  }

  predicate Symbol(c: char) {
    c == '<' || c == '|' || c == '>' || c == '&' || c == ';' || c == '(' || c == ')'
  }

  /** Belongs to a word; s is without its terminating NUL. */
  predicate WordChar(s: string, i: nat) {
    i < |s| && !Space(s[i]) && !Symbol(s[i])
  }

  function CharAt(s: string, i: nat): char {
    if i < |s| then s[i] else NUL
  }

  function SkipSpace(s: string, i: nat): (r: nat)
    requires i <= |s|
    ensures i <= r <= |s| && (r < |s| ==> !Space(s[r])) && forall j :: i <= j < r ==> Space(s[j])
    decreases |s| - i
  {
    if i < |s| && Space(s[i]) then SkipSpace(s, i + 1) else i
  }

  function WordEnd(s: string, i: nat): (r: nat)
    requires i <= |s|
    ensures i <= r <= |s| && !WordChar(s, r) && (WordChar(s, i) ==> i < r) && forall j :: i <= j < r ==> WordChar(s, j)
    decreases |s| - i
  {
    if WordChar(s, i) then WordEnd(s, i + 1) else i
  }

  /** kind is 'a' for a word, '+' for >>, the symbol itself, or NUL at the end of the line. */
  datatype Token = Token(kind: char, q: nat, eq: nat)

  /** The next token from position i on. */
  function TokenAt(s: string, i: nat): (t: Token)
    requires i <= |s|
    ensures i <= t.q <= t.eq <= |s| && (t.kind == NUL <==> t.q == t.eq) && (t.kind == NUL <==> t.q == |s|)
    ensures t.kind == 'a' ==> !WordChar(s, t.eq) && forall j :: t.q <= j < t.eq ==> WordChar(s, j)
  {
    var q := SkipSpace(s, i);
    if q == |s| then Token(NUL, q, q)
    else if s[q] == '>' && CharAt(s, q + 1) == '>' then Token('+', q, q + 2)
    else if Symbol(s[q]) then Token(s[q], q, q + 1)
    else Token('a', q, WordEnd(s, q))
  }

  lemma SkipSpaceTwice(s: string, i: nat)
    requires i <= |s|
    ensures SkipSpace(s, SkipSpace(s, i)) == SkipSpace(s, i) && TokenAt(s, SkipSpace(s, i)) == TokenAt(s, i)
  {
  }

  /** The tokens from position i to the end of the line. */
  function Tokens(s: string, i: nat): (r: seq<Token>)
    requires i <= |s|
    ensures r == [] <==> TokenAt(s, i).kind == NUL
    ensures r != [] ==> r[0] == TokenAt(s, i) && r[1..] == Tokens(s, TokenAt(s, i).eq)
    decreases |s| - i
  {
    var t := TokenAt(s, i);
    if t.kind == NUL then [] else [t] + Tokens(s, t.eq)
  }

  lemma TokensAfterSpace(s: string, i: nat)
    requires i <= |s|
    ensures Tokens(s, SkipSpace(s, i)) == Tokens(s, i)
  {
    SkipSpaceTwice(s, i);
  }

  /** What gettoken() leaves of the tokens. */
  lemma TokensStep(s: string, i: nat)
    requires i <= |s|
    ensures var t := TokenAt(s, i);
            && i <= t.eq <= SkipSpace(s, t.eq) && (t.kind != NUL <==> Tokens(s, i) != [])
            && (t.kind != NUL ==>
                 i < t.eq && t == Tokens(s, i)[0] && Tokens(s, SkipSpace(s, t.eq)) == Tokens(s, i)[1..])
            && (t.kind == NUL ==> Tokens(s, SkipSpace(s, t.eq)) == [])
  {
    TokensAfterSpace(s, TokenAt(s, i).eq);
  }

  // ----- commands and the grammar -----

  /** A counted string of the input buffer: from q to before eq. */
  datatype Word = Word(q: nat, eq: nat)

  datatype Redirection = Redirection(file: Word, mode: nat, fd: nat)

  datatype Cmd =
    | Exec(argv: seq<Word>)
    | Redir(cmd: Cmd, to: Redirection)
    | Pipe(left: Cmd, right: Cmd)
    | List(left: Cmd, right: Cmd)
    | Back(cmd: Cmd)

  function WordOf(t: Token): Word {
    Word(t.q, t.eq)
  }

  /** > and >> open the file in the same way. */
  function RedirOf(kind: char, file: Token): Redirection {
    if kind == '<' then Redirection(WordOf(file), O_RDONLY, 0) else Redirection(WordOf(file), O_CREATE_WRONLY, 1)
  }

  predicate RedirKind(kind: char) {
    kind == '<' || kind == '>' || kind == '+'
  }

  function Wrap(c: Cmd, rs: seq<Redirection>): Cmd {
    if rs == [] then c else Redir(Wrap(c, rs[..|rs| - 1]), rs[|rs| - 1])
  }

  /** Redirections wrap the command from the inside out, in the order they are read. */
  lemma {:induction false} WrapInOrder(c: Cmd, rs: seq<Redirection>, more: seq<Redirection>)
    ensures Wrap(c, rs + more) == Wrap(Wrap(c, rs), more)
    ensures |more| == 1 ==> Wrap(c, more) == Redir(c, more[0])
    decreases |more|
  {
    if more == [] {
      assert rs + more == rs;
    } else {
      WrapInOrder(c, rs, more[..|more| - 1]);
      assert (rs + more)[..|rs + more| - 1] == rs + more[..|more| - 1];
      assert |more| == 1 ==> more[..0] == [];
    }
  }

  /** < opens for reading as descriptor 0, > and >> for writing, creating the file, as 1. */
  lemma RedirMeans(file: Token)
    ensures RedirOf('<', file) == Redirection(Word(file.q, file.eq), 0x000, 0)
    ensures RedirOf('>', file) == RedirOf('+', file) == Redirection(Word(file.q, file.eq), 0x001 + 0x200, 1)
  {
  }

  /** Words and redirections in any order. */
  ghost predicate Simple(t: seq<Token>, words: seq<Word>, rs: seq<Redirection>)
    decreases |t|
  {
    if t == [] then words == [] && rs == []
    else if t[0].kind == 'a' then words != [] && words[0] == WordOf(t[0]) && Simple(t[1..], words[1..], rs)
    else
      && RedirKind(t[0].kind) && |t| >= 2 && t[1].kind == 'a'
      && rs != [] && rs[0] == RedirOf(t[0].kind, t[1]) && Simple(t[2..], words, rs[1..])
  }

  /** line: pipe with any number of & behind it, or such and a ; and a line. */
  ghost predicate IsLine(t: seq<Token>, c: Cmd)
    decreases |t|, 3
  {
    || IsBackgrounded(t, c)
    || (c.List? && exists i ::
          0 <= i < |t| && t[i].kind == ';' && IsBackgrounded(t[..i], c.left) && IsLine(t[i + 1..], c.right))
  }

  ghost predicate IsBackgrounded(t: seq<Token>, c: Cmd)
    decreases |t|, 2
  {
    || IsPipe(t, c)
    || (c.Back? && t != [] && t[|t| - 1].kind == '&' && IsBackgrounded(t[..|t| - 1], c.cmd))
  }

  /** pipe: command, or command | pipe. */
  ghost predicate IsPipe(t: seq<Token>, c: Cmd)
    decreases |t|, 1
  {
    || IsCommand(t, c)
    || (c.Pipe? && exists i ::
          0 <= i < |t| && t[i].kind == '|' && IsCommand(t[..i], c.left) && IsPipe(t[i + 1..], c.right))
  }

  /** command: words and redirections, or a line in parentheses with redirections. */
  ghost predicate IsCommand(t: seq<Token>, c: Cmd)
    decreases |t|, 0
  {
    || (exists words, rs :: Simple(t, words, rs) && |words| < MAXARGS && c == Wrap(Exec(words), rs))
    || (exists j, inner, rs ::
          Block(t, j) && IsLine(t[1..j], inner) && Simple(t[j + 1..], [], rs) && c == Wrap(inner, rs))
  }

  /** An opening parenthesis first and a closing one at j. */
  predicate Block(t: seq<Token>, j: int) {
    0 < j < |t| && t[0].kind == '(' && t[j].kind == ')'
  }

  lemma {:induction false} SimpleConcat(t1: seq<Token>, w1: seq<Word>, r1: seq<Redirection>, t2: seq<Token>,
                                        w2: seq<Word>, r2: seq<Redirection>)
    requires Simple(t1, w1, r1) && Simple(t2, w2, r2)
    ensures Simple(t1 + t2, w1 + w2, r1 + r2)
    decreases |t1|
  {
    hide Simple;
    SimpleCases(t1, w1, r1);
    if t1 == [] {
      assert t1 + t2 == t2 && w1 + w2 == w2 && r1 + r2 == r2;
    } else if t1[0].kind == 'a' {
      SimpleConcat(t1[1..], w1[1..], r1, t2, w2, r2);
      assert (t1 + t2)[1..] == t1[1..] + t2 && (w1 + w2)[1..] == w1[1..] + w2;
      SimpleWord(t1 + t2, w1 + w2, r1 + r2, t1[1..] + t2, w1[1..] + w2);
    } else {
      SimpleConcat(t1[2..], w1, r1[1..], t2, w2, r2);
      assert (t1 + t2)[2..] == t1[2..] + t2 && (r1 + r2)[1..] == r1[1..] + r2;
      SimpleRedir(t1 + t2, w1 + w2, r1 + r2, t1[2..] + t2, r1[1..] + r2);
    }
  }

  lemma SimpleCases(t: seq<Token>, w: seq<Word>, r: seq<Redirection>)
    requires Simple(t, w, r)
    ensures t == [] ==> w == [] && r == []
    ensures t != [] && t[0].kind == 'a' ==> w != [] && w[0] == WordOf(t[0]) && Simple(t[1..], w[1..], r)
    ensures t != [] && t[0].kind != 'a' ==>
              && RedirKind(t[0].kind) && |t| >= 2 && t[1].kind == 'a'
              && r != [] && r[0] == RedirOf(t[0].kind, t[1]) && Simple(t[2..], w, r[1..])
  {
  }

  lemma SimpleWord(t: seq<Token>, w: seq<Word>, r: seq<Redirection>, t': seq<Token>, w': seq<Word>)
    requires t != [] && t[0].kind == 'a' && w != [] && w[0] == WordOf(t[0]) && t[1..] == t' && w[1..] == w'
    requires Simple(t', w', r)
    ensures Simple(t, w, r)
  {
  }

  lemma SimpleRedir(t: seq<Token>, w: seq<Word>, r: seq<Redirection>, t': seq<Token>, r': seq<Redirection>)
    requires |t| >= 2 && RedirKind(t[0].kind) && t[1].kind == 'a' && t[2..] == t'
    requires r != [] && r[0] == RedirOf(t[0].kind, t[1]) && r[1..] == r' && Simple(t', w, r')
    ensures Simple(t, w, r)
  {
  }

  // ----- the reference parser -----

  datatype Parse<T> = Fail | Ok(value: T, rest: seq<Token>)

  /** The redirections at the front. */
  function Redirs(ts: seq<Token>): (p: Parse<seq<Redirection>>)
    ensures p.Ok? ==> |p.rest| <= |ts|
    decreases |ts|
  {
    if ts == [] || !RedirKind(ts[0].kind) then Ok([], ts)
    else if |ts| < 2 || ts[1].kind != 'a' then Fail
    else
      match Redirs(ts[2..])
      case Fail => Fail
      case Ok(rs, rest) => Ok([RedirOf(ts[0].kind, ts[1])] + rs, rest)
  }

  predicate StopsWords(ts: seq<Token>) {
    ts == [] || ts[0].kind == '|' || ts[0].kind == ')' || ts[0].kind == '&' || ts[0].kind == ';'
  }

  /** Words, each with the redirections behind it; n words come before. */
  function Args(ts: seq<Token>, n: nat): (p: Parse<(seq<Word>, seq<Redirection>)>)
    ensures p.Ok? ==> |p.rest| <= |ts| && (n < MAXARGS ==> n + |p.value.0| < MAXARGS)
    decreases |ts|
  {
    if StopsWords(ts) then Ok(([], []), ts)
    else if ts[0].kind != 'a' || n + 1 >= MAXARGS then Fail
    else
      match Redirs(ts[1..])
      case Fail => Fail
      case Ok(rs, rest) =>
        match Args(rest, n + 1)
        case Fail => Fail
        case Ok(more, rest') => Ok(([WordOf(ts[0])] + more.0, rs + more.1), rest')
  }

  /** A command has at most nine words: the array behind it has ten places, the last for the end. */
  lemma {:induction false} MostWords(ts: seq<Token>, n: nat)
    requires n <= 9 && forall i :: 0 <= i < |ts| ==> ts[i].kind == 'a'
    ensures Args(ts, n).Ok? <==> n + |ts| <= 9
    ensures n + |ts| <= 9 ==> |Args(ts, n).value.0| == |ts|
    decreases |ts|
  {
    if ts != [] && n + 1 <= 9 {
      MostWords(ts[1..], n + 1);
    }
  }

  function Command(ts: seq<Token>): (p: Parse<Cmd>)
    ensures p.Ok? ==> |p.rest| <= |ts|
    decreases |ts|, 0
  {
    if ts != [] && ts[0].kind == '(' then
      match Line(ts[1..])
      case Fail => Fail
      case Ok(c, rest) =>
        if rest == [] || rest[0].kind != ')' then Fail
        else
          match Redirs(rest[1..])
          case Fail => Fail
          case Ok(rs, rest') => Ok(Wrap(c, rs), rest')
    else
      match Redirs(ts)
      case Fail => Fail
      case Ok(rs, rest) =>
        match Args(rest, 0)
        case Fail => Fail
        case Ok(more, rest') => Ok(Wrap(Exec(more.0), rs + more.1), rest')
  }

  function Pipeline(ts: seq<Token>): (p: Parse<Cmd>)
    ensures p.Ok? ==> |p.rest| <= |ts|
    decreases |ts|, 1
  {
    match Command(ts)
    case Fail => Fail
    case Ok(l, rest) =>
      if rest == [] || rest[0].kind != '|' then Ok(l, rest)
      else
        match Pipeline(rest[1..])
        case Fail => Fail
        case Ok(r, rest') => Ok(Pipe(l, r), rest')
  }

  /** The & signs behind a pipe. */
  function Backs(c: Cmd, ts: seq<Token>): (p: (Cmd, seq<Token>))
    ensures |p.1| <= |ts|
    decreases |ts|
  {
    if ts != [] && ts[0].kind == '&' then Backs(Back(c), ts[1..]) else (c, ts)
  }

  function Line(ts: seq<Token>): (p: Parse<Cmd>)
    ensures p.Ok? ==> |p.rest| <= |ts|
    decreases |ts|, 2
  {
    match Pipeline(ts)
    case Fail => Fail
    case Ok(c, rest) =>
      var b := Backs(c, rest);
      if b.1 == [] || b.1[0].kind != ';' then Ok(b.0, b.1)
      else
        match Line(b.1[1..])
        case Fail => Fail
        case Ok(r, rest') => Ok(List(b.0, r), rest')
  }

  // ----- what it accepts is in the grammar -----

  lemma {:induction false} RedirsSound(ts: seq<Token>) returns (t: seq<Token>)
    requires Redirs(ts).Ok?
    ensures ts == t + Redirs(ts).rest && Simple(t, [], Redirs(ts).value)
    decreases |ts|
  {
    hide Simple;
    if ts == [] || !RedirKind(ts[0].kind) {
      t := [];
      SimpleNone();
    } else {
      var t' := RedirsSound(ts[2..]);
      t := [ts[0], ts[1]] + t';
      assert ts == [ts[0], ts[1]] + ts[2..];
      assert t[2..] == t' && Redirs(ts).value[1..] == Redirs(ts[2..]).value;
      SimpleRedir(t, [], Redirs(ts).value, t', Redirs(ts[2..]).value);
    }
  }

  lemma {:induction false} ArgsSound(ts: seq<Token>, n: nat) returns (t: seq<Token>)
    requires Args(ts, n).Ok?
    ensures ts == t + Args(ts, n).rest && Simple(t, Args(ts, n).value.0, Args(ts, n).value.1)
    decreases |ts|
  {
    hide Simple;
    if StopsWords(ts) {
      t := [];
      SimpleNone();
    } else {
      var p, q := Args(ts, n), Redirs(ts[1..]);
      var p' := Args(q.rest, n + 1);
      var t1 := RedirsSound(ts[1..]);
      var t2 := ArgsSound(q.rest, n + 1);
      t := [ts[0]] + (t1 + t2);
      ArgsJoin(ts[0], t1, q.value, t2, p'.value.0, p'.value.1);
      Regroup(ts, t1, q.rest, t2, p.rest);
    }
  }

  lemma Regroup(ts: seq<Token>, t1: seq<Token>, q: seq<Token>, t2: seq<Token>, rest: seq<Token>)
    requires ts != [] && ts[1..] == t1 + q && q == t2 + rest
    ensures ts == [ts[0]] + (t1 + t2) + rest
  {
    assert ts == [ts[0]] + ts[1..];
  }

  lemma ArgsJoin(word: Token, t1: seq<Token>, r1: seq<Redirection>, t2: seq<Token>, w2: seq<Word>, r2: seq<Redirection>)
    requires word.kind == 'a' && Simple(t1, [], r1) && Simple(t2, w2, r2)
    ensures Simple([word] + (t1 + t2), [WordOf(word)] + w2, r1 + r2)
  {
    hide Simple;
    SimpleConcat(t1, [], r1, t2, w2, r2);
    assert [] + w2 == w2;
    assert ([word] + (t1 + t2))[1..] == t1 + t2 && ([WordOf(word)] + w2)[1..] == w2;
    SimpleWord([word] + (t1 + t2), [WordOf(word)] + w2, r1 + r2, t1 + t2, w2);
  }

  lemma SimpleNone()
    ensures Simple([], [], [])
  {
  }

  lemma {:induction false} CommandSound(ts: seq<Token>) returns (t: seq<Token>)
    requires Command(ts).Ok?
    ensures ts == t + Command(ts).rest && IsCommand(t, Command(ts).value)
    decreases |ts|, 0
  {
    hide IsCommand, Simple, IsLine;
    if ts != [] && ts[0].kind == '(' {
      var p := Line(ts[1..]);
      var inner := LineSound(ts[1..]);
      var after := RedirsSound(p.rest[1..]);
      t := [ts[0]] + inner + [p.rest[0]] + after;
      BlockStep(ts[0], inner, p.value, p.rest[0], after, Redirs(p.rest[1..]).value);
      Regroup2(ts, inner, p.rest, after, Redirs(p.rest[1..]).rest);
    } else {
      t := SimpleSound(ts);
    }
  }

  lemma Regroup2(ts: seq<Token>, inner: seq<Token>, q: seq<Token>, after: seq<Token>, rest: seq<Token>)
    requires ts != [] && ts[1..] == inner + q && q != [] && q[1..] == after + rest
    ensures ts == [ts[0]] + inner + [q[0]] + after + rest
  {
    assert ts == [ts[0]] + ts[1..] && q == [q[0]] + q[1..];
  }

  lemma SimpleSound(ts: seq<Token>) returns (t: seq<Token>)
    requires Command(ts).Ok? && !(ts != [] && ts[0].kind == '(')
    ensures ts == t + Command(ts).rest && IsCommand(t, Command(ts).value)
  {
    hide IsCommand, Simple, Args, Redirs, Wrap;
    var p := Redirs(ts);
    var q := Args(p.rest, 0);
    var t1 := RedirsSound(ts);
    var t2 := ArgsSound(p.rest, 0);
    t := t1 + t2;
    SimpleConcat(t1, [], p.value, t2, q.value.0, q.value.1);
    assert [] + q.value.0 == q.value.0;
    SimpleAlone(t, q.value.0, p.value + q.value.1);
  }

  lemma {:induction false} PipelineSound(ts: seq<Token>) returns (t: seq<Token>)
    requires Pipeline(ts).Ok?
    ensures ts == t + Pipeline(ts).rest && IsPipe(t, Pipeline(ts).value)
    decreases |ts|, 1
  {
    hide IsCommand, IsPipe;
    var p := Command(ts);
    var t1 := CommandSound(ts);
    if p.rest == [] || p.rest[0].kind != '|' {
      t := t1;
      CommandAlone(t, p.value);
    } else {
      var t2 := PipelineSound(p.rest[1..]);
      t := t1 + [p.rest[0]] + t2;
      PipeStep(t1, p.value, p.rest[0], t2, Pipeline(p.rest[1..]).value);
      assert p.rest == [p.rest[0]] + p.rest[1..];
    }
  }

  lemma {:induction false} BacksSound(t: seq<Token>, c: Cmd, ts: seq<Token>) returns (t': seq<Token>)
    requires IsBackgrounded(t, c)
    ensures t + ts == t' + Backs(c, ts).1 && IsBackgrounded(t', Backs(c, ts).0)
    decreases |ts|
  {
    hide IsBackgrounded;
    if ts != [] && ts[0].kind == '&' {
      BackStep(t, c, ts[0]);
      t' := BacksSound(t + [ts[0]], Back(c), ts[1..]);
      assert t + ts == t + [ts[0]] + ts[1..];
    } else {
      t' := t;
    }
  }

  lemma {:induction false} LineSound(ts: seq<Token>) returns (t: seq<Token>)
    requires Line(ts).Ok?
    ensures ts == t + Line(ts).rest && IsLine(t, Line(ts).value)
    decreases |ts|, 2
  {
    hide IsLine, IsBackgrounded, IsPipe, Pipeline, Backs;
    var p := Pipeline(ts);
    var t1 := PipelineSound(ts);
    PipeAlone(t1, p.value);
    var b := Backs(p.value, p.rest);
    var t2 := BacksSound(t1, p.value, p.rest);
    if b.1 == [] || b.1[0].kind != ';' {
      t := t2;
      LineAlone(t, b.0);
    } else {
      var t3 := LineSound(b.1[1..]);
      t := t2 + [b.1[0]] + t3;
      ListStep(t2, b.0, b.1[0], t3, Line(b.1[1..]).value);
      var rest := Line(b.1[1..]).rest;
      assert b.1 == [b.1[0]] + (t3 + rest);
      assert t2 + ([b.1[0]] + (t3 + rest)) == t + rest;
    }
  }

  // ----- everything in the grammar is found -----

  lemma {:induction false} RedirsComplete(t: seq<Token>, rs: seq<Redirection>, rest: seq<Token>)
    requires Simple(t, [], rs) && (rest == [] || !RedirKind(rest[0].kind))
    ensures Redirs(t + rest) == Ok(rs, rest)
    decreases |t|
  {
    hide Simple;
    SimpleCases(t, [], rs);
    if t == [] {
      assert t + rest == rest;
    } else {
      RedirsComplete(t[2..], rs[1..], rest);
      assert (t + rest)[2..] == t[2..] + rest;
      assert rs == [rs[0]] + rs[1..];
    }
  }

  /** The redirections before the first word. */
  lemma {:induction false} SplitRedirs(t: seq<Token>, w: seq<Word>, r: seq<Redirection>)
    returns (t1: seq<Token>, r1: seq<Redirection>, t2: seq<Token>, r2: seq<Redirection>)
    requires Simple(t, w, r)
    ensures t == t1 + t2 && r == r1 + r2 && Simple(t1, [], r1) && Simple(t2, w, r2) && (t2 == [] || t2[0].kind == 'a')
    decreases |t|
  {
    hide Simple;
    SimpleCases(t, w, r);
    SimpleNone();
    if t == [] || t[0].kind == 'a' {
      t1, r1, t2, r2 := [], [], t, r;
    } else {
      var t0, r0;
      t0, r0, t2, r2 := SplitRedirs(t[2..], w, r[1..]);
      t1, r1 := [t[0], t[1]] + t0, [r[0]] + r0;
      assert t == [t[0], t[1]] + t[2..] && r == [r[0]] + r[1..];
      assert t1[2..] == t0 && r1[1..] == r0;
      SimpleRedir(t1, [], r1, t0, r0);
    }
  }

  lemma ArgsStep(ts: seq<Token>, n: nat, rs: seq<Redirection>, q: seq<Token>, w: seq<Word>, r: seq<Redirection>,
                 rest: seq<Token>)
    requires ts != [] && ts[0].kind == 'a' && n + 1 < MAXARGS && Redirs(ts[1..]) == Ok(rs, q)
    requires Args(q, n + 1) == Ok((w, r), rest)
    ensures Args(ts, n) == Ok(([WordOf(ts[0])] + w, rs + r), rest)
  {
    hide Redirs;
  }

  lemma {:induction false} ArgsComplete(t: seq<Token>, w: seq<Word>, r: seq<Redirection>, rest: seq<Token>, n: nat)
    requires Simple(t, w, r) && (t == [] || t[0].kind == 'a') && StopsWords(rest) && n + |w| < MAXARGS
    ensures Args(t + rest, n) == Ok((w, r), rest)
    decreases |t|
  {
    hide Simple, Redirs, Args;
    SimpleCases(t, w, r);
    if t == [] {
      assert t + rest == rest;
      ArgsNone(rest, n);
    } else {
      var t1, r1, t2, r2 := SplitRedirs(t[1..], w[1..], r);
      RedirsComplete(t1, r1, t2 + rest);
      ArgsComplete(t2, w[1..], r2, rest, n + 1);
      Cons(t, t1, t2, rest);
      ArgsStep(t + rest, n, r1, t2 + rest, w[1..], r2, rest);
      assert w == [w[0]] + w[1..];
    }
  }

  lemma ArgsNone(rest: seq<Token>, n: nat)
    requires StopsWords(rest)
    ensures Args(rest, n) == Ok(([], []), rest)
  {
  }

  lemma Cons(t: seq<Token>, t1: seq<Token>, t2: seq<Token>, rest: seq<Token>)
    requires t != [] && t[1..] == t1 + t2
    ensures (t + rest)[1..] == t1 + (t2 + rest)
  {
    assert (t + rest)[1..] == t[1..] + rest;
  }

  lemma CommandStep(ts: seq<Token>, rs: seq<Redirection>, q: seq<Token>, w: seq<Word>, r: seq<Redirection>,
                    rest: seq<Token>)
    requires ts == [] || ts[0].kind != '('
    requires Redirs(ts) == Ok(rs, q) && Args(q, 0) == Ok((w, r), rest)
    ensures Command(ts) == Ok(Wrap(Exec(w), rs + r), rest)
  {
    hide Redirs, Args, Wrap, Line;
  }

  lemma SimpleComplete(t: seq<Token>, w: seq<Word>, r: seq<Redirection>, rest: seq<Token>)
    requires Simple(t, w, r) && |w| < MAXARGS && StopsWords(rest)
    ensures Command(t + rest) == Ok(Wrap(Exec(w), r), rest)
  {
    hide Simple, Redirs, Args, Wrap, Command;
    SimpleCases(t, w, r);
    var t1, r1, t2, r2 := SplitRedirs(t, w, r);
    RedirsComplete(t1, r1, t2 + rest);
    ArgsComplete(t2, w, r2, rest, 0);
    assert t + rest == t1 + (t2 + rest);
    assert (t + rest) == [] || (t + rest)[0] == (if t == [] then rest[0] else t[0]);
    CommandStep(t + rest, r1, t2 + rest, w, r2, rest);
  }

  predicate StopsPipe(ts: seq<Token>) {
    ts == [] || ts[0].kind == ')' || ts[0].kind == '&' || ts[0].kind == ';'
  }

  predicate StopsLine(ts: seq<Token>) {
    ts == [] || ts[0].kind == ')'
  }

  lemma {:induction false} CommandComplete(t: seq<Token>, c: Cmd, rest: seq<Token>)
    requires IsCommand(t, c) && StopsWords(rest)
    ensures Command(t + rest) == Ok(c, rest)
    decreases |t|, 0
  {
    hide Simple, Redirs, Args, Wrap, IsLine, Line;
    if w, r :| Simple(t, w, r) && |w| < MAXARGS && c == Wrap(Exec(w), r) {
      SimpleComplete(t, w, r, rest);
    } else {
      var j, inner, rs :| Block(t, j) && IsLine(t[1..j], inner) && Simple(t[j + 1..], [], rs) && c == Wrap(inner, rs);
      LineComplete(t[1..j], inner, t[j..] + rest);
      RedirsComplete(t[j + 1..], rs, rest);
      assert (t + rest)[1..] == t[1..j] + (t[j..] + rest);
      assert (t[j..] + rest)[1..] == t[j + 1..] + rest;
    }
  }

  lemma {:induction false} PipelineComplete(t: seq<Token>, c: Cmd, rest: seq<Token>)
    requires IsPipe(t, c) && StopsPipe(rest)
    ensures Pipeline(t + rest) == Ok(c, rest)
    decreases |t|, 1
  {
    hide Command, IsCommand;
    if IsCommand(t, c) {
      CommandComplete(t, c, rest);
    } else {
      var i :| 0 <= i < |t| && t[i].kind == '|' && IsCommand(t[..i], c.left) && IsPipe(t[i + 1..], c.right);
      CommandComplete(t[..i], c.left, t[i..] + rest);
      PipelineComplete(t[i + 1..], c.right, rest);
      assert t + rest == t[..i] + (t[i..] + rest);
      assert (t[i..] + rest)[1..] == t[i + 1..] + rest;
    }
  }

  lemma {:induction false} BacksComplete(t: seq<Token>, c: Cmd, rest: seq<Token>)
    requires IsBackgrounded(t, c) && StopsPipe(rest)
    ensures Pipeline(t + rest).Ok? && Backs(Pipeline(t + rest).value, Pipeline(t + rest).rest) == Backs(c, rest)
    decreases |t|, 2
  {
    hide Pipeline, IsPipe;
    if IsPipe(t, c) {
      PipelineComplete(t, c, rest);
    } else {
      var t', amp := t[..|t| - 1], t[|t| - 1];
      BacksComplete(t', c.cmd, [amp] + rest);
      assert t + rest == t' + ([amp] + rest);
      assert ([amp] + rest)[1..] == rest;
    }
  }

  lemma LineStep(ts: seq<Token>, c: Cmd, q: seq<Token>)
    requires Pipeline(ts).Ok? && Backs(Pipeline(ts).value, Pipeline(ts).rest) == (c, q)
    ensures q == [] || q[0].kind != ';' ==> Line(ts) == Ok(c, q)
    ensures q != [] && q[0].kind == ';' && Line(q[1..]).Ok? ==>
              Line(ts) == Ok(List(c, Line(q[1..]).value), Line(q[1..]).rest)
  {
    hide Pipeline, Backs;
  }

  lemma NoBacks(c: Cmd, q: seq<Token>)
    requires q == [] || q[0].kind != '&'
    ensures Backs(c, q) == (c, q)
  {
  }

  lemma {:induction false} LineComplete(t: seq<Token>, c: Cmd, rest: seq<Token>)
    requires IsLine(t, c) && StopsLine(rest)
    ensures Line(t + rest) == Ok(c, rest)
    decreases |t|, 3
  {
    hide Pipeline, IsBackgrounded, Line, Backs;
    if IsBackgrounded(t, c) {
      BacksComplete(t, c, rest);
      NoBacks(c, rest);
      LineStep(t + rest, c, rest);
    } else {
      var i :| 0 <= i < |t| && t[i].kind == ';' && IsBackgrounded(t[..i], c.left) && IsLine(t[i + 1..], c.right);
      var q := t[i..] + rest;
      BacksComplete(t[..i], c.left, q);
      NoBacks(c.left, q);
      LineComplete(t[i + 1..], c.right, rest);
      assert t + rest == t[..i] + q;
      assert q[1..] == t[i + 1..] + rest;
      LineStep(t + rest, c.left, q);
    }
  }

  /** The reference parser finds c for the whole of ts exactly when c is a tree of ts, so a
      line has at most one tree. */
  lemma ParsesIff(ts: seq<Token>, c: Cmd)
    ensures Line(ts) == Ok(c, []) <==> IsLine(ts, c)
  {
    hide Line, IsLine;
    if Line(ts) == Ok(c, []) {
      var t := LineSound(ts);
      assert t + [] == t;
    }
    if IsLine(ts, c) {
      LineComplete(ts, c, []);
      assert ts + [] == ts;
    }
  }

  lemma ParseOutcome(ts: seq<Token>)
    ensures Line(ts).Fail? || Line(ts).rest != [] ==> forall c :: !IsLine(ts, c)
    ensures Line(ts).Ok? && Line(ts).rest == [] ==> IsLine(ts, Line(ts).value)
  {
    hide Line, IsLine;
    forall c
      ensures Line(ts) == Ok(c, []) <==> IsLine(ts, c)
    {
      ParsesIff(ts, c);
    }
  }

  lemma Unambiguous(ts: seq<Token>, c: Cmd, d: Cmd)
    requires IsLine(ts, c) && IsLine(ts, d)
    ensures c == d
  {
    hide Line, IsLine;
    ParsesIff(ts, c);
    ParsesIff(ts, d);
  }

  // ----- the words of a command -----

  ghost function Words(c: Cmd): seq<Word> {
    match c
    case Exec(argv) => argv
    case Redir(c1, to) => Words(c1) + [to.file]
    case Pipe(l, r) => Words(l) + Words(r)
    case List(l, r) => Words(l) + Words(r)
    case Back(c1) => Words(c1)
  }

  /** w is one of the word tokens of t. */
  ghost predicate IsWordOf(t: seq<Token>, w: Word) {
    exists k :: 0 <= k < |t| && t[k].kind == 'a' && WordOf(t[k]) == w
  }

  ghost predicate AllWordsOf(t: seq<Token>, c: Cmd) {
    forall w :: w in Words(c) ==> IsWordOf(t, w)
  }

  lemma PartWord(t: seq<Token>, a: nat, b: nat, w: Word)
    requires a <= b <= |t| && IsWordOf(t[a..b], w)
    ensures IsWordOf(t, w)
  {
    var k :| 0 <= k < b - a && t[a..b][k].kind == 'a' && WordOf(t[a..b][k]) == w;
    assert t[a + k] == t[a..b][k];
  }

  lemma PartWords(t: seq<Token>, a: nat, b: nat, c: Cmd)
    requires a <= b <= |t| && AllWordsOf(t[a..b], c)
    ensures AllWordsOf(t, c)
  {
    forall w | w in Words(c)
      ensures IsWordOf(t, w)
    {
      PartWord(t, a, b, w);
    }
  }

  lemma {:induction false} SimpleWords(t: seq<Token>, w: seq<Word>, r: seq<Redirection>)
    requires Simple(t, w, r)
    ensures forall x :: x in w ==> IsWordOf(t, x)
    ensures forall x :: x in r ==> IsWordOf(t, x.file)
    decreases |t|
  {
    hide Simple;
    SimpleCases(t, w, r);
    if t != [] && t[0].kind == 'a' {
      SimpleWords(t[1..], w[1..], r);
      assert w == [w[0]] + w[1..];
      assert t[1..|t|] == t[1..];
      forall x | IsWordOf(t[1..], x) ensures IsWordOf(t, x) { PartWord(t, 1, |t|, x); }
    } else if t != [] {
      SimpleWords(t[2..], w, r[1..]);
      assert r == [r[0]] + r[1..];
      assert t[2..|t|] == t[2..];
      forall x | IsWordOf(t[2..], x) ensures IsWordOf(t, x) { PartWord(t, 2, |t|, x); }
    }
  }

  lemma {:induction false} WrapWords(t: seq<Token>, c: Cmd, rs: seq<Redirection>)
    requires AllWordsOf(t, c) && forall x :: x in rs ==> IsWordOf(t, x.file)
    ensures AllWordsOf(t, Wrap(c, rs))
    decreases |rs|
  {
    if rs == [] {
    } else {
      WrapWords(t, c, rs[..|rs| - 1]);
      assert rs[|rs| - 1] in rs;
    }
  }

  lemma {:induction false} CommandWords(t: seq<Token>, c: Cmd)
    requires IsCommand(t, c)
    ensures AllWordsOf(t, c)
    decreases |t|, 0
  {
    hide Simple, IsLine, Wrap, IsWordOf;
    if w, r :| Simple(t, w, r) && |w| < MAXARGS && c == Wrap(Exec(w), r) {
      SimpleWords(t, w, r);
      WrapWords(t, Exec(w), r);
    } else {
      var j, inner, rs :| Block(t, j) && IsLine(t[1..j], inner) && Simple(t[j + 1..], [], rs) && c == Wrap(inner, rs);
      LineWords(t[1..j], inner);
      PartWords(t, 1, j, inner);
      SimpleWords(t[j + 1..], [], rs);
      assert t[j + 1..|t|] == t[j + 1..];
      forall x: Redirection | x in rs ensures IsWordOf(t, x.file) { PartWord(t, j + 1, |t|, x.file); }
      WrapWords(t, inner, rs);
    }
  }

  lemma {:induction false} PipeWords(t: seq<Token>, c: Cmd)
    requires IsPipe(t, c)
    ensures AllWordsOf(t, c)
    decreases |t|, 1
  {
    hide IsCommand, IsWordOf;
    if IsCommand(t, c) {
      CommandWords(t, c);
    } else {
      var i :| 0 <= i < |t| && t[i].kind == '|' && IsCommand(t[..i], c.left) && IsPipe(t[i + 1..], c.right);
      CommandWords(t[..i], c.left);
      PipeWords(t[i + 1..], c.right);
      assert t[0..i] == t[..i] && t[i + 1..|t|] == t[i + 1..];
      PartWords(t, 0, i, c.left);
      PartWords(t, i + 1, |t|, c.right);
    }
  }

  lemma {:induction false} BackWords(t: seq<Token>, c: Cmd)
    requires IsBackgrounded(t, c)
    ensures AllWordsOf(t, c)
    decreases |t|, 2
  {
    hide IsPipe, IsWordOf;
    if IsPipe(t, c) {
      PipeWords(t, c);
    } else {
      BackWords(t[..|t| - 1], c.cmd);
      PartWords(t, 0, |t| - 1, c.cmd);
    }
  }

  lemma {:induction false} LineWords(t: seq<Token>, c: Cmd)
    requires IsLine(t, c)
    ensures AllWordsOf(t, c)
    decreases |t|, 3
  {
    hide IsBackgrounded, IsWordOf;
    if IsBackgrounded(t, c) {
      BackWords(t, c);
    } else {
      var i :| 0 <= i < |t| && t[i].kind == ';' && IsBackgrounded(t[..i], c.left) && IsLine(t[i + 1..], c.right);
      BackWords(t[..i], c.left);
      LineWords(t[i + 1..], c.right);
      assert t[0..i] == t[..i] && t[i + 1..|t|] == t[i + 1..];
      PartWords(t, 0, i, c.left);
      PartWords(t, i + 1, |t|, c.right);
    }
  }

  /** w covers a whole word of the line: nothing but word characters, and none behind. */
  ghost predicate WholeWord(s: string, w: Word) {
    w.q < w.eq <= |s| && !WordChar(s, w.eq) && forall j :: w.q <= j < w.eq ==> WordChar(s, j)
  }

  lemma {:induction false} TokensWhole(s: string, i: nat, w: Word)
    requires i <= |s| && IsWordOf(Tokens(s, i), w)
    ensures WholeWord(s, w)
    decreases |s| - i
  {
    var ts := Tokens(s, i);
    var k :| 0 <= k < |ts| && ts[k].kind == 'a' && WordOf(ts[k]) == w;
    if k == 0 {
    } else {
      assert ts[k] == ts[1..][k - 1];
      TokensWhole(s, ts[0].eq, w);
    }
  }

  // ----- steps of the derivations -----

  lemma SimpleAlone(t: seq<Token>, argv: seq<Word>, rs: seq<Redirection>)
    requires Simple(t, argv, rs) && |argv| < MAXARGS
    ensures IsCommand(t, Wrap(Exec(argv), rs))
  {
    hide IsLine, Simple, Wrap;
  }

  lemma BlockStep(open: Token, inner: seq<Token>, c: Cmd, close: Token, after: seq<Token>, rs: seq<Redirection>)
    requires open.kind == '(' && close.kind == ')' && IsLine(inner, c) && Simple(after, [], rs)
    ensures IsCommand([open] + inner + [close] + after, Wrap(c, rs))
  {
    hide IsLine, Simple;
    var t, j := [open] + inner + [close] + after, |inner| + 1;
    assert t[1..j] == inner && t[j + 1..] == after && Block(t, j);
  }

  lemma CommandAlone(t: seq<Token>, c: Cmd)
    requires IsCommand(t, c)
    ensures IsPipe(t, c)
  {
  }

  lemma PipeAlone(t: seq<Token>, c: Cmd)
    requires IsPipe(t, c)
    ensures IsBackgrounded(t, c)
  {
  }

  lemma LineAlone(t: seq<Token>, c: Cmd)
    requires IsBackgrounded(t, c)
    ensures IsLine(t, c)
  {
  }

  lemma PipeStep(t1: seq<Token>, l: Cmd, bar: Token, t2: seq<Token>, r: Cmd)
    requires IsCommand(t1, l) && bar.kind == '|' && IsPipe(t2, r)
    ensures IsPipe(t1 + [bar] + t2, Pipe(l, r))
  {
    hide IsCommand;
    var t, i := t1 + [bar] + t2, |t1|;
    assert t[..i] == t1 && t[i + 1..] == t2 && t[i] == bar;
  }

  lemma BackStep(t: seq<Token>, c: Cmd, amp: Token)
    requires IsBackgrounded(t, c) && amp.kind == '&'
    ensures IsBackgrounded(t + [amp], Back(c))
  {
    hide IsPipe;
    assert (t + [amp])[..|t|] == t;
  }

  lemma ListStep(t1: seq<Token>, l: Cmd, semi: Token, t2: seq<Token>, r: Cmd)
    requires IsBackgrounded(t1, l) && semi.kind == ';' && IsLine(t2, r)
    ensures IsLine(t1 + [semi] + t2, List(l, r))
  {
    hide IsBackgrounded;
    var t, i := t1 + [semi] + t2, |t1|;
    assert t[..i] == t1 && t[i + 1..] == t2 && t[i] == semi;
  }
}
