/** The parser against the grammar: exactly the lines that spell a sentence are accepted, and each gives the tree of
    its sentence. */
module ShellRoundTrip {
  import opened Common
  import opened ShellModel
  import opened ShellLexer
  import opened ShellGrammar

  // ---------------------------------------------------------------- what a tree records

  function Slice(s: string, w: Span): string {
    if w.q <= w.eq <= |s| then s[w.q..w.eq] else ""
  }

  function Slices(s: string, args: seq<Span>): (r: seq<string>)
    ensures |r| == |args|
  {
    if args == [] then [] else Slices(s, args[..|args| - 1]) + [Slice(s, args[|args| - 1])]
  }

  /** The tree with its spans replaced by the words they span. */
  function Text(s: string, cmd: Cmd): Ast {
    match cmd
    case Exec(args) => Run(Slices(s, args))
    case Redir(c, to) => Into(Text(s, c), Slice(s, to.file), to.output)
    case Pipe(l, r) => PipeTo(Text(s, l), Text(s, r))
    case List(l, r) => Then(Text(s, l), Text(s, r))
    case Back(c) => InBack(Text(s, c))
  }

  /** The redirections recorded are these ones. */
  ghost predicate Same(s: string, list: seq<Redirection>, arrows: seq<Arrow>) {
    |list| == |arrows| && forall i :: 0 <= i < |list| ==>
      Slice(s, list[i].file) == arrows[i].file && list[i].output == (arrows[i].op != Sym('<'))
  }

  lemma {:induction false} WrapText(s: string, cmd: Cmd, list: seq<Redirection>, arrows: seq<Arrow>)
    requires Same(s, list, arrows)
    ensures Text(s, Wrap(cmd, list)) == Around(Text(s, cmd), arrows)
    decreases |list|
  {
    if list != [] {
      var n := |list| - 1;
      var to, a, first := list[n], arrows[n], arrows[..n];
      assert Slice(s, to.file) == a.file && to.output == (a.op != Sym('<'));
      WrapText(s, cmd, list[..n], first);
      AroundLast(Text(s, cmd), first, a);
      assert first + [a] == arrows;
    }
  }

  lemma SameMore(s: string, list: seq<Redirection>, arrows: seq<Arrow>, to: Redirection, a: Arrow)
    requires Same(s, list, arrows) && Slice(s, to.file) == a.file && to.output == (a.op != Sym('<'))
    ensures Same(s, list + [to], arrows + [a])
  {
  }

  // ---------------------------------------------------------------- the next token

  /** The tokens from p on. Kept folded. */
  ghost predicate At(s: string, p: nat, toks: seq<Tok>) {
    forall u {:trigger Look(u)} :: Look(u) ==> p <= |s| && Lex(s, p) == toks
  }

  /** What gettoken returns for a token, and where the parser sees it. */
  ghost predicate Seen(s: string, t: Token, tok: Tok, c: char) {
    match tok
    case Sym(d) => t.kind == d == c && IsSymbol(c)
    case Append => t.kind == '+' && c == '>'
    case Word(w) => t.kind == 'a' && IsWord(c) && Slice(s, t.span) == w
  }

  lemma Head(s: string, p: nat, toks: seq<Tok>)
    requires At(s, p, toks)
    ensures p <= |s| && Skip(s, Skip(s, p)) == Skip(s, p) && GetToken(s, Skip(s, p)) == GetToken(s, p) && At(s, Skip(s, p), toks)
    ensures if toks == [] then Cur(s, Skip(s, p)) == '\0' == GetToken(s, p).kind
            else Seen(s, GetToken(s, p), toks[0], Cur(s, Skip(s, p))) && At(s, GetToken(s, p).next, toks[1..])
  {
    assert Look(0);
    SkipTwice(s, p);
    LexSkips(s, p);
  }

  /** The same for a token list that is split. */
  lemma HeadOf(s: string, p: nat, tok: Tok, rest: seq<Tok>)
    requires At(s, p, [tok] + rest)
    ensures p <= |s| && Skip(s, Skip(s, p)) == Skip(s, p) && GetToken(s, Skip(s, p)) == GetToken(s, p) && At(s, Skip(s, p), [tok] + rest)
    ensures Seen(s, GetToken(s, p), tok, Cur(s, Skip(s, p))) && At(s, GetToken(s, p).next, rest)
  {
    Head(s, p, [tok] + rest);
    assert ([tok] + rest)[1..] == rest;
  }

  /** What may come after a sentence of this level. */
  predicate Follows(level: nat, rest: seq<Tok>) {
    rest == [] || rest[0] == Sym(')') || (level <= 2 && rest[0] == Sym(';')) || (level <= 1 && rest[0] == Sym('&')) || (level == 0 && rest[0] == Sym('|'))
  }

  predicate NoArrow(rest: seq<Tok>) {
    rest == [] || !IsOp(rest[0])
  }

  // ---------------------------------------------------------------- what the parser makes of it, kept folded

  ghost predicate RedirsIs(s: string, p: nat, rs: seq<Redirection>, list: seq<Redirection>, e: nat) {
    forall u {:trigger Unfold(u)} :: Unfold(u) ==> p <= |s| && e <= |s| && ParseRedirs(s, p, rs) == Redirs(list, e)
  }

  ghost predicate ArgsIs(s: string, p: nat, args: seq<Span>, rs: seq<Redirection>, cmd: Cmd, e: nat) {
    forall u {:trigger Unfold(u)} :: Unfold(u) ==> p <= |s| && e <= |s| && ParseArgs(s, p, args, rs) == Ok(cmd, e)
  }

  ghost predicate ExecIs(s: string, p: nat, cmd: Cmd, e: nat) {
    forall u {:trigger Unfold(u)} :: Unfold(u) ==> p <= |s| && e <= |s| && ParseExec(s, p) == Ok(cmd, e)
  }

  ghost predicate PipeIs(s: string, p: nat, cmd: Cmd, e: nat) {
    forall u {:trigger Unfold(u)} :: Unfold(u) ==> p <= |s| && e <= |s| && ParsePipe(s, p) == Ok(cmd, e)
  }

  /** parseline with its loop over & at e, and cmd made so far. */
  ghost predicate BackIs(s: string, p: nat, cmd: Cmd, e: nat) {
    forall u {:trigger Unfold(u)} :: Unfold(u) ==>
      && p <= |s| && e <= |s| && ParsePipe(s, p).Ok?
      && ParseBack(s, ParsePipe(s, p).pos, ParsePipe(s, p).cmd) == ParseBack(s, e, cmd)
  }

  ghost predicate LineIs(s: string, p: nat, cmd: Cmd, e: nat) {
    forall u {:trigger Unfold(u)} :: Unfold(u) ==> p <= |s| && e <= |s| && ParseLine(s, p) == Ok(cmd, e)
  }

  // ---------------------------------------------------------------- every sentence is accepted

  lemma RedirsEnd(s: string, p: nat, rs: seq<Redirection>, rest: seq<Tok>)
    requires At(s, p, rest) && NoArrow(rest)
    ensures p <= |s| && RedirsIs(s, p, rs, rs, Skip(s, p)) && At(s, Skip(s, p), rest)
  {
    Head(s, p, rest);
  }

  lemma RedirsStep(s: string, p: nat, rs: seq<Redirection>, a: Arrow, rest: seq<Tok>) returns (q: nat, to: Redirection)
    requires At(s, p, [a.op] + ([Word(a.file)] + rest)) && IsOp(a.op)
    ensures At(s, q, rest) && Slice(s, to.file) == a.file && to.output == (a.op != Sym('<'))
    ensures forall list, e :: RedirsIs(s, q, rs + [to], list, e) ==> RedirsIs(s, p, rs, list, e)
  {
    HeadOf(s, p, a.op, [Word(a.file)] + rest);
    var tok := GetToken(s, p);
    HeadOf(s, tok.next, Word(a.file), rest);
    var file := GetToken(s, tok.next);
    q, to := file.next, Redirection(file.span, tok.kind != '<');
    forall list, e | RedirsIs(s, q, rs + [to], list, e) ensures RedirsIs(s, p, rs, list, e) {
      assert Unfold(0);
    }
  }

  lemma {:induction false} RedirsParse(arrows: seq<Arrow>, s: string, p: nat, rs: seq<Redirection>, done: seq<Arrow>, rest: seq<Tok>)
      returns (list: seq<Redirection>, e: nat)
    requires ArrowsOk(arrows) && At(s, p, ArrowToks(arrows, rest)) && NoArrow(rest) && Same(s, rs, done)
    ensures RedirsIs(s, p, rs, list, e) && Same(s, list, done + arrows) && At(s, e, rest)
    decreases |arrows|
  {
    if arrows == [] {
      RedirsEnd(s, p, rs, rest);
      list, e := rs, Skip(s, p);
      assert done + [] == done;
    } else {
      var a := arrows[0];
      var q, to := RedirsStep(s, p, rs, a, ArrowToks(arrows[1..], rest));
      SameMore(s, rs, done, to, a);
      list, e := RedirsParse(arrows[1..], s, q, rs + [to], done + [a], rest);
      assert done + [a] + arrows[1..] == done + arrows;
    }
  }

  lemma ArgsEnd(s: string, p: nat, args: seq<Span>, rs: seq<Redirection>, rest: seq<Tok>) returns (e: nat)
    requires At(s, p, rest) && Follows(0, rest)
    ensures ArgsIs(s, p, args, rs, Wrap(Exec(args), rs), e) && At(s, e, rest)
  {
    Head(s, p, rest);
    e := Skip(s, p);
  }

  lemma ArgsStep(s: string, p: nat, args: seq<Span>, rs: seq<Redirection>, q: nat, more: seq<Redirection>, m: nat, cmd: Cmd, e: nat)
    requires p <= |s| && |args| + 1 < MAXARGS && IsWord(Cur(s, Skip(s, p))) && GetToken(s, Skip(s, p)) == GetToken(s, p)
    requires GetToken(s, p).kind == 'a' && GetToken(s, p).next == q && RedirsIs(s, q, rs, more, m)
    requires ArgsIs(s, m, args + [GetToken(s, p).span], more, cmd, e)
    ensures ArgsIs(s, p, args, rs, cmd, e)
  {
    assert Unfold(0);
  }

  lemma ArgsFollow(args: seq<Arg>, rest: seq<Tok>)
    requires Follows(0, rest)
    ensures NoArrow(ArgToks(args, rest)) && (ArgToks(args, rest) == [] || ArgToks(args, rest)[0] != Sym('('))
  {
  }

  lemma SlicesMore(s: string, spans: seq<Span>, w: Span)
    ensures Slices(s, spans + [w]) == Slices(s, spans) + [Slice(s, w)]
  {
    assert (spans + [w])[..|spans|] == spans;
  }

  lemma OneMore(args: seq<Arg>, words: seq<string>, done: seq<Arrow>)
    requires args != []
    ensures words + [args[0].word] + WordsOf(args[1..]) == words + WordsOf(args)
    ensures done + args[0].arrows + ArrowsOf(args[1..]) == done + ArrowsOf(args)
  {
    Regroup(words, [args[0].word], WordsOf(args[1..]));
    Regroup(done, args[0].arrows, ArrowsOf(args[1..]));
  }

  lemma Regroup<T>(a: seq<T>, b: seq<T>, c: seq<T>)
    ensures a + b + c == a + (b + c)
  {
  }

  lemma {:induction false} ArgsParse(args: seq<Arg>, s: string, p: nat, spans: seq<Span>, rs: seq<Redirection>, words: seq<string>, done: seq<Arrow>, rest: seq<Tok>)
      returns (cmd: Cmd, e: nat)
    requires ArgsOk(args) && |spans| + |args| < MAXARGS && At(s, p, ArgToks(args, rest)) && Follows(0, rest)
    requires Slices(s, spans) == words && Same(s, rs, done)
    ensures ArgsIs(s, p, spans, rs, cmd, e) && At(s, e, rest)
    ensures Text(s, cmd) == Around(Run(words + WordsOf(args)), done + ArrowsOf(args))
    decreases |args|
  {
    if args == [] {
      e := ArgsEnd(s, p, spans, rs, rest);
      cmd := Wrap(Exec(spans), rs);
      WrapText(s, Exec(spans), rs, done);
      assert words + [] == words && done + [] == done;
    } else {
      var a, tail := args[0], args[1..];
      HeadOf(s, p, Word(a.word), ArrowToks(a.arrows, ArgToks(tail, rest)));
      var t := GetToken(s, p);
      ArgsFollow(tail, rest);
      var more, m := RedirsParse(a.arrows, s, t.next, rs, done, ArgToks(tail, rest));
      SlicesMore(s, spans, t.span);
      cmd, e := ArgsParse(tail, s, m, spans + [t.span], more, words + [a.word], done + a.arrows, rest);
      OneMore(args, words, done);
      ArgsStep(s, p, spans, rs, t.next, more, m, cmd, e);
    }
  }

  lemma SimpleIs(s: string, p: nat, list: seq<Redirection>, m: nat, cmd: Cmd, e: nat)
    requires p <= |s| && Cur(s, Skip(s, p)) != '(' && RedirsIs(s, Skip(s, p), [], list, m) && ArgsIs(s, m, [], list, cmd, e)
    ensures ExecIs(s, p, cmd, e)
  {
    assert Unfold(0);
  }

  lemma {:induction false} SimpleParse(x: Syntax, s: string, p: nat, rest: seq<Tok>) returns (cmd: Cmd, e: nat)
    requires x.Simple? && WellPlaced(x) && At(s, p, Toks(x, rest)) && Follows(0, rest)
    ensures ExecIs(s, p, cmd, e) && Text(s, cmd) == Tree(x) && At(s, e, rest)
  {
    ArgsFollow(x.args, rest);
    Head(s, p, Toks(x, rest));
    if x.arrows != [] { assert IsOp(x.arrows[0].op); }
    var list, m := RedirsParse(x.arrows, s, Skip(s, p), [], [], ArgToks(x.args, rest));
    assert [] + x.arrows == x.arrows;
    cmd, e := ArgsParse(x.args, s, m, [], list, [], x.arrows, rest);
    assert [] + WordsOf(x.args) == WordsOf(x.args);
    SimpleIs(s, p, list, m, cmd, e);
  }

  lemma CloseIs(s: string, sub: Cmd, m: nat, list: seq<Redirection>, e: nat)
    requires m <= |s| && Cur(s, Skip(s, m)) == ')' && GetToken(s, Skip(s, m)) == GetToken(s, m) && RedirsIs(s, GetToken(s, m).next, [], list, e)
    ensures CloseBlock(s, Ok(sub, m)) == Ok(Wrap(sub, list), e)
  {
    assert Unfold(0);
  }

  lemma GroupIs(s: string, p: nat, sub: Cmd, m: nat, list: seq<Redirection>, e: nat)
    requires p <= |s| && Cur(s, Skip(s, p)) == '(' && Skip(s, Skip(s, p)) == Skip(s, p) && GetToken(s, Skip(s, p)) == GetToken(s, p)
    requires LineIs(s, GetToken(s, p).next, sub, m) && m <= |s| && CloseBlock(s, Ok(sub, m)) == Ok(Wrap(sub, list), e)
    ensures ExecIs(s, p, Wrap(sub, list), e)
  {
    assert Unfold(0);
  }

  lemma {:induction false} GroupParse(x: Syntax, s: string, p: nat, rest: seq<Tok>) returns (cmd: Cmd, e: nat)
    requires x.Group? && WellPlaced(x) && At(s, p, Toks(x, rest)) && Follows(0, rest)
    ensures ExecIs(s, p, cmd, e) && Text(s, cmd) == Tree(x) && At(s, e, rest)
    decreases x, 0
  {
    var after := ArrowToks(x.arrows, rest);
    HeadOf(s, p, Sym('('), Toks(x.line, [Sym(')')] + after));
    var sub, m := LineParse(x.line, s, GetToken(s, p).next, [Sym(')')] + after);
    HeadOf(s, m, Sym(')'), after);
    var list;
    list, e := RedirsParse(x.arrows, s, GetToken(s, m).next, [], [], rest);
    assert [] + x.arrows == x.arrows;
    WrapText(s, sub, list, x.arrows);
    CloseIs(s, sub, m, list, e);
    cmd := Wrap(sub, list);
    GroupIs(s, p, sub, m, list, e);
  }

  lemma PipeEnd(s: string, p: nat, cmd: Cmd, m: nat, rest: seq<Tok>) returns (e: nat)
    requires ExecIs(s, p, cmd, m) && At(s, m, rest) && Follows(1, rest)
    ensures PipeIs(s, p, cmd, e) && At(s, e, rest)
  {
    Head(s, m, rest);
    e := Skip(s, m);
    assert Unfold(0);
  }

  lemma PipeOf(s: string, p: nat, left: Cmd, m: nat, right: Cmd, e: nat)
    requires m <= |s| && ExecIs(s, p, left, m) && Cur(s, Skip(s, m)) == '|' && GetToken(s, Skip(s, m)) == GetToken(s, m)
    requires PipeIs(s, GetToken(s, m).next, right, e)
    ensures PipeIs(s, p, Pipe(left, right), e)
  {
    assert Unfold(0);
  }

  lemma {:induction false} PipeParse(x: Syntax, s: string, p: nat, rest: seq<Tok>) returns (cmd: Cmd, e: nat)
    requires WellPlaced(x) && Level(x) <= 1 && At(s, p, Toks(x, rest)) && Follows(1, rest)
    ensures PipeIs(s, p, cmd, e) && Text(s, cmd) == Tree(x) && At(s, e, rest)
    decreases x, 2
  {
    if x.Piped? {
      var after := Toks(x.right, rest);
      var left, m := ExecParse(x.left, s, p, [Sym('|')] + after);
      HeadOf(s, m, Sym('|'), after);
      var right;
      right, e := PipeParse(x.right, s, GetToken(s, m).next, rest);
      cmd := Pipe(left, right);
      PipeOf(s, p, left, m, right, e);
    } else {
      var m;
      cmd, m := ExecParse(x, s, p, rest);
      e := PipeEnd(s, p, cmd, m, rest);
    }
  }

  lemma {:induction false} ExecParse(x: Syntax, s: string, p: nat, rest: seq<Tok>) returns (cmd: Cmd, e: nat)
    requires WellPlaced(x) && Level(x) == 0 && At(s, p, Toks(x, rest)) && Follows(0, rest)
    ensures ExecIs(s, p, cmd, e) && Text(s, cmd) == Tree(x) && At(s, e, rest)
    decreases x, 1
  {
    if x.Simple? {
      cmd, e := SimpleParse(x, s, p, rest);
    } else {
      cmd, e := GroupParse(x, s, p, rest);
    }
  }

  lemma BackStart(s: string, p: nat, cmd: Cmd, e: nat)
    requires PipeIs(s, p, cmd, e)
    ensures BackIs(s, p, cmd, e)
  {
    assert Unfold(0);
  }

  lemma BackMore(s: string, p: nat, cmd: Cmd, m: nat)
    requires BackIs(s, p, cmd, m) && m <= |s| && Cur(s, Skip(s, m)) == '&' && GetToken(s, Skip(s, m)) == GetToken(s, m)
    ensures BackIs(s, p, Back(cmd), GetToken(s, m).next)
  {
    assert Unfold(0);
  }

  lemma {:induction false} BackParse(x: Syntax, s: string, p: nat, rest: seq<Tok>) returns (cmd: Cmd, e: nat)
    requires WellPlaced(x) && Level(x) <= 2 && At(s, p, Toks(x, rest)) && Follows(1, rest)
    ensures BackIs(s, p, cmd, e) && Text(s, cmd) == Tree(x) && At(s, e, rest)
    decreases x, 3
  {
    if x.Backed? {
      var sub, m := BackParse(x.cmd, s, p, [Sym('&')] + rest);
      HeadOf(s, m, Sym('&'), rest);
      BackMore(s, p, sub, m);
      cmd, e := Back(sub), GetToken(s, m).next;
    } else {
      cmd, e := PipeParse(x, s, p, rest);
      BackStart(s, p, cmd, e);
    }
  }

  lemma LineEnd(s: string, p: nat, cmd: Cmd, m: nat, rest: seq<Tok>) returns (e: nat)
    requires BackIs(s, p, cmd, m) && At(s, m, rest) && Follows(3, rest)
    ensures LineIs(s, p, cmd, e) && At(s, e, rest)
  {
    Head(s, m, rest);
    e := Skip(s, m);
    assert ParseBack(s, m, cmd) == Ok(cmd, e);
    assert Unfold(0);
  }

  lemma ListOf(s: string, p: nat, left: Cmd, m: nat, right: Cmd, e: nat)
    requires m <= |s| && BackIs(s, p, left, m) && Cur(s, Skip(s, m)) == ';' && Skip(s, Skip(s, m)) == Skip(s, m)
    requires GetToken(s, Skip(s, m)) == GetToken(s, m) && LineIs(s, GetToken(s, m).next, right, e)
    ensures LineIs(s, p, List(left, right), e)
  {
    assert ParseBack(s, m, left) == Ok(left, Skip(s, m));
    assert Unfold(0);
  }

  lemma {:induction false} LineParse(x: Syntax, s: string, p: nat, rest: seq<Tok>) returns (cmd: Cmd, e: nat)
    requires WellPlaced(x) && At(s, p, Toks(x, rest)) && Follows(3, rest)
    ensures LineIs(s, p, cmd, e) && Text(s, cmd) == Tree(x) && At(s, e, rest)
    decreases x, 4
  {
    if x.Listed? {
      var after := Toks(x.right, rest);
      var left, m := BackParse(x.left, s, p, [Sym(';')] + after);
      HeadOf(s, m, Sym(';'), after);
      var right;
      right, e := LineParse(x.right, s, GetToken(s, m).next, rest);
      cmd := List(left, right);
      ListOf(s, p, left, m, right, e);
    } else {
      var m;
      cmd, m := BackParse(x, s, p, rest);
      e := LineEnd(s, p, cmd, m, rest);
    }
  }

  // ---------------------------------------------------------------- nothing else is accepted

  /** The next token, as the tokens go on from it. */
  lemma Next(s: string, p: nat)
    requires p <= |s|
    ensures Lex(s, Skip(s, p)) == Lex(s, p) && GetToken(s, Skip(s, p)) == GetToken(s, p) && Skip(s, Skip(s, p)) == Skip(s, p)
    ensures var t := GetToken(s, p);
            if t.kind == '\0' then Lex(s, p) == [] && Cur(s, Skip(s, p)) == '\0'
            else Lex(s, p) == [TokOf(s, t)] + Lex(s, t.next) && Seen(s, t, TokOf(s, t), Cur(s, Skip(s, p))) && TokOk(TokOf(s, t)) && Cur(s, Skip(s, p)) != '\0'
  {
    SkipTwice(s, p);
    LexSkips(s, p);
    if GetToken(s, p).kind != '\0' { TokenIs(s, p); }
  }

  lemma RedirRead(s: string, p: nat) returns (a: Arrow)
    requires p <= |s| && (Cur(s, Skip(s, p)) == '<' || Cur(s, Skip(s, p)) == '>') && GetToken(s, GetToken(s, Skip(s, p)).next).kind == 'a'
    ensures var tok := GetToken(s, Skip(s, p)); var file := GetToken(s, tok.next);
            && IsOp(a.op) && WordOk(a.file) && Slice(s, file.span) == a.file && (tok.kind != '<') == (a.op != Sym('<'))
            && Lex(s, p) == [a.op] + ([Word(a.file)] + Lex(s, file.next))
  {
    Next(s, p);
    var tok := GetToken(s, p);
    Next(s, tok.next);
    a := Arrow(TokOf(s, tok), Slice(s, GetToken(s, tok.next).span));
  }

  lemma {:induction false} RedirsRead(s: string, p: nat, rs: seq<Redirection>, done: seq<Arrow>) returns (arrows: seq<Arrow>)
    requires p <= |s| && Same(s, rs, done) && ParseRedirs(s, p, rs).Redirs?
    ensures ArrowsOk(arrows) && Same(s, ParseRedirs(s, p, rs).list, done + arrows)
    ensures Lex(s, p) == ArrowToks(arrows, Lex(s, ParseRedirs(s, p, rs).pos))
    decreases |s| - p
  {
    if Cur(s, Skip(s, p)) == '<' || Cur(s, Skip(s, p)) == '>' {
      var tok := GetToken(s, Skip(s, p));
      var file := GetToken(s, tok.next);
      var to := Redirection(file.span, tok.kind != '<');
      var a := RedirRead(s, p);
      SameMore(s, rs, done, to, a);
      var tail := RedirsRead(s, file.next, rs + [to], done + [a]);
      arrows := [a] + tail;
      Regroup(done, [a], tail);
      assert arrows[1..] == tail;
    } else {
      Next(s, p);
      arrows := [];
      assert done + [] == done;
    }
  }

  lemma ArgsReadEnd(s: string, p: nat, spans: seq<Span>, rs: seq<Redirection>, words: seq<string>, done: seq<Arrow>)
    requires p <= |s| && Slices(s, spans) == words && Same(s, rs, done)
    requires EndsExec(Cur(s, Skip(s, p))) || GetToken(s, Skip(s, p)).kind == '\0'
    ensures ParseArgs(s, p, spans, rs).Ok? && Lex(s, ParseArgs(s, p, spans, rs).pos) == Lex(s, p)
    ensures Text(s, ParseArgs(s, p, spans, rs).cmd) == Around(Run(words + []), done + [])
  {
    Next(s, p);
    WrapText(s, Exec(spans), rs, done);
    assert words + [] == words && done + [] == done;
  }

  lemma ArgsReadStep(s: string, p: nat, spans: seq<Span>, rs: seq<Redirection>)
    requires p <= |s| && ParseArgs(s, p, spans, rs).Ok? && !EndsExec(Cur(s, Skip(s, p))) && GetToken(s, Skip(s, p)).kind != '\0'
    ensures var t := GetToken(s, p);
            && ParseRedirs(s, t.next, rs).Redirs? && |spans| + 1 < MAXARGS && WordOk(Slice(s, t.span)) && p < t.next
            && ParseArgs(s, p, spans, rs) == ParseArgs(s, ParseRedirs(s, t.next, rs).pos, spans + [t.span], ParseRedirs(s, t.next, rs).list)
            && Lex(s, p) == [Word(Slice(s, t.span))] + Lex(s, t.next)
  {
    Next(s, p);
  }

  lemma ArgsCons(args: seq<Arg>, w: string, arrows: seq<Arrow>, tail: seq<Arg>, words: seq<string>, done: seq<Arrow>, rest: seq<Tok>)
    requires args == [Arg(w, arrows)] + tail && WordOk(w) && ArrowsOk(arrows) && ArgsOk(tail)
    ensures ArgsOk(args) && |args| == |tail| + 1 && ArgToks(args, rest) == [Word(w)] + ArrowToks(arrows, ArgToks(tail, rest))
    ensures words + [w] + WordsOf(tail) == words + WordsOf(args) && done + arrows + ArrowsOf(tail) == done + ArrowsOf(args)
  {
    assert args[1..] == tail;
    OneMore(args, words, done);
  }

  lemma {:induction false} ArgsRead(s: string, p: nat, spans: seq<Span>, rs: seq<Redirection>, words: seq<string>, done: seq<Arrow>) returns (args: seq<Arg>)
    requires p <= |s| && Slices(s, spans) == words && Same(s, rs, done) && |spans| < MAXARGS && ParseArgs(s, p, spans, rs).Ok?
    ensures ArgsOk(args) && |spans| + |args| < MAXARGS && Lex(s, p) == ArgToks(args, Lex(s, ParseArgs(s, p, spans, rs).pos))
    ensures Text(s, ParseArgs(s, p, spans, rs).cmd) == Around(Run(words + WordsOf(args)), done + ArrowsOf(args))
    decreases |s| - p
  {
    if EndsExec(Cur(s, Skip(s, p))) || GetToken(s, Skip(s, p)).kind == '\0' {
      ArgsReadEnd(s, p, spans, rs, words, done);
      args := [];
    } else {
      ArgsReadStep(s, p, spans, rs);
      var t := GetToken(s, p);
      var w, more := Slice(s, t.span), ParseRedirs(s, t.next, rs);
      var arrows := RedirsRead(s, t.next, rs, done);
      SlicesMore(s, spans, t.span);
      var tail := ArgsRead(s, more.pos, spans + [t.span], more.list, words + [w], done + arrows);
      args := [Arg(w, arrows)] + tail;
      ArgsCons(args, w, arrows, tail, words, done, Lex(s, ParseArgs(s, p, spans, rs).pos));
    }
  }

  lemma SimpleStarts(s: string, p: nat)
    requires p <= |s| && ParseExec(s, p).Ok? && Cur(s, Skip(s, p)) != '('
    ensures var rs := ParseRedirs(s, Skip(s, p), []); rs.Redirs? && ParseExec(s, p) == ParseArgs(s, rs.pos, [], rs.list)
    ensures Lex(s, Skip(s, p)) == Lex(s, p)
  {
    Next(s, p);
  }

  lemma {:induction false} SimpleRead(s: string, p: nat) returns (x: Syntax)
    requires p <= |s| && ParseExec(s, p).Ok? && Cur(s, Skip(s, p)) != '('
    ensures WellPlaced(x) && Level(x) == 0 && Tree(x) == Text(s, ParseExec(s, p).cmd) && Lex(s, p) == Toks(x, Lex(s, ParseExec(s, p).pos))
  {
    var k := Skip(s, p);
    SimpleStarts(s, p);
    var rs := ParseRedirs(s, k, []);
    var arrows := RedirsRead(s, k, [], []);
    assert [] + arrows == arrows;
    var args := ArgsRead(s, rs.pos, [], rs.list, [], arrows);
    assert [] + WordsOf(args) == WordsOf(args);
    x := Simple(arrows, args);
  }

  /** A parenthesised line: where it starts, and where it ends. */
  lemma GroupStarts(s: string, p: nat) returns (q: nat)
    requires p <= |s| && ParseExec(s, p).Ok? && Cur(s, Skip(s, p)) == '('
    ensures p < q <= |s| && Lex(s, p) == [Sym('(')] + Lex(s, q) && ParseLine(s, q).Ok? && ParseExec(s, p) == CloseBlock(s, ParseLine(s, q))
  {
    Next(s, p);
    q := GetToken(s, p).next;
  }

  lemma GroupEnds(s: string, sub: Cmd, m: nat) returns (arrows: seq<Arrow>)
    requires m <= |s| && CloseBlock(s, Ok(sub, m)).Ok?
    ensures var r := CloseBlock(s, Ok(sub, m));
            ArrowsOk(arrows) && Text(s, r.cmd) == Around(Text(s, sub), arrows) && Lex(s, m) == [Sym(')')] + ArrowToks(arrows, Lex(s, r.pos))
  {
    Next(s, m);
    var q := GetToken(s, m).next;
    arrows := RedirsRead(s, q, [], []);
    assert [] + arrows == arrows;
    WrapText(s, sub, ParseRedirs(s, q, []).list, arrows);
  }

  lemma {:induction false} ExecRead(s: string, p: nat) returns (x: Syntax)
    requires p <= |s| && ParseExec(s, p).Ok?
    ensures WellPlaced(x) && Level(x) == 0 && Tree(x) == Text(s, ParseExec(s, p).cmd) && Lex(s, p) == Toks(x, Lex(s, ParseExec(s, p).pos))
    decreases |s| - p, 1
  {
    if Cur(s, Skip(s, p)) == '(' {
      var q := GroupStarts(s, p);
      var line := ParseLine(s, q);
      var sub := LineRead(s, q);
      var arrows := GroupEnds(s, line.cmd, line.pos);
      x := Group(sub, arrows);
    } else {
      x := SimpleRead(s, p);
    }
  }

  lemma SymRead(s: string, p: nat, c: char)
    requires p <= |s| && Cur(s, Skip(s, p)) == c && (c == '|' || c == '&' || c == ';')
    ensures GetToken(s, Skip(s, p)) == GetToken(s, p) && p < GetToken(s, p).next && Lex(s, p) == [Sym(c)] + Lex(s, GetToken(s, p).next)
  {
    Next(s, p);
  }

  lemma {:induction false} PipeRead(s: string, p: nat) returns (x: Syntax)
    requires p <= |s| && ParsePipe(s, p).Ok?
    ensures WellPlaced(x) && Level(x) <= 1 && Tree(x) == Text(s, ParsePipe(s, p).cmd) && Lex(s, p) == Toks(x, Lex(s, ParsePipe(s, p).pos))
    decreases |s| - p, 2
  {
    var left := ExecRead(s, p);
    var m := ParseExec(s, p).pos;
    if Cur(s, Skip(s, m)) == '|' {
      SymRead(s, m, '|');
      var right := PipeRead(s, GetToken(s, m).next);
      x := Piped(left, right);
    } else {
      Next(s, m);
      x := left;
    }
  }

  /** The loop over &, with sentence x0 read before p. */
  lemma {:induction false} BackRead(s: string, p: nat, cmd: Cmd, x0: Syntax) returns (x: Syntax)
    requires p <= |s| && WellPlaced(x0) && Level(x0) <= 2 && Tree(x0) == Text(s, cmd)
    ensures var r := ParseBack(s, p, cmd);
            WellPlaced(x) && Level(x) <= 2 && Tree(x) == Text(s, r.cmd) && Toks(x0, Lex(s, p)) == Toks(x, Lex(s, r.pos))
    decreases |s| - p
  {
    if Cur(s, Skip(s, p)) == '&' {
      SymRead(s, p, '&');
      x := BackRead(s, GetToken(s, p).next, Back(cmd), Backed(x0));
    } else {
      Next(s, p);
      x := x0;
    }
  }

  /** The line up to its first semicolon, or its end. */
  lemma {:induction false} LeftRead(s: string, p: nat) returns (x: Syntax, left: Cmd, e: nat)
    requires p <= |s| && ParseLine(s, p).Ok?
    ensures p <= e <= |s| && WellPlaced(x) && Level(x) <= 2 && Tree(x) == Text(s, left) && Lex(s, p) == Toks(x, Lex(s, e))
    ensures ParseLine(s, p) == LineAfter(s, left, e)
    decreases |s| - p, 3
  {
    var pipe := ParsePipe(s, p);
    var first := PipeRead(s, p);
    var back := ParseBack(s, pipe.pos, pipe.cmd);
    x := BackRead(s, pipe.pos, pipe.cmd, first);
    left, e := back.cmd, back.pos;
  }

  /** parseline after its loop over &. */
  function LineAfter(s: string, left: Cmd, e: nat): Result
    requires e <= |s|
  {
    var k := Skip(s, e);
    if Cur(s, k) != ';' then Ok(left, k)
    else
      var right := ParseLine(s, GetToken(s, k).next);
      if right.Panic? then Panic else Ok(List(left, right.cmd), right.pos)
  }

  lemma {:induction false} LineRead(s: string, p: nat) returns (x: Syntax)
    requires p <= |s| && ParseLine(s, p).Ok?
    ensures WellPlaced(x) && Tree(x) == Text(s, ParseLine(s, p).cmd) && Lex(s, p) == Toks(x, Lex(s, ParseLine(s, p).pos))
    decreases |s| - p, 4
  {
    var left, cmd, e := LeftRead(s, p);
    if Cur(s, Skip(s, e)) == ';' {
      SymRead(s, e, ';');
      var q := GetToken(s, e).next;
      var right := LineRead(s, q);
      x := Listed(left, right);
      ListRead(s, left, cmd, e, q, right);
    } else {
      x := left;
      LeftIsLine(s, cmd, e);
    }
  }

  lemma LeftIsLine(s: string, cmd: Cmd, e: nat)
    requires e <= |s| && Cur(s, Skip(s, e)) != ';'
    ensures var r := LineAfter(s, cmd, e); r.Ok? && r.cmd == cmd && r.pos <= |s| && Lex(s, r.pos) == Lex(s, e)
  {
    Next(s, e);
  }

  lemma ListRead(s: string, left: Syntax, cmd: Cmd, e: nat, q: nat, right: Syntax)
    requires e <= |s| && q <= |s| && Cur(s, Skip(s, e)) == ';' && q == GetToken(s, Skip(s, e)).next && Lex(s, e) == [Sym(';')] + Lex(s, q)
    requires ParseLine(s, q).Ok? && Tree(left) == Text(s, cmd) && Tree(right) == Text(s, ParseLine(s, q).cmd)
    requires Lex(s, q) == Toks(right, Lex(s, ParseLine(s, q).pos))
    ensures var r := LineAfter(s, cmd, e);
            && r.Ok? && r.pos <= |s| && Text(s, r.cmd) == Tree(Listed(left, right))
            && Toks(left, Lex(s, e)) == Toks(Listed(left, right), Lex(s, r.pos))
  {
  }

  // ---------------------------------------------------------------- the language

  lemma {:induction false} ArrowToksOk(arrows: seq<Arrow>, rest: seq<Tok>)
    requires ArrowsOk(arrows) && ToksOk(rest)
    ensures ToksOk(ArrowToks(arrows, rest))
    decreases |arrows|
  {
    if arrows != [] { ArrowToksOk(arrows[1..], rest); }
  }

  lemma {:induction false} ArgToksOk(args: seq<Arg>, rest: seq<Tok>)
    requires ArgsOk(args) && ToksOk(rest)
    ensures ToksOk(ArgToks(args, rest))
    decreases |args|
  {
    if args != [] {
      ArgToksOk(args[1..], rest);
      ArrowToksOk(args[0].arrows, ArgToks(args[1..], rest));
    }
  }

  lemma {:induction false} SentenceToksOk(x: Syntax, rest: seq<Tok>)
    requires WellPlaced(x) && ToksOk(rest)
    ensures ToksOk(Toks(x, rest))
    decreases x
  {
    match x
    case Simple(arrows, args) =>
      ArgToksOk(args, rest);
      ArrowToksOk(arrows, ArgToks(args, rest));
    case Group(line, arrows) =>
      ArrowToksOk(arrows, rest);
      SentenceToksOk(line, [Sym(')')] + ArrowToks(arrows, rest));
    case Piped(l, r) =>
      SentenceToksOk(r, rest);
      SentenceToksOk(l, [Sym('|')] + Toks(r, rest));
    case Backed(c) =>
      SentenceToksOk(c, [Sym('&')] + rest);
    case Listed(l, r) =>
      SentenceToksOk(r, rest);
      SentenceToksOk(l, [Sym(';')] + Toks(r, rest));
  }

  /** The line spells sentence x, with white space as it likes. */
  ghost predicate IsSentence(s: string, x: Syntax, gaps: seq<string>) {
    WellPlaced(x) && GapsOk(Toks(x, []), gaps) && s == Write(Toks(x, []), gaps)
  }

  lemma {:induction false} SentenceParses(s: string, x: Syntax, gaps: seq<string>)
    requires CString(s) && IsSentence(s, x, gaps)
    ensures ParseCmd(s).Ok? && Text(s, ParseCmd(s).cmd) == Tree(x)
  {
    SentenceToksOk(x, []);
    LexWrite(Toks(x, []), gaps);
    assert At(s, 0, Toks(x, []));
    var cmd, e := LineParse(x, s, 0, []);
    Head(s, e, []);
    assert Unfold(0);
  }

  lemma {:induction false} ParsesAreSentences(s: string) returns (x: Syntax, gaps: seq<string>)
    requires CString(s) && ParseCmd(s).Ok?
    ensures IsSentence(s, x, gaps)
  {
    x := LineRead(s, 0);
    Next(s, ParseLine(s, 0).pos);
    gaps := WriteLex(s);
  }

  /** The outcome r is a command if and only if the line spells a sentence, and then its tree is the sentence's:
      every word as an argument or a file, every redirection around its command in the order written, and the
      operators by their precedences. Kept folded. */
  ghost predicate ReadRight(s: string, r: Option<Cmd>) {
    forall u {:trigger Look(u)} :: Look(u) ==>
      && (r.Some? <==> exists x, gaps :: IsSentence(s, x, gaps))
      && (r.Some? ==> forall x, gaps :: IsSentence(s, x, gaps) ==> Text(s, r.value) == Tree(x))
  }

  /** Exactly the lines that spell a sentence are accepted, and each gives the tree of its sentence. */
  lemma {:induction false} AcceptsExactly(s: string)
    requires CString(s)
    ensures ReadRight(s, if ParseCmd(s).Ok? then Some(ParseCmd(s).cmd) else None)
  {
    if ParseCmd(s).Ok? {
      var x, gaps := ParsesAreSentences(s);
    }
    forall x, gaps | IsSentence(s, x, gaps) ensures ParseCmd(s).Ok? && Text(s, ParseCmd(s).cmd) == Tree(x) {
      SentenceParses(s, x, gaps);
    }
  }

  /** Round trip: every command tree with non-empty words, fewer than MAXARGS to a command, is what parsing its
      sentence gives, whatever white space stands between the tokens. */
  lemma RoundTrip(t: Ast, gaps: seq<string>)
    requires WellFormed(t) && GapsOk(Toks(SentenceFor(t), []), gaps)
    ensures var s := Write(Toks(SentenceFor(t), []), gaps);
            ParseCmd(s).Ok? && Text(s, ParseCmd(s).cmd) == t
  {
    var x := SentenceFor(t);
    SentenceForTree(t);
    SentenceToksOk(x, []);
    WriteNoNul(Toks(x, []), gaps);
    SentenceParses(Write(Toks(x, []), gaps), x, gaps);
  }
}
