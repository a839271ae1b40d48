/** The command language of xv6-l/sh.c: its tokens, its grammar as the parser reads it, and a printer. The
    words of a command are spans of the input, as in the source, where they are pairs of pointers. */
module ShellModel {

  const MAXARGS: nat := 10

  predicate IsSpace(c: char) {
    c == ' ' || c == '\t' || c == '\r' || c == '\n' || c == '\U{0b}'
  }

  predicate IsSymbol(c: char) {
    c == '<' || c == '|' || c == '>' || c == '&' || c == ';' || c == '(' || c == ')'
  }

  predicate IsWord(c: char) {
    !IsSpace(c) && !IsSymbol(c) && c != '\0'
  }

  /** A line of input without its terminating NUL. */
  ghost predicate CString(s: string) {
    forall i :: 0 <= i < |s| ==> s[i] != '\0'
  }

  /** *s, where the end of the line holds the NUL. */
  function Cur(s: string, p: nat): char {
    if p < |s| then s[p] else '\0'
  }

  function Skip(s: string, p: nat): (r: nat)
    requires p <= |s|
    ensures p <= r <= |s| && !IsSpace(Cur(s, r))
    decreases |s| - p
  {
    if p < |s| && IsSpace(s[p]) then Skip(s, p + 1) else p
  }

  function WordEnd(s: string, p: nat): (r: nat)
    requires p <= |s|
    ensures p <= r <= |s|
    decreases |s| - p
  {
    if p < |s| && IsWord(s[p]) then WordEnd(s, p + 1) else p
  }

  datatype Span = Span(q: nat, eq: nat)

  /** A span is a word that the line cannot extend to the right. */
  ghost predicate IsSpan(s: string, w: Span) {
    w.q < w.eq <= |s| && !IsWord(Cur(s, w.eq)) && forall k :: w.q <= k < w.eq ==> IsWord(s[k])
  }

  /** kind is what gettoken returns: the symbol, '+' for >>, 'a' for a word, NUL at the end. */
  datatype Token = Token(kind: char, span: Span, next: nat)

  function GetToken(s: string, p: nat): (r: Token)
    requires p <= |s|
    ensures p <= r.next <= |s| && (r.kind != '\0' ==> p < r.next)
    ensures r.span.q <= r.span.eq <= |s|
  {
    var q := Skip(s, p);
    var c := Cur(s, q);
    if c == '\0' then Token(c, Span(q, q), q)
    else if c == '>' && Cur(s, q + 1) == '>' then Token('+', Span(q, q + 2), Skip(s, q + 2))
    else if IsSymbol(c) then Token(c, Span(q, q + 1), Skip(s, q + 1))
    else Token('a', Span(q, WordEnd(s, q)), Skip(s, WordEnd(s, q)))
  }

  // ---------------------------------------------------------------- commands

  /** output: opened for writing as descriptor 1, with > and >> alike; else for reading as descriptor 0. */
  datatype Redirection = Redirection(file: Span, output: bool)

  datatype Cmd =
    | Exec(args: seq<Span>)
    | Redir(cmd: Cmd, to: Redirection)
    | Pipe(left: Cmd, right: Cmd)
    | List(left: Cmd, right: Cmd)
    | Back(cmd: Cmd)

  datatype Result = Ok(cmd: Cmd, pos: nat) | Panic

  datatype Redirs = Redirs(list: seq<Redirection>, pos: nat) | NoFile

  /** Each redirection goes around the command that the ones before it have made. */
  function Wrap(cmd: Cmd, rs: seq<Redirection>): Cmd {
    if rs == [] then cmd else Redir(Wrap(cmd, rs[..|rs| - 1]), rs[|rs| - 1])
  }

  // ---------------------------------------------------------------- the parser

  /** parseredirs, after the redirections rs. */
  function ParseRedirs(s: string, p: nat, rs: seq<Redirection>): (r: Redirs)
    requires p <= |s|
    ensures r.Redirs? ==> p <= r.pos <= |s|
    decreases |s| - p
  {
    var k := Skip(s, p);
    if Cur(s, k) == '<' || Cur(s, k) == '>' then
      var tok := GetToken(s, k);
      var file := GetToken(s, tok.next);
      if file.kind != 'a' then NoFile else ParseRedirs(s, file.next, rs + [Redirection(file.span, tok.kind != '<')])
    else Redirs(rs, k)
  }

  predicate EndsExec(c: char) {
    c == '|' || c == ')' || c == '&' || c == ';'
  }

  /** parseexec's loop, after the words args and the redirections rs. */
  function ParseArgs(s: string, p: nat, args: seq<Span>, rs: seq<Redirection>): (r: Result)
    requires p <= |s|
    ensures r.Ok? ==> p <= r.pos <= |s|
    decreases |s| - p
  {
    var k := Skip(s, p);
    if EndsExec(Cur(s, k)) then Ok(Wrap(Exec(args), rs), k)
    else
      var tok := GetToken(s, k);
      if tok.kind == '\0' then Ok(Wrap(Exec(args), rs), tok.next)
      else if tok.kind != 'a' then Panic
      else if |args| + 1 >= MAXARGS then Panic
      else
        var more := ParseRedirs(s, tok.next, rs);
        if more.NoFile? then Panic else ParseArgs(s, more.pos, args + [tok.span], more.list)
  }

  function ParseExec(s: string, p: nat): (r: Result)
    requires p <= |s|
    ensures r.Ok? ==> p <= r.pos <= |s|
    decreases |s| - p, 1
  {
    var k := Skip(s, p);
    if Cur(s, k) == '(' then ParseBlock(s, k)
    else
      var rs := ParseRedirs(s, k, []);
      if rs.NoFile? then Panic else ParseArgs(s, rs.pos, [], rs.list)
  }

  function ParseBlock(s: string, p: nat): (r: Result)
    requires p <= |s|
    ensures r.Ok? ==> p <= r.pos <= |s|
    decreases |s| - p, 0
  {
    var k := Skip(s, p);
    if Cur(s, k) != '(' then Panic else CloseBlock(s, ParseLine(s, GetToken(s, k).next))
  }

  /** parseblock after its line: the closing parenthesis and the redirections. */
  function CloseBlock(s: string, line: Result): (r: Result)
    requires line.Ok? ==> line.pos <= |s|
    ensures r.Ok? ==> line.Ok? && line.pos <= r.pos <= |s|
  {
    if line.Panic? then Panic
    else
      var e := Skip(s, line.pos);
      if Cur(s, e) != ')' then Panic
      else
        var rs := ParseRedirs(s, GetToken(s, e).next, []);
        if rs.NoFile? then Panic else Ok(Wrap(line.cmd, rs.list), rs.pos)
  }

  function ParsePipe(s: string, p: nat): (r: Result)
    requires p <= |s|
    ensures r.Ok? ==> p <= r.pos <= |s|
    decreases |s| - p, 2
  {
    var left := ParseExec(s, p);
    if left.Panic? then Panic
    else
      var k := Skip(s, left.pos);
      if Cur(s, k) != '|' then Ok(left.cmd, k)
      else
        var right := ParsePipe(s, GetToken(s, k).next);
        if right.Panic? then Panic else Ok(Pipe(left.cmd, right.cmd), right.pos)
  }

  /** parseline's loop over &. */
  function ParseBack(s: string, p: nat, cmd: Cmd): (r: Result)
    requires p <= |s|
    ensures r.Ok? && p <= r.pos <= |s|
    decreases |s| - p
  {
    var k := Skip(s, p);
    if Cur(s, k) == '&' then ParseBack(s, GetToken(s, k).next, Back(cmd)) else Ok(cmd, k)
  }

  function ParseLine(s: string, p: nat): (r: Result)
    requires p <= |s|
    ensures r.Ok? ==> p <= r.pos <= |s|
    decreases |s| - p, 3
  {
    var pipe := ParsePipe(s, p);
    if pipe.Panic? then Panic
    else
      var left := ParseBack(s, pipe.pos, pipe.cmd);
      var k := Skip(s, left.pos);
      if Cur(s, k) != ';' then Ok(left.cmd, k)
      else
        var right := ParseLine(s, GetToken(s, k).next);
        if right.Panic? then Panic else Ok(List(left.cmd, right.cmd), right.pos)
  }

  /** parsecmd, up to the NULs it writes. */
  function ParseCmd(s: string): (r: Result)
    ensures r.Ok? ==> r.pos == |s|
  {
    var r := ParseLine(s, 0);
    if r.Ok? && Skip(s, r.pos) == |s| then Ok(r.cmd, |s|) else Panic
  }

  // ---------------------------------------------------------------- every word recorded is a word of the line

  ghost predicate Spans(s: string, cmd: Cmd) {
    match cmd
    case Exec(args) => |args| < MAXARGS && forall i :: 0 <= i < |args| ==> IsSpan(s, args[i])
    case Redir(c, to) => Spans(s, c) && IsSpan(s, to.file)
    case Pipe(l, r) => Spans(s, l) && Spans(s, r)
    case List(l, r) => Spans(s, l) && Spans(s, r)
    case Back(c) => Spans(s, c)
  }

  ghost predicate Files(s: string, rs: seq<Redirection>) {
    forall i :: 0 <= i < |rs| ==> IsSpan(s, rs[i].file)
  }

  lemma {:induction false} WrapSpans(s: string, cmd: Cmd, rs: seq<Redirection>)
    requires Spans(s, cmd) && Files(s, rs)
    ensures Spans(s, Wrap(cmd, rs))
  {
    if rs != [] { WrapSpans(s, cmd, rs[..|rs| - 1]); }
  }

  lemma TokenSpan(s: string, p: nat)
    requires p <= |s| && GetToken(s, p).kind == 'a'
    ensures IsSpan(s, GetToken(s, p).span)
  {
    WordEndSpan(s, Skip(s, p));
  }

  lemma {:induction false} WordEndSpan(s: string, p: nat)
    requires p <= |s|
    ensures !IsWord(Cur(s, WordEnd(s, p))) && forall k :: p <= k < WordEnd(s, p) ==> IsWord(s[k])
    decreases |s| - p
  {
    if p < |s| && IsWord(s[p]) { WordEndSpan(s, p + 1); }
  }

  lemma {:induction false} RedirSpans(s: string, p: nat, rs: seq<Redirection>)
    requires p <= |s| && Files(s, rs) && ParseRedirs(s, p, rs).Redirs?
    ensures Files(s, ParseRedirs(s, p, rs).list)
    decreases |s| - p
  {
    var k := Skip(s, p);
    if Cur(s, k) == '<' || Cur(s, k) == '>' {
      var tok := GetToken(s, k);
      var file := GetToken(s, tok.next);
      TokenSpan(s, tok.next);
      RedirSpans(s, file.next, rs + [Redirection(file.span, tok.kind != '<')]);
    }
  }

  lemma {:induction false} ArgSpans(s: string, p: nat, args: seq<Span>, rs: seq<Redirection>)
    requires p <= |s| && Spans(s, Exec(args)) && Files(s, rs) && ParseArgs(s, p, args, rs).Ok?
    ensures Spans(s, ParseArgs(s, p, args, rs).cmd)
    decreases |s| - p
  {
    var k := Skip(s, p);
    var tok := GetToken(s, k);
    if EndsExec(Cur(s, k)) || tok.kind == '\0' {
      WrapSpans(s, Exec(args), rs);
    } else {
      TokenSpan(s, k);
      RedirSpans(s, tok.next, rs);
      var more := ParseRedirs(s, tok.next, rs);
      ArgSpans(s, more.pos, args + [tok.span], more.list);
    }
  }

  lemma {:induction false} ExecSpans(s: string, p: nat)
    requires p <= |s| && ParseExec(s, p).Ok?
    ensures Spans(s, ParseExec(s, p).cmd)
    decreases |s| - p, 1
  {
    var k := Skip(s, p);
    if Cur(s, k) == '(' {
      BlockSpans(s, k);
    } else {
      RedirSpans(s, k, []);
      var rs := ParseRedirs(s, k, []);
      ArgSpans(s, rs.pos, [], rs.list);
    }
  }

  lemma {:induction false} BlockSpans(s: string, p: nat)
    requires p <= |s| && ParseBlock(s, p).Ok?
    ensures Spans(s, ParseBlock(s, p).cmd)
    decreases |s| - p, 0
  {
    var next := GetToken(s, Skip(s, p)).next;
    LineSpans(s, next);
    var line := ParseLine(s, next);
    var after := GetToken(s, Skip(s, line.pos)).next;
    RedirSpans(s, after, []);
    WrapSpans(s, line.cmd, ParseRedirs(s, after, []).list);
  }

  lemma {:induction false} PipeSpans(s: string, p: nat)
    requires p <= |s| && ParsePipe(s, p).Ok?
    ensures Spans(s, ParsePipe(s, p).cmd)
    decreases |s| - p, 2
  {
    ExecSpans(s, p);
    var k := Skip(s, ParseExec(s, p).pos);
    if Cur(s, k) == '|' { PipeSpans(s, GetToken(s, k).next); }
  }

  lemma {:induction false} BackSpans(s: string, p: nat, cmd: Cmd)
    requires p <= |s| && Spans(s, cmd)
    ensures Spans(s, ParseBack(s, p, cmd).cmd)
    decreases |s| - p
  {
    var k := Skip(s, p);
    if Cur(s, k) == '&' { BackSpans(s, GetToken(s, k).next, Back(cmd)); }
  }

  lemma {:induction false} LineSpans(s: string, p: nat)
    requires p <= |s| && ParseLine(s, p).Ok?
    ensures Spans(s, ParseLine(s, p).cmd)
    decreases |s| - p, 3
  {
    PipeSpans(s, p);
    var pipe := ParsePipe(s, p);
    BackSpans(s, pipe.pos, pipe.cmd);
    var k := Skip(s, ParseBack(s, pipe.pos, pipe.cmd).pos);
    if Cur(s, k) == ';' { LineSpans(s, GetToken(s, k).next); }
  }
}
