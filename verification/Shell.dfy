/** The parser of xv6-l/sh.c: a cursor over the line, advanced by loops, and the NULs that nulterminate
    writes into the line once it is parsed. The argument vector of an exec command and the redirections
    around it are collected while parseexec runs and put together when it returns. */
module Shell {
  import opened Common
  import opened ShellModel
  import opened ShellRoundTrip

  class Parser {
    const line: string
    var pos: nat

    ghost predicate Valid()
      reads this
    {
      pos <= |line| && CString(line)
    }

    constructor (s: string)
      requires CString(s)
      ensures Valid() && line == s && pos == 0
    {
      line, pos := s, 0;
    }

    method SkipSpace(from: nat) returns (p: nat)
      requires from <= |line|
      ensures p == Skip(line, from)
    {
      p := from;
      while p < |line| && IsSpace(line[p])
        invariant p <= |line| && Skip(line, p) == Skip(line, from)
      {
        p := p + 1;
      }
    }

    method Gettoken() returns (kind: char, q: nat, eq: nat)
      requires Valid()
      modifies this
      ensures Valid() && Token(kind, Span(q, eq), pos) == GetToken(line, old(pos))
    {
      var p := SkipSpace(pos);
      q := p;
      kind := Cur(line, p);
      if kind == '\0' {
      } else if kind == '>' {
        p := p + 1;
        if Cur(line, p) == '>' {
          kind := '+';
          p := p + 1;
        }
      } else if IsSymbol(kind) {
        p := p + 1;
      } else {
        kind := 'a';
        while p < |line| && !IsSpace(line[p]) && !IsSymbol(line[p])
          invariant q <= p <= |line| && WordEnd(line, p) == WordEnd(line, q)
        {
          p := p + 1;
        }
      }
      eq := p;
      pos := SkipSpace(p);
    }

    method Peek(toks: string) returns (r: bool)
      requires Valid()
      modifies this
      ensures Valid() && pos == Skip(line, old(pos)) && (r <==> pos < |line| && line[pos] in toks)
    {
      pos := SkipSpace(pos);
      r := Cur(line, pos) != '\0' && Cur(line, pos) in toks;
    }

    /** One more redirection after rs; none is a missing file name. */
    method Parseredirs(rs: seq<Redirection>) returns (r: Option<seq<Redirection>>)
      requires Valid()
      modifies this
      ensures Valid() && old(pos) <= pos
      ensures ParseRedirs(line, old(pos), rs) == if r.Some? then Redirs(r.value, pos) else NoFile
    {
      var list := rs;
      var more := Peek("<>");
      while more
        invariant Valid() && old(pos) <= pos && Skip(line, pos) == pos && (more <==> Cur(line, pos) == '<' || Cur(line, pos) == '>')
        invariant ParseRedirs(line, pos, list) == ParseRedirs(line, old(pos), rs)
        decreases |line| - pos, more
      {
        var tok, _, _ := Gettoken();
        var kind, q, eq := Gettoken();
        if kind != 'a' {
          return None;
        }
        list := list + [Redirection(Span(q, eq), tok != '<')];
        more := Peek("<>");
      }
      r := Some(list);
    }

    method Parseline() returns (r: Option<Cmd>)
      requires Valid()
      modifies this
      ensures Valid() && old(pos) <= pos && ParseLine(line, old(pos)) == Outcome(r, pos)
      decreases |line| - pos, 3
    {
      var cmd := Parsepipe();
      if cmd.None? { return None; }
      var c := cmd.value;
      ghost var start := pos;
      var more := Peek("&");
      while more
        invariant Valid() && start <= pos && Skip(line, pos) == pos && (more <==> Cur(line, pos) == '&')
        invariant ParseBack(line, pos, c) == ParseBack(line, start, cmd.value)
        decreases |line| - pos
      {
        var _, _, _ := Gettoken();
        c := Back(c);
        more := Peek("&");
      }
      more := Peek(";");
      if more {
        var _, _, _ := Gettoken();
        var right := Parseline();
        if right.None? { return None; }
        c := List(c, right.value);
      }
      r := Some(c);
    }

    method Parsepipe() returns (r: Option<Cmd>)
      requires Valid()
      modifies this
      ensures Valid() && old(pos) <= pos && ParsePipe(line, old(pos)) == Outcome(r, pos)
      decreases |line| - pos, 2
    {
      r := Parseexec();
      if r.None? { return None; }
      var more := Peek("|");
      if more {
        var _, _, _ := Gettoken();
        var right := Parsepipe();
        if right.None? { return None; }
        r := Some(Pipe(r.value, right.value));
      }
    }

    method Parseblock() returns (r: Option<Cmd>)
      requires Valid()
      modifies this
      ensures Valid() && old(pos) <= pos && ParseBlock(line, old(pos)) == Outcome(r, pos)
      decreases |line| - pos, 0
    {
      var open := Peek("(");
      if !open { return None; }
      var _, _, _ := Gettoken();
      var cmd := Parseline();
      if cmd.None? { return None; }
      var close := Peek(")");
      if !close { return None; }
      var _, _, _ := Gettoken();
      var rs := Parseredirs([]);
      if rs.None? { return None; }
      r := Some(Wrap(cmd.value, rs.value));
    }

    method Parseexec() returns (r: Option<Cmd>)
      requires Valid()
      modifies this
      ensures Valid() && old(pos) <= pos && ParseExec(line, old(pos)) == Outcome(r, pos)
      decreases |line| - pos, 1
    {
      var open := Peek("(");
      if open {
        r := Parseblock();
        return;
      }
      var rs := Parseredirs([]);
      if rs.None? { return None; }
      r := Arguments(rs.value);
    }

    /** parseexec's loop. */
    method Arguments(redirs: seq<Redirection>) returns (r: Option<Cmd>)
      requires Valid()
      modifies this
      ensures Valid() && old(pos) <= pos && ParseArgs(line, old(pos), [], redirs) == Outcome(r, pos)
    {
      var args: seq<Span>, rs := [], redirs;
      var stop := Peek("|)&;");
      while !stop
        invariant Valid() && old(pos) <= pos && Skip(line, pos) == pos && (stop <==> EndsExec(Cur(line, pos)))
        invariant ParseArgs(line, pos, args, rs) == ParseArgs(line, old(pos), [], redirs)
        decreases |line| - pos
      {
        var tok, q, eq := Gettoken();
        if tok == '\0' { break; }
        if tok != 'a' { return None; }
        args := args + [Span(q, eq)];
        if |args| >= MAXARGS { return None; }
        var more := Parseredirs(rs);
        if more.None? { return None; }
        rs := more.value;
        stop := Peek("|)&;");
      }
      r := Some(Wrap(Exec(args), rs));
    }
  }

  function Outcome(r: Option<Cmd>, pos: nat): Result {
    if r.Some? then Ok(r.value, pos) else Panic
  }

  // ---------------------------------------------------------------- nulterminate

  /** The words that a command records. */
  function Recorded(cmd: Cmd): set<Span> {
    match cmd
    case Exec(args) => set i | 0 <= i < |args| :: args[i]
    case Redir(c, to) => Recorded(c) + {to.file}
    case Pipe(l, r) => Recorded(l) + Recorded(r)
    case List(l, r) => Recorded(l) + Recorded(r)
    case Back(c) => Recorded(c)
  }

  ghost predicate Ends(cmd: Cmd, i: int) {
    exists w :: w in Recorded(cmd) && w.eq == i
  }

  method Nulterminate(cmd: Cmd, buf: array<char>)
    requires forall w :: w in Recorded(cmd) ==> w.eq < buf.Length
    modifies buf
    ensures forall i :: 0 <= i < buf.Length ==> buf[i] == if Ends(cmd, i) then '\0' else old(buf[i])
  {
    match cmd
    case Exec(args) =>
      for k := 0 to |args|
        invariant forall i :: 0 <= i < buf.Length ==>
                    buf[i] == if exists j :: 0 <= j < k && args[j].eq == i then '\0' else old(buf[i])
      {
        assert args[k] in Recorded(cmd);
        buf[args[k].eq] := '\0';
      }
      forall i | 0 <= i < buf.Length ensures Ends(cmd, i) <==> exists j :: 0 <= j < |args| && args[j].eq == i {
        if j :| 0 <= j < |args| && args[j].eq == i { assert args[j] in Recorded(cmd); }
      }
    case Redir(c, to) =>
      assert to.file in Recorded(cmd);
      Nulterminate(c, buf);
      buf[to.file.eq] := '\0';
    case Pipe(l, r) =>
      Nulterminate(l, buf);
      Nulterminate(r, buf);
    case List(l, r) =>
      Nulterminate(l, buf);
      Nulterminate(r, buf);
    case Back(c) =>
      Nulterminate(c, buf);
  }

  lemma {:induction false} RecordedSpans(s: string, cmd: Cmd, w: Span)
    requires Spans(s, cmd) && w in Recorded(cmd)
    ensures IsSpan(s, w)
  {
    match cmd
    case Exec(args) =>
    case Redir(c, to) => if w in Recorded(c) { RecordedSpans(s, c, w); }
    case Pipe(l, r) => if w in Recorded(l) { RecordedSpans(s, l, w); } else { RecordedSpans(s, r, w); }
    case List(l, r) => if w in Recorded(l) { RecordedSpans(s, l, w); } else { RecordedSpans(s, r, w); }
    case Back(c) => RecordedSpans(s, c, w);
  }

  /** No word's terminator lands inside a word. */
  lemma TerminatorsOutside(s: string, cmd: Cmd, w: Span, i: int)
    requires Spans(s, cmd) && w in Recorded(cmd) && w.q <= i < w.eq
    ensures !Ends(cmd, i)
  {
    RecordedSpans(s, cmd, w);
    forall v | v in Recorded(cmd) ensures v.eq != i {
      RecordedSpans(s, cmd, v);
    }
  }

  /** parsecmd before nulterminate: the line, and nothing left over. */
  method WholeLine(s: string) returns (r: Option<Cmd>)
    requires CString(s)
    ensures ParseCmd(s) == if r.Some? then Ok(r.value, |s|) else Panic
    ensures ReadRight(s, r)
  {
    AcceptsExactly(s);
    var parser := new Parser(s);
    r := parser.Parseline();
    if r.Some? {
      var _ := parser.Peek("");
      if parser.pos != |s| { r := None; }
    }
  }

  /** parsecmd: parses the line in buf and terminates its words in place. Every word recorded is then the C
      string at its start: the characters of the line up to its end, none of them NUL, and a NUL. */
  method Parsecmd(buf: array<char>) returns (r: Option<Cmd>)
    requires buf.Length > 0 && CString(buf[..buf.Length - 1]) && buf[buf.Length - 1] == '\0'
    modifies buf
    ensures r.None? <==> ParseCmd(old(buf[..buf.Length - 1])).Panic?
    ensures r.None? ==> buf[..] == old(buf[..])
    ensures r.Some? ==> ParseCmd(old(buf[..buf.Length - 1])).cmd == r.value
    ensures ReadRight(old(buf[..buf.Length - 1]), r)
    ensures r.Some? ==> forall w :: w in Recorded(r.value) ==>
              && w.q < w.eq < buf.Length && buf[w.eq] == '\0'
              && forall i :: w.q <= i < w.eq ==> buf[i] == old(buf[i]) && buf[i] != '\0'
  {
    var s := buf[..buf.Length - 1];
    r := WholeLine(s);
    if r.None? { return; }
    LineSpans(s, 0);
    forall w | w in Recorded(r.value) ensures w.q < w.eq < buf.Length {
      RecordedSpans(s, r.value, w);
    }
    Nulterminate(r.value, buf);
    forall w, i | w in Recorded(r.value) && w.q <= i < w.eq ensures buf[i] == s[i] && s[i] != '\0' {
      TerminatorsOutside(s, r.value, w, i);
    }
  }
}
