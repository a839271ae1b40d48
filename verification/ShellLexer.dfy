/** The tokens of a line, and the lines that spell given tokens. */
module ShellLexer {
  import opened Common
  import opened ShellModel

  datatype Tok = Sym(c: char) | Append | Word(w: string)

  /** A token of gettoken without its place. */
  function TokOf(s: string, t: Token): Tok
    requires t.span.q <= t.span.eq <= |s|
  {
    if t.kind == 'a' then Word(s[t.span.q..t.span.eq]) else if t.kind == '+' then Append else Sym(t.kind)
  }

  /** What gettoken returns, call after call. */
  function Lex(s: string, p: nat): seq<Tok>
    requires p <= |s|
    decreases |s| - p
  {
    var t := GetToken(s, p);
    if t.kind == '\0' then [] else [TokOf(s, t)] + Lex(s, t.next)
  }

  // ---------------------------------------------------------------- writing tokens

  ghost predicate WordOk(w: string) {
    w != "" && forall i :: 0 <= i < |w| ==> IsWord(w[i])
  }

  ghost predicate TokOk(t: Tok) {
    match t
    case Sym(c) => IsSymbol(c)
    case Append => true
    case Word(w) => WordOk(w)
  }

  ghost predicate ToksOk(toks: seq<Tok>) {
    forall i :: 0 <= i < |toks| ==> TokOk(toks[i])
  }

  function Spell(t: Tok): string {
    match t
    case Sym(c) => [c]
    case Append => ">>"
    case Word(w) => w
  }

  ghost predicate Blank(g: string) {
    forall i :: 0 <= i < |g| ==> IsSpace(g[i])
  }

  /** Two tokens that read as another one when nothing stands between them. */
  predicate Apart(a: Tok, b: Tok) {
    (a.Word? && b.Word?) || (a == Sym('>') && (b == Sym('>') || b.Append?))
  }

  /** The tokens with white space before, between and after them. */
  function Write(toks: seq<Tok>, gaps: seq<string>): string
    requires |gaps| == |toks| + 1
  {
    if toks == [] then gaps[0] else gaps[0] + (Spell(toks[0]) + Write(toks[1..], gaps[1..]))
  }

  ghost predicate GapsOk(toks: seq<Tok>, gaps: seq<string>) {
    && |gaps| == |toks| + 1 && (forall i :: 0 <= i < |gaps| ==> Blank(gaps[i]))
    && forall i :: 0 < i < |toks| && Apart(toks[i - 1], toks[i]) ==> gaps[i] != ""
  }

  // ---------------------------------------------------------------- reading what was written

  ghost predicate Has(s: string, p: nat, w: string) {
    p + |w| <= |s| && forall i :: 0 <= i < |w| ==> s[p + i] == w[i]
  }

  lemma HasBoth(s: string, p: nat, a: string, b: string)
    requires Has(s, p, a + b)
    ensures Has(s, p, a) && Has(s, p + |a|, b)
  {
    forall i | 0 <= i < |a| ensures s[p + i] == a[i] {
      assert (a + b)[i] == a[i];
    }
    forall i | 0 <= i < |b| ensures s[p + |a| + i] == b[i] {
      assert (a + b)[|a| + i] == b[i];
    }
  }

  lemma {:induction false} SkipBlank(s: string, p: nat, q: nat)
    requires p <= q <= |s| && (forall i :: p <= i < q ==> IsSpace(s[i])) && !IsSpace(Cur(s, q))
    ensures Skip(s, p) == q
    decreases q - p
  {
    if p < q { SkipBlank(s, p + 1, q); }
  }

  lemma {:induction false} SkipIsBlank(s: string, p: nat)
    requires p <= |s|
    ensures forall i :: p <= i < Skip(s, p) ==> IsSpace(s[i])
    decreases |s| - p
  {
    if p < |s| && IsSpace(s[p]) { SkipIsBlank(s, p + 1); }
  }

  lemma SkipTwice(s: string, p: nat)
    requires p <= |s|
    ensures Skip(s, Skip(s, p)) == Skip(s, p) && GetToken(s, Skip(s, p)) == GetToken(s, p)
  {
    SkipBlank(s, Skip(s, p), Skip(s, p));
  }

  lemma LexSkips(s: string, p: nat)
    requires p <= |s|
    ensures Lex(s, Skip(s, p)) == Lex(s, p)
  {
    SkipTwice(s, p);
  }

  lemma {:induction false} WordEndAt(s: string, p: nat, e: nat)
    requires p <= e <= |s| && !IsWord(Cur(s, e)) && forall k :: p <= k < e ==> IsWord(s[k])
    ensures WordEnd(s, p) == e
    decreases e - p
  {
    if p < e { WordEndAt(s, p + 1, e); }
  }

  /** What follows a token in a written line. */
  lemma WrittenNext(s: string, e: nat, toks: seq<Tok>, gaps: seq<string>)
    requires |gaps| == |toks| + 1 && GapsOk(toks, gaps) && ToksOk(toks) && Has(s, e, Write(toks, gaps)) && e + |Write(toks, gaps)| == |s|
    ensures if gaps[0] != "" then IsSpace(Cur(s, e)) else if toks == [] then e == |s| else Spell(toks[0]) != "" && Cur(s, e) == Spell(toks[0])[0]
  {
    if toks != [] {
      HasBoth(s, e, gaps[0], Spell(toks[0]) + Write(toks[1..], gaps[1..]));
      HasBoth(s, e + |gaps[0]|, Spell(toks[0]), Write(toks[1..], gaps[1..]));
      assert TokOk(toks[0]);
    }
    assert gaps[0] != "" ==> s[e + 0] == gaps[0][0];
  }

  /** A token's spelling, followed by nothing that would make it longer, is read as the token. */
  lemma TokenRead(s: string, p: nat, q: nat, t: Tok)
    requires p <= q && q + |Spell(t)| <= |s| && (forall i :: p <= i < q ==> IsSpace(s[i])) && TokOk(t) && Has(s, q, Spell(t))
    requires t.Word? ==> !IsWord(Cur(s, q + |Spell(t)|))
    requires t == Sym('>') ==> Cur(s, q + 1) != '>'
    ensures GetToken(s, p).kind != '\0' && GetToken(s, p).span == Span(q, q + |Spell(t)|)
    ensures TokOf(s, GetToken(s, p)) == t && GetToken(s, p).next == Skip(s, q + |Spell(t)|)
  {
    var e := q + |Spell(t)|;
    assert s[q] == Spell(t)[0];
    if t.Append? { assert s[q + 1] == Spell(t)[1]; }
    SkipBlank(s, p, q);
    if t.Word? {
      forall k | q <= k < e ensures IsWord(s[k]) {
        assert s[q + (k - q)] == t.w[k - q];
      }
      WordEndAt(s, q, e);
      assert s[q..e] == t.w;
    }
  }

  /** From p on the line spells these tokens. Kept folded. */
  ghost predicate Spells(s: string, p: nat, toks: seq<Tok>, gaps: seq<string>) {
    forall u {:trigger Unfold(u)} :: Unfold(u) ==>
      GapsOk(toks, gaps) && ToksOk(toks) && Has(s, p, Write(toks, gaps)) && p + |Write(toks, gaps)| == |s|
  }

  lemma SpellsNone(s: string, p: nat, gaps: seq<string>)
    requires p <= |s| && Spells(s, p, [], gaps)
    ensures Lex(s, p) == []
  {
    assert Unfold(0);
    forall i | p <= i < |s| ensures IsSpace(s[i]) {
      assert s[p + (i - p)] == gaps[0][i - p];
    }
    SkipBlank(s, p, |s|);
  }

  /** The first gap and token of a written line, and what comes after them. */
  lemma FirstPart(s: string, p: nat, toks: seq<Tok>, gaps: seq<string>, q: nat, e: nat)
    requires |gaps| == |toks| + 1 && toks != [] && Blank(gaps[0]) && Has(s, p, Write(toks, gaps))
    requires q == p + |gaps[0]| && e == q + |Spell(toks[0])|
    ensures |Write(toks, gaps)| == |gaps[0]| + |Spell(toks[0])| + |Write(toks[1..], gaps[1..])|
    ensures q <= e <= |s| && (forall i :: p <= i < q ==> IsSpace(s[i])) && Has(s, q, Spell(toks[0])) && Has(s, e, Write(toks[1..], gaps[1..]))
  {
    HasBoth(s, p, gaps[0], Spell(toks[0]) + Write(toks[1..], gaps[1..]));
    HasBoth(s, q, Spell(toks[0]), Write(toks[1..], gaps[1..]));
    forall i | p <= i < q ensures IsSpace(s[i]) {
      assert s[p + (i - p)] == gaps[0][i - p];
    }
  }

  lemma SpellsOne(s: string, p: nat, toks: seq<Tok>, gaps: seq<string>) returns (e: nat)
    requires p <= |s| && Spells(s, p, toks, gaps) && toks != []
    ensures e <= |s| && gaps != [] && Spells(s, e, toks[1..], gaps[1..])
    ensures GetToken(s, p).kind != '\0' && TokOf(s, GetToken(s, p)) == toks[0] && GetToken(s, p).next == Skip(s, e)
  {
    assert Unfold(0);
    var q := p + |gaps[0]|;
    e := q + |Spell(toks[0])|;
    assert Blank(gaps[0]) && TokOk(toks[0]);
    FirstPart(s, p, toks, gaps, q, e);
    RestOk(toks, gaps);
    FirstEnds(s, e, toks, gaps);
    TokenRead(s, p, q, toks[0]);
  }

  lemma FirstEnds(s: string, e: nat, toks: seq<Tok>, gaps: seq<string>)
    requires GapsOk(toks, gaps) && ToksOk(toks) && toks != [] && GapsOk(toks[1..], gaps[1..]) && ToksOk(toks[1..])
    requires Has(s, e, Write(toks[1..], gaps[1..])) && e + |Write(toks[1..], gaps[1..])| == |s|
    ensures toks[0].Word? ==> !IsWord(Cur(s, e))
    ensures toks[0] == Sym('>') ==> Cur(s, e) != '>'
  {
    WrittenNext(s, e, toks[1..], gaps[1..]);
    TokenEnds(toks, gaps, Cur(s, e), e == |s|);
  }

  /** Written tokens are read as they are. */
  lemma {:induction false} LexSpells(s: string, p: nat, toks: seq<Tok>, gaps: seq<string>)
    requires p <= |s| && Spells(s, p, toks, gaps)
    ensures Lex(s, p) == toks
    decreases |toks|
  {
    if toks == [] {
      SpellsNone(s, p, gaps);
    } else {
      var e := SpellsOne(s, p, toks, gaps);
      LexSpells(s, e, toks[1..], gaps[1..]);
      LexSkips(s, e);
    }
  }

  /** Whatever white space stands between the tokens, as long as it keeps them apart. */
  lemma LexWrite(toks: seq<Tok>, gaps: seq<string>)
    requires ToksOk(toks) && GapsOk(toks, gaps)
    ensures Lex(Write(toks, gaps), 0) == toks
  {
    LexSpells(Write(toks, gaps), 0, toks, gaps);
  }

  lemma RestOk(toks: seq<Tok>, gaps: seq<string>)
    requires GapsOk(toks, gaps) && ToksOk(toks) && toks != []
    ensures GapsOk(toks[1..], gaps[1..]) && ToksOk(toks[1..])
  {
    var rest, more := toks[1..], gaps[1..];
    forall i | 0 < i < |rest| && Apart(rest[i - 1], rest[i]) ensures more[i] != "" {
      assert Apart(toks[i + 1 - 1], toks[i + 1]);
    }
  }

  lemma TokenEnds(toks: seq<Tok>, gaps: seq<string>, c: char, end: bool)
    requires GapsOk(toks, gaps) && ToksOk(toks) && toks != [] && (end ==> c == '\0')
    requires if gaps[1] != "" then IsSpace(c) else if |toks| == 1 then end else Spell(toks[1]) != "" && c == Spell(toks[1])[0]
    ensures toks[0].Word? ==> !IsWord(c)
    ensures toks[0] == Sym('>') ==> c != '>'
  {
    if |toks| > 1 {
      assert TokOk(toks[1]) && (Apart(toks[1 - 1], toks[1]) ==> gaps[1] != "");
    }
  }

  // ---------------------------------------------------------------- writing what was read

  /** From p on the line is these tokens and gaps. Kept folded. */
  ghost predicate SpeltBy(s: string, p: nat, toks: seq<Tok>, gaps: seq<string>)
    requires p <= |s|
  {
    forall u {:trigger Unfold(u)} :: Unfold(u) ==> ToksOk(toks) && GapsOk(toks, gaps) && Write(toks, gaps) == s[p..]
  }

  lemma SpeltBefore(s: string, p: nat, rest: seq<Tok>, more: seq<string>) returns (toks: seq<Tok>, gaps: seq<string>)
    requires p <= |s| && GetToken(s, p).kind != '\0' && SpeltBy(s, GetToken(s, p).span.eq, rest, more)
    ensures toks == [TokOf(s, GetToken(s, p))] + rest && SpeltBy(s, p, toks, gaps)
  {
    assert Unfold(0);
    var t := GetToken(s, p);
    var q, e := t.span.q, t.span.eq;
    SkipIsBlank(s, p);
    TokenIs(s, p);
    toks, gaps := [TokOf(s, t)] + rest, [s[p..q]] + more;
    GapsMore(s, t, rest, more, s[p..q]);
    assert toks[1..] == rest && gaps[1..] == more;
    assert s[p..] == s[p..q] + (s[q..e] + s[e..]);
  }

  lemma SpeltEnd(s: string, p: nat) returns (gaps: seq<string>)
    requires p <= |s| && CString(s) && GetToken(s, p).kind == '\0'
    ensures SpeltBy(s, p, [], gaps)
  {
    SkipIsBlank(s, p);
    gaps := [s[p..]];
  }

  lemma {:induction false} WriteNoNul(toks: seq<Tok>, gaps: seq<string>)
    requires ToksOk(toks) && GapsOk(toks, gaps)
    ensures CString(Write(toks, gaps))
    decreases |toks|
  {
    if toks == [] {
      assert Blank(gaps[0]);
    } else {
      RestOk(toks, gaps);
      WriteNoNul(toks[1..], gaps[1..]);
      assert Blank(gaps[0]) && TokOk(toks[0]);
    }
  }

  /** Every line spells the tokens that are read from it. */
  lemma {:induction false} LexIsSpelt(s: string, p: nat) returns (gaps: seq<string>)
    requires p <= |s| && CString(s)
    ensures SpeltBy(s, p, Lex(s, p), gaps)
    decreases |s| - p
  {
    var t := GetToken(s, p);
    if t.kind == '\0' {
      gaps := SpeltEnd(s, p);
    } else {
      var e := t.span.eq;
      TokenIs(s, p);
      var more := LexIsSpelt(s, e);
      LexSkips(s, e);
      var toks;
      toks, gaps := SpeltBefore(s, p, Lex(s, e), more);
    }
  }

  lemma WriteLex(s: string) returns (gaps: seq<string>)
    requires CString(s)
    ensures ToksOk(Lex(s, 0)) && GapsOk(Lex(s, 0), gaps) && Write(Lex(s, 0), gaps) == s
  {
    gaps := LexIsSpelt(s, 0);
    assert Unfold(0);
  }

  lemma TokenIs(s: string, p: nat)
    requires p <= |s| && GetToken(s, p).kind != '\0'
    ensures var t := GetToken(s, p);
            && p <= t.span.q < t.span.eq <= |s| && t.span.q == Skip(s, p) && t.next == Skip(s, t.span.eq) && TokOk(TokOf(s, t)) && Spell(TokOf(s, t)) == s[t.span.q..t.span.eq]
            && (t.kind == 'a' ==> !IsWord(Cur(s, t.span.eq))) && (t.kind == '>' ==> Cur(s, t.span.eq) != '>')
  {
    var t := GetToken(s, p);
    WordEndSpan(s, Skip(s, p));
    if t.kind == '+' { assert s[t.span.q..t.span.eq] == ">>"; }
  }

  lemma GapsMore(s: string, t: Token, rest: seq<Tok>, more: seq<string>, g: string)
    requires t.span.q < t.span.eq <= |s| && GapsOk(rest, more) && ToksOk(rest) && Write(rest, more) == s[t.span.eq..]
    requires (t.kind == 'a' ==> !IsWord(Cur(s, t.span.eq))) && (t.kind == '>' ==> Cur(s, t.span.eq) != '>')
    requires TokOk(TokOf(s, t)) && Blank(g)
    ensures GapsOk([TokOf(s, t)] + rest, [g] + more) && ToksOk([TokOf(s, t)] + rest)
  {
    var e, toks := t.span.eq, [TokOf(s, t)] + rest;
    assert Has(s, e, Write(rest, more));
    WrittenNext(s, e, rest, more);
    forall i | 0 < i < |toks| && Apart(toks[i - 1], toks[i]) ensures ([g] + more)[i] != "" {
      if i == 1 {
        assert toks[0] == TokOf(s, t) && toks[1] == rest[0] && TokOk(rest[0]);
      } else {
        assert toks[i - 1] == rest[i - 1 - 1] && toks[i] == rest[i - 1];
      }
    }
  }
}
