/** The command language of sh.c as people write it: sentences over tokens, their trees, and a sentence for every
    tree. */
module ShellGrammar {
  import opened ShellModel
  import opened ShellLexer

  // ---------------------------------------------------------------- sentences

  /** A redirection as it is typed: <, > or >>, and the file. */
  datatype Arrow = Arrow(op: Tok, file: string)

  /** A word of a simple command, and the redirections that come right after it. */
  datatype Arg = Arg(word: string, arrows: seq<Arrow>)

  datatype Syntax =
    | Simple(arrows: seq<Arrow>, args: seq<Arg>)     // redirections before the first word, and the words
    | Group(line: Syntax, arrows: seq<Arrow>)        // in parentheses, and the redirections after them
    | Piped(left: Syntax, right: Syntax)             // left | right
    | Backed(cmd: Syntax)                            // cmd &
    | Listed(left: Syntax, right: Syntax)            // left ; right

  function Level(x: Syntax): nat {
    match x
    case Simple(_, _) => 0
    case Group(_, _) => 0
    case Piped(_, _) => 1
    case Backed(_) => 2
    case Listed(_, _) => 3
  }

  predicate IsOp(t: Tok) {
    t == Sym('<') || t == Sym('>') || t == Append
  }

  ghost predicate ArrowsOk(arrows: seq<Arrow>) {
    forall i :: 0 <= i < |arrows| ==> IsOp(arrows[i].op) && WordOk(arrows[i].file)
  }

  ghost predicate ArgsOk(args: seq<Arg>) {
    forall i :: 0 <= i < |args| ==> WordOk(args[i].word) && ArrowsOk(args[i].arrows)
  }

  /** The precedences: | binds closer than &, and & closer than ;. Without parentheses | and ; go to the right. */
  ghost predicate WellPlaced(x: Syntax) {
    match x
    case Simple(arrows, args) => ArrowsOk(arrows) && ArgsOk(args) && |args| < MAXARGS
    case Group(line, arrows) => WellPlaced(line) && ArrowsOk(arrows)
    case Piped(l, r) => WellPlaced(l) && WellPlaced(r) && Level(l) == 0 && Level(r) <= 1
    case Backed(c) => WellPlaced(c) && Level(c) <= 2
    case Listed(l, r) => WellPlaced(l) && WellPlaced(r) && Level(l) <= 2
  }

  function ArrowToks(arrows: seq<Arrow>, rest: seq<Tok>): seq<Tok> {
    if arrows == [] then rest else [arrows[0].op] + ([Word(arrows[0].file)] + ArrowToks(arrows[1..], rest))
  }

  function ArgToks(args: seq<Arg>, rest: seq<Tok>): seq<Tok> {
    if args == [] then rest else [Word(args[0].word)] + ArrowToks(args[0].arrows, ArgToks(args[1..], rest))
  }

  /** The tokens of a sentence, and then rest. */
  function Toks(x: Syntax, rest: seq<Tok>): seq<Tok>
    decreases x
  {
    match x
    case Simple(arrows, args) => ArrowToks(arrows, ArgToks(args, rest))
    case Group(line, arrows) => [Sym('(')] + Toks(line, [Sym(')')] + ArrowToks(arrows, rest))
    case Piped(l, r) => Toks(l, [Sym('|')] + Toks(r, rest))
    case Backed(c) => Toks(c, [Sym('&')] + rest)
    case Listed(l, r) => Toks(l, [Sym(';')] + Toks(r, rest))
  }

  // ---------------------------------------------------------------- trees

  /** A command tree with its words written out. */
  datatype Ast =
    | Run(words: seq<string>)
    | Into(cmd: Ast, file: string, output: bool)
    | PipeTo(left: Ast, right: Ast)
    | Then(left: Ast, right: Ast)
    | InBack(cmd: Ast)

  /** Redirections around a command, in the order written, the first one innermost. */
  function Around(a: Ast, arrows: seq<Arrow>): Ast
    decreases |arrows|
  {
    if arrows == [] then a else Around(Into(a, arrows[0].file, arrows[0].op != Sym('<')), arrows[1..])
  }

  function WordsOf(args: seq<Arg>): seq<string> {
    if args == [] then [] else [args[0].word] + WordsOf(args[1..])
  }

  function ArrowsOf(args: seq<Arg>): seq<Arrow> {
    if args == [] then [] else args[0].arrows + ArrowsOf(args[1..])
  }

  /** What a sentence means: parentheses leave no trace. */
  function Tree(x: Syntax): Ast {
    match x
    case Simple(arrows, args) => Around(Run(WordsOf(args)), arrows + ArrowsOf(args))
    case Group(line, arrows) => Around(Tree(line), arrows)
    case Piped(l, r) => PipeTo(Tree(l), Tree(r))
    case Backed(c) => InBack(Tree(c))
    case Listed(l, r) => Then(Tree(l), Tree(r))
  }

  lemma {:induction false} AroundLast(a: Ast, arrows: seq<Arrow>, last: Arrow)
    ensures Around(a, arrows + [last]) == Into(Around(a, arrows), last.file, last.op != Sym('<'))
    decreases |arrows|
  {
    if arrows == [] {
      assert [] + [last] == [last];
    } else {
      var b := Into(a, arrows[0].file, arrows[0].op != Sym('<'));
      AroundLast(b, arrows[1..], last);
      assert (arrows + [last])[1..] == arrows[1..] + [last];
    }
  }

  // ---------------------------------------------------------------- every tree has a sentence

  /** In parentheses, unless the sentence binds closely enough without them. */
  function AtMost(level: nat, x: Syntax): (r: Syntax)
    ensures Level(r) <= level
  {
    if Level(x) <= level then x else Group(x, [])
  }

  /** One redirection more around a sentence. */
  function Redirected(x: Syntax, a: Arrow): Syntax {
    match x
    case Simple(arrows, args) => Simple(arrows + [a], args)
    case Group(line, arrows) => Group(line, arrows + [a])
    case _ => Group(x, [a])
  }

  function ArgsFor(words: seq<string>): (args: seq<Arg>)
    ensures |args| == |words| && forall i :: 0 <= i < |args| ==> args[i] == Arg(words[i], [])
  {
    if words == [] then [] else [Arg(words[0], [])] + ArgsFor(words[1..])
  }

  /** A sentence for a tree, with parentheses around the operands that bind too loosely. */
  function SentenceFor(t: Ast): Syntax {
    match t
    case Run(words) => Simple([], ArgsFor(words))
    case Into(c, f, o) => Redirected(SentenceFor(c), Arrow(Sym(if o then '>' else '<'), f))
    case PipeTo(l, r) => Piped(AtMost(0, SentenceFor(l)), AtMost(1, SentenceFor(r)))
    case Then(l, r) => Listed(AtMost(2, SentenceFor(l)), SentenceFor(r))
    case InBack(c) => Backed(AtMost(2, SentenceFor(c)))
  }

  ghost predicate WellFormed(t: Ast) {
    match t
    case Run(ws) => |ws| < MAXARGS && forall i :: 0 <= i < |ws| ==> WordOk(ws[i])
    case Into(c, f, _) => WellFormed(c) && WordOk(f)
    case PipeTo(l, r) => WellFormed(l) && WellFormed(r)
    case Then(l, r) => WellFormed(l) && WellFormed(r)
    case InBack(c) => WellFormed(c)
  }

  lemma {:induction false} ArgsForAre(words: seq<string>)
    ensures WordsOf(ArgsFor(words)) == words && ArrowsOf(ArgsFor(words)) == []
    decreases |words|
  {
    if words != [] {
      ArgsForAre(words[1..]);
      assert ArgsFor(words)[1..] == ArgsFor(words[1..]);
    }
  }

  ghost predicate Bare(x: Syntax) {
    x.Simple? ==> ArrowsOf(x.args) == []
  }

  lemma {:induction false} RedirectedTree(x: Syntax, a: Arrow)
    requires WellPlaced(x) && Bare(x) && IsOp(a.op) && WordOk(a.file)
    ensures WellPlaced(Redirected(x, a)) && Bare(Redirected(x, a)) && Tree(Redirected(x, a)) == Into(Tree(x), a.file, a.op != Sym('<'))
  {
    match x
    case Simple(arrows, args) =>
      AroundLast(Run(WordsOf(args)), arrows, a);
      assert arrows + [] == arrows && arrows + [a] + [] == arrows + [a];
    case Group(line, arrows) => AroundLast(Tree(line), arrows, a);
    case _ =>
      AroundLast(Tree(x), [], a);
      assert [] + [a] == [a];
  }

  lemma {:induction false} SentenceForTree(t: Ast)
    requires WellFormed(t)
    ensures WellPlaced(SentenceFor(t)) && Bare(SentenceFor(t)) && Tree(SentenceFor(t)) == t
    decreases t
  {
    match t
    case Run(words) =>
      ArgsForAre(words);
      assert [] + ArrowsOf(ArgsFor(words)) == [];
    case Into(c, f, o) =>
      SentenceForTree(c);
      RedirectedTree(SentenceFor(c), Arrow(Sym(if o then '>' else '<'), f));
    case PipeTo(l, r) =>
      SentenceForTree(l);
      SentenceForTree(r);
    case Then(l, r) =>
      SentenceForTree(l);
      SentenceForTree(r);
    case InBack(c) => SentenceForTree(c);
  }
}
