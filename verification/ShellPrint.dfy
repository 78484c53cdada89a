/**
  Printing command trees, with parentheses only where the grammar needs them, and
  reading them back.
 */
module ShellPrint {
  import opened ShellGrammar
  import opened ShellSyntax

  // Which of the four functions below hands t on to which.
  function Rank(t: Tree, exec: nat, pipe: nat, list: nat, back: nat): (n: nat) {
    match t
    case Exec(_) => exec
    case Redir(_, _, _) => exec
    case Pipe(_, _) => pipe
    case List(_, _) => list
    case Back(_) => back
  }

  function WordParts(argv: seq<string>): (parts: seq<Part>) {
    if argv == [] then [] else [Arg(argv[0])] + WordParts(argv[1..])
  }

  function ToPart(file: string, mode: Mode): (p: Part) {
    To(if mode.In? then '<' else '>', file)
  }

  // One more redirection behind a single command.
  function Redirected(f: Form, p: Part): (g: Form) {
    match f
    case Simple(parts) => Simple(parts + [p])
    case Block(line, tos) => Block(line, tos + [p])
    case _ => Block(f, [p])
  }

  // A form of t as a single command, a pipeline, a job and a line.
  function FormExec(t: Tree): (f: Form)
    decreases t, Rank(t, 0, 3, 1, 2)
  {
    match t
    case Exec(argv) => Simple(WordParts(argv))
    case Redir(cmd, file, mode) => Redirected(FormExec(cmd), ToPart(file, mode))
    case _ => Block(FormLine(t), [])
  }

  function FormPipe(t: Tree): (f: Form)
    decreases t, Rank(t, 1, 0, 2, 3)
  {
    match t
    case Pipe(left, right) => Piped(FormExec(left), FormPipe(right))
    case _ => FormExec(t)
  }

  function FormJob(t: Tree): (f: Form)
    decreases t, Rank(t, 2, 1, 3, 0)
  {
    match t
    case Back(cmd) => Amped(FormJob(cmd))
    case _ => FormPipe(t)
  }

  function FormLine(t: Tree): (f: Form)
    decreases t, Rank(t, 3, 2, 0, 1)
  {
    match t
    case List(left, right) => Listed(FormJob(left), FormLine(right))
    case _ => FormJob(t)
  }

  // At most nine words in each command, and all words and files without spaces, symbols and NULs.
  predicate Printable(t: Tree) {
    match t
    case Exec(argv) => |argv| < MAXARGS && forall k :: 0 <= k < |argv| ==> GoodWord(argv[k])
    case Redir(cmd, file, _) => Printable(cmd) && GoodWord(file)
    case Pipe(left, right) => Printable(left) && Printable(right)
    case List(left, right) => Printable(left) && Printable(right)
    case Back(cmd) => Printable(cmd)
  }

  lemma {:induction false} WordPartsOf(argv: seq<string>)
    requires forall k :: 0 <= k < |argv| ==> GoodWord(argv[k])
    ensures Words(WordParts(argv)) == argv && Targets(WordParts(argv)) == []
    ensures forall k :: 0 <= k < |WordParts(argv)| ==> GoodPart(WordParts(argv)[k])
  {
    hide GoodWord;
    if argv != [] {
      WordPartsOf(argv[1..]);
    }
  }

  lemma AppendTo(parts: seq<Part>, file: string, mode: Mode)
    ensures var all := parts + [ToPart(file, mode)];
            Words(all) == Words(parts) && Targets(all) == Targets(parts) + [Target(file, mode)]
  {
    var p := ToPart(file, mode);
    AppendTargets(parts, [p]);
    AppendWords(parts, [p]);
    assert Words([p]) == [] && Words(parts) + [] == Words(parts) && Targets([p]) == [Target(file, mode)];
  }

  lemma RedirectedIs(f: Form, file: string, mode: Mode)
    requires Shape(f, 0) && GoodWord(file)
    ensures var g := Redirected(f, ToPart(file, mode)); Shape(g, 0) && TreeOf(g) == Redir(TreeOf(f), file, mode)
  {
    hide GoodWord, Wrap, Words, Targets;
    var parts := if f.Simple? then f.parts else f.tos;
    AppendTo(parts, file, mode);
    WrapSnoc(if f.Simple? then Exec(Words(parts)) else TreeOf(f.line), Targets(parts), Target(file, mode));
  }

  lemma {:induction false} FormExecIs(t: Tree)
    requires Printable(t)
    ensures Shape(FormExec(t), 0) && TreeOf(FormExec(t)) == t
    decreases t, Rank(t, 0, 3, 1, 2)
  {
    match t
    case Exec(argv) => WordPartsOf(argv);
    case Redir(cmd, file, mode) =>
      FormExecIs(cmd);
      RedirectedIs(FormExec(cmd), file, mode);
    case _ => FormLineIs(t);
  }

  lemma {:induction false} FormPipeIs(t: Tree)
    requires Printable(t)
    ensures Shape(FormPipe(t), 1) && TreeOf(FormPipe(t)) == t
    decreases t, Rank(t, 1, 0, 2, 3)
  {
    match t
    case Pipe(left, right) =>
      FormExecIs(left);
      FormPipeIs(right);
    case _ =>
      FormExecIs(t);
      Lower(FormExec(t), 0, 1);
  }

  lemma {:induction false} FormJobIs(t: Tree)
    requires Printable(t)
    ensures Shape(FormJob(t), 2) && TreeOf(FormJob(t)) == t
    decreases t, Rank(t, 2, 1, 3, 0)
  {
    match t
    case Back(cmd) => FormJobIs(cmd);
    case _ =>
      FormPipeIs(t);
      Lower(FormPipe(t), 1, 2);
  }

  /** Every printable tree has a form. */
  lemma {:induction false} FormLineIs(t: Tree)
    requires Printable(t)
    ensures Shape(FormLine(t), 3) && TreeOf(FormLine(t)) == t
    decreases t, Rank(t, 3, 2, 0, 1)
  {
    match t
    case List(left, right) =>
      FormJobIs(left);
      FormLineIs(right);
    case _ =>
      FormJobIs(t);
      Lower(FormJob(t), 2, 3);
  }

  lemma {:induction false} WrapPrintable(t: Tree, rs: seq<Target>)
    requires Printable(t) && forall k :: 0 <= k < |rs| ==> GoodWord(rs[k].file)
    ensures Printable(Wrap(t, rs))
    decreases |rs|
  {
    if rs != [] {
      WrapPrintable(Redir(t, rs[0].file, rs[0].mode), rs[1..]);
    }
  }

  lemma {:induction false} GoodTexts(parts: seq<Part>)
    requires forall k :: 0 <= k < |parts| ==> GoodPart(parts[k])
    ensures forall k :: 0 <= k < |Words(parts)| ==> GoodWord(Words(parts)[k])
    ensures forall k :: 0 <= k < |Targets(parts)| ==> GoodWord(Targets(parts)[k].file)
  {
    hide GoodWord;
    if parts != [] {
      assert GoodPart(parts[0]);
      GoodTexts(parts[1..]);
    }
  }

  lemma {:induction false} FormPrintable(f: Form, level: nat)
    requires Shape(f, level)
    ensures Printable(TreeOf(f))
    decreases f
  {
    match f
    case Simple(parts) =>
      GoodTexts(parts);
      WrapPrintable(Exec(Words(parts)), Targets(parts));
    case Block(line, tos) =>
      FormPrintable(line, 3);
      GoodTexts(tos);
      WrapPrintable(TreeOf(line), Targets(tos));
    case Piped(left, right) =>
      FormPrintable(left, 0);
      FormPrintable(right, 1);
    case Amped(job) => FormPrintable(job, 2);
    case Listed(left, right) =>
      FormPrintable(left, 2);
      FormPrintable(right, 3);
  }

  // A space before each token.
  function Spaces(n: nat): (gaps: seq<string>)
    ensures |gaps| == n + 1
  {
    if n == 0 then [""] else [" "] + Spaces(n - 1)
  }

  // A command line for a tree.
  function Print(t: Tree): (s: string) {
    var toks := Tokens(FormLine(t));
    Spelled(toks, Spaces(|toks|))
  }

  lemma {:induction false} SpacesFit(toks: seq<Token>)
    requires GoodTokens(toks)
    ensures Spaced(toks, Spaces(|toks|))
  {
    hide GoodToken, Touch;
    if toks != [] {
      SpacesFit(toks[1..]);
      assert Spaces(|toks|)[1..] == Spaces(|toks[1..]|);
    }
  }

  lemma {:induction false} PartTokensGood(parts: seq<Part>)
    requires forall k :: 0 <= k < |parts| ==> GoodPart(parts[k])
    ensures GoodTokens(PartTokens(parts))
  {
    hide GoodWord;
    if parts != [] {
      assert GoodPart(parts[0]);
      PartTokensGood(parts[1..]);
    }
  }

  lemma {:induction false} TokensGood(f: Form, level: nat)
    requires Shape(f, level)
    ensures GoodTokens(Tokens(f))
    decreases f
  {
    hide GoodWord, PartTokens, GoodPart;
    match f
    case Simple(parts) => PartTokensGood(parts);
    case Block(line, tos) =>
      TokensGood(line, 3);
      PartTokensGood(tos);
    case Piped(left, right) =>
      TokensGood(left, 0);
      TokensGood(right, 1);
    case Amped(job) => TokensGood(job, 2);
    case Listed(left, right) =>
      TokensGood(left, 2);
      TokensGood(right, 3);
  }

  lemma PrintSpells(t: Tree)
    requires Printable(t)
    ensures Text(Print(t)) && Spells(Print(t), FormLine(t), Spaces(|Tokens(FormLine(t))|))
  {
    hide Shape, TreeOf, Printable, GoodTokens, FormLine, Spaced, Spelled, Spaces, Tokens;
    var toks := Tokens(FormLine(t));
    FormLineIs(t);
    TokensGood(FormLine(t), 3);
    SpacesFit(toks);
    SpelledText(toks, Spaces(|toks|));
  }

  /** Every printable tree is read back from its command line. */
  lemma RoundTrip(t: Tree)
    requires Printable(t)
    ensures Text(Print(t)) && CommandOf(Print(t)) == Ok(t, [])
  {
    hide Print, Shape, TreeOf, Printable, FormLine, Spells, CommandOf, Text;
    FormLineIs(t);
    PrintSpells(t);
    CommandIff(Print(t), t);
  }

  /** The trees the shell can be given are exactly the printable ones. */
  lemma Given(t: Tree)
    ensures Printable(t) <==> exists s :: Text(s) && CommandOf(s) == Ok(t, [])
  {
    hide Print, Shape, TreeOf, Printable, FormLine, Spells, CommandOf, Text;
    if Printable(t) {
      RoundTrip(t);
    }
    if s :| Text(s) && CommandOf(s) == Ok(t, []) {
      CommandIff(s, t);
      var f, gaps :| Shape(f, 3) && TreeOf(f) == t && Spells(s, f, gaps);
      FormPrintable(f, 3);
    }
  }
}
