/**
  The command lines that sh.c accepts, told without the parser: how tokens are
  spelled, and the forms a line can have.  A text is read as a tree exactly if it
  is a spelling of a form of that tree.
 */
module ShellGrammar {
  import opened ShellSyntax

  type Tree = Cmd<string>

  // Spelling.

  predicate GoodWord(w: string) {
    w != "" && forall k :: 0 <= k < |w| ==> Plain(w[k])
  }

  predicate GoodToken(t: Token) {
    match t
    case Sym(c) => Symbol(c) || c == '+'
    case Word(w) => GoodWord(w)
  }

  ghost predicate GoodTokens(toks: seq<Token>) {
    forall k :: 0 <= k < |toks| ==> GoodToken(toks[k])
  }

  function Spell(t: Token): (s: string) {
    match t
    case Sym(c) => if c == '+' then ">>" else [c]
    case Word(w) => w
  }

  predicate Blank(g: string) {
    forall k :: 0 <= k < |g| ==> Space(g[k])
  }

  // Two tokens that need a space between them: two words, or ">" and something that starts with ">".
  predicate Touch(t: Token, u: Token) {
    (t.Word? && u.Word?) || (t == Sym('>') && (u == Sym('>') || u == Sym('+')))
  }

  // The tokens with the gaps before, between and behind them.
  function Spelled(toks: seq<Token>, gaps: seq<string>): (s: string)
    requires |gaps| == |toks| + 1
  {
    if toks == [] then gaps[0] else gaps[0] + Spell(toks[0]) + Spelled(toks[1..], gaps[1..])
  }

  predicate Spaced(toks: seq<Token>, gaps: seq<string>)
    requires |gaps| == |toks| + 1
  {
    && Blank(gaps[0])
    && (toks != [] ==>
          && GoodToken(toks[0]) && Spaced(toks[1..], gaps[1..])
          && (|toks| > 1 && Touch(toks[0], toks[1]) ==> gaps[1] != ""))
  }

  lemma SkipIs(s: string, i: nat, j: nat)
    requires i <= j <= |s| && Blank(s[i..j]) && (j < |s| ==> !Space(s[j]))
    ensures Skip(s, i) == j
  {
    assert forall k :: i <= k < j ==> s[k] == s[i..j][k - i];
    hide Space;
  }

  lemma WordEndIs(s: string, i: nat, j: nat)
    requires i <= j <= |s| && GoodWord(s[i..j]) && (j < |s| ==> !Plain(s[j]))
    ensures WordEnd(s, i) == j
  {
    assert forall k :: i <= k < j ==> s[k] == s[i..j][k - i];
    hide Plain;
  }

  lemma GoodSpell(t: Token)
    requires GoodToken(t)
    ensures Spell(t) != "" && !Space(Spell(t)[0]) && (t.Sym? ==> !Plain(Spell(t)[0])) && (t.Word? ==> Plain(Spell(t)[0]))
    ensures Spell(t)[0] == '>' ==> t == Sym('>') || t == Sym('+')
    ensures forall k :: 0 <= k < |Spell(t)| ==> Spell(t)[k] != 0 as char
  {
  }

  // What stands at position i: a gap, a token and the rest.
  lemma SpelledAt(s: string, i: nat, g: string, w: string, tail: string)
    requires i <= |s| && s[i..] == g + w + tail
    ensures var j := i + |g|;
            && j + |w| <= |s| && s[i..j] == g && s[j..j + |w|] == w && s[j + |w|..] == tail
            && (w != "" ==> s[j] == w[0]) && (|w| > 1 ==> s[j + 1] == w[1]) && (j + |w| < |s| ==> s[j + |w|] == tail[0])
  {
    var j := i + |g|;
    assert s[i..j] == s[i..][..|g|];
    assert s[j..j + |w|] == s[i..][|g|..|g| + |w|];
    assert s[j + |w|..] == s[i..][|g| + |w|..];
    assert w != "" ==> s[j] == s[j..j + |w|][0];
    assert |w| > 1 ==> s[j + 1] == s[j..j + |w|][1];
    assert j + |w| < |s| ==> s[j + |w|] == s[j + |w|..][0];
  }

  // A spelling begins with a space, or with the spelling of its first token.
  lemma SpelledStart(toks: seq<Token>, gaps: seq<string>)
    requires |gaps| == |toks| + 1 && Spaced(toks, gaps) && Spelled(toks, gaps) != ""
    ensures var c := Spelled(toks, gaps)[0];
            if gaps[0] != "" then Space(c) else toks != [] && c == Spell(toks[0])[0]
  {
    if gaps[0] != "" {
      assert Spelled(toks, gaps)[0] == gaps[0][0];
    } else {
      GoodSpell(toks[0]);
    }
  }

  lemma LexWordAt(s: string, i: nat, j: nat, k: nat)
    requires i <= |s| && Text(s) && Skip(s, i) == j < |s| && Plain(s[j]) && WordEnd(s, j) == k
    ensures Lex(s, i) == [Word(s[j..k])] + Lex(s, k)
  {
  }

  lemma LexSymAt(s: string, i: nat, j: nat)
    requires i <= |s| && Text(s) && Skip(s, i) == j < |s| && Symbol(s[j])
    ensures var two := s[j] == '>' && j + 1 < |s| && s[j + 1] == '>';
            Lex(s, i) == if two then [Sym('+')] + Lex(s, j + 2) else [Sym(s[j])] + Lex(s, j + 1)
  {
  }

  lemma LexOneWord(s: string, i: nat, g: string, w: string, tail: string)
    requires i <= |s| && Text(s) && s[i..] == g + w + tail && Blank(g) && GoodWord(w) && (tail != "" ==> !Plain(tail[0]))
    ensures var k := i + |g| + |w|; k <= |s| && s[k..] == tail && Lex(s, i) == [Word(w)] + Lex(s, k)
  {
    hide Lex, Skip, WordEnd, Text, Blank, Space;
    var j := i + |g|;
    SpelledAt(s, i, g, w, tail);
    assert Plain(w[0]);
    SkipIs(s, i, j);
    WordEndIs(s, j, j + |w|);
    LexWordAt(s, i, j, j + |w|);
  }

  // What may stand directly behind a token.
  predicate Follows(t: Token, tail: string) {
    tail != "" ==> (t.Word? ==> !Plain(tail[0])) && (t == Sym('>') ==> tail[0] != '>')
  }

  lemma LexOneSym(s: string, i: nat, g: string, t: Token, tail: string)
    requires i <= |s| && Text(s) && s[i..] == g + Spell(t) + tail && Blank(g) && t.Sym? && GoodToken(t) && Follows(t, tail)
    ensures var k := i + |g| + |Spell(t)|; k <= |s| && s[k..] == tail && Lex(s, i) == [t] + Lex(s, k)
  {
    hide Lex, Skip, WordEnd, Text, Blank;
    var j := i + |g|;
    SpelledAt(s, i, g, Spell(t), tail);
    SkipIs(s, i, j);
    LexSymAt(s, i, j);
  }

  // One token behind its gap is the next token.
  lemma LexOne(s: string, i: nat, g: string, t: Token, tail: string)
    requires i <= |s| && Text(s) && s[i..] == g + Spell(t) + tail && Blank(g) && GoodToken(t) && Follows(t, tail)
    ensures var k := i + |g| + |Spell(t)|; k <= |s| && s[k..] == tail && Lex(s, i) == [t] + Lex(s, k)
  {
    hide Lex, Text, Blank, GoodWord, Plain;
    if t.Word? {
      LexOneWord(s, i, g, t.text, tail);
    } else {
      LexOneSym(s, i, g, t, tail);
    }
  }

  lemma TailFollows(toks: seq<Token>, gaps: seq<string>)
    requires |gaps| == |toks| + 1 && Spaced(toks, gaps) && toks != []
    ensures Follows(toks[0], Spelled(toks[1..], gaps[1..]))
  {
    var tail := Spelled(toks[1..], gaps[1..]);
    if tail != "" {
      SpelledStart(toks[1..], gaps[1..]);
      if gaps[1] == "" {
        GoodSpell(toks[1]);
      }
    }
  }

  lemma LexBlank(s: string, i: nat)
    requires i <= |s| && Text(s) && Blank(s[i..])
    ensures Lex(s, i) == []
  {
    assert s[i..|s|] == s[i..];
    SkipIs(s, i, |s|);
  }

  /** A spelling of tokens is read as those tokens. */
  lemma {:induction false} LexSpelled(s: string, i: nat, toks: seq<Token>, gaps: seq<string>)
    requires |gaps| == |toks| + 1 && Spaced(toks, gaps) && i <= |s| && Text(s) && s[i..] == Spelled(toks, gaps)
    ensures Lex(s, i) == toks
    decreases |toks|
  {
    hide Lex, Blank, GoodToken, Touch, Text, Spell, Follows;
    if toks == [] {
      LexBlank(s, i);
    } else {
      TailFollows(toks, gaps);
      LexOne(s, i, gaps[0], toks[0], Spelled(toks[1..], gaps[1..]));
      LexSpelled(s, i + |gaps[0]| + |Spell(toks[0])|, toks[1..], gaps[1..]);
    }
  }

  lemma SpellPart(s: string, i: nat, j: nat, k: nat)
    requires i <= j <= k <= |s|
    ensures s[i..] == s[i..j] + s[j..k] + s[k..]
  {
  }

  // The token at j, which is not a space, and where it ends.
  function NextToken(s: string, j: nat): (r: (Token, nat))
    requires j < |s| && Text(s) && !Space(s[j])
    ensures j < r.1 <= |s| && GoodToken(r.0) && Spell(r.0) == s[j..r.1]
    ensures r.1 < |s| && r.0.Word? ==> !Plain(s[r.1])
    ensures r.1 < |s| && r.0 == Sym('>') ==> s[r.1] != '>'
  {
    if s[j] == '>' && j + 1 < |s| && s[j + 1] == '>' then (Sym('+'), j + 2)
    else if Symbol(s[j]) then (Sym(s[j]), j + 1)
    else
      assert Plain(s[j]);
      (Word(s[j..WordEnd(s, j)]), WordEnd(s, j))
  }

  lemma LexNext(s: string, i: nat)
    requires i <= |s| && Text(s) && Skip(s, i) < |s|
    ensures var (t, k) := NextToken(s, Skip(s, i)); Lex(s, i) == [t] + Lex(s, k)
  {
    hide Lex, Skip;
    var j := Skip(s, i);
    if Symbol(s[j]) {
      LexSymAt(s, i, j);
    } else {
      LexWordAt(s, i, j, WordEnd(s, j));
    }
  }

  lemma SpelledCons(t: Token, g: string, toks: seq<Token>, gaps: seq<string>)
    requires |gaps| == |toks| + 1 && Spaced(toks, gaps) && Blank(g) && GoodToken(t)
    requires toks != [] && Touch(t, toks[0]) ==> gaps[0] != ""
    ensures Spaced([t] + toks, [g] + gaps) && Spelled([t] + toks, [g] + gaps) == g + Spell(t) + Spelled(toks, gaps)
  {
    var ts, gs := [t] + toks, [g] + gaps;
    assert ts[1..] == toks && gs[1..] == gaps;
    hide Blank, GoodToken, Touch, Spell;
  }

  // Behind a token that ends where NextToken says, one that needs a gap has one.
  lemma GapThere(t: Token, toks: seq<Token>, gaps: seq<string>)
    requires |gaps| == |toks| + 1 && Spaced(toks, gaps) && Follows(t, Spelled(toks, gaps))
    ensures toks != [] && Touch(t, toks[0]) ==> gaps[0] != ""
  {
    if toks != [] && gaps[0] == "" {
      GoodSpell(toks[0]);
      SpelledStart(toks, gaps);
    }
  }

  /** Every text is a spelling of its tokens. */
  lemma {:induction false} LexSound(s: string, i: nat) returns (gaps: seq<string>)
    requires i <= |s| && Text(s)
    ensures |gaps| == |Lex(s, i)| + 1 && Spaced(Lex(s, i), gaps) && s[i..] == Spelled(Lex(s, i), gaps)
    decreases |s| - i
  {
    var j := Skip(s, i);
    assert Blank(s[i..j]);
    if j == |s| {
      gaps := [s[i..]];
      assert s[i..j] == s[i..];
    } else {
      var (t, k) := NextToken(s, j);
      LexNext(s, i);
      assert k < |s| ==> s[k..][0] == s[k];
      assert Follows(t, s[k..]);
      hide Lex, Skip, Blank, GoodToken, Touch, Spell, Follows, Text, Spaced, Spelled;
      var more := LexSound(s, k);
      GapThere(t, Lex(s, k), more);
      SpelledCons(t, s[i..j], Lex(s, k), more);
      SpellPart(s, i, j, k);
      gaps := [s[i..j]] + more;
    }
  }

  // Forms.

  // A part of a simple command: a word, or "<", ">" or ">>" (written '+') and a file.
  datatype Part = Arg(w: string) | To(sym: char, file: string)

  datatype Form =
    | Simple(parts: seq<Part>)               // words and redirections in any order
    | Block(line: Form, tos: seq<Part>)      // a line in parentheses, and redirections
    | Piped(left: Form, right: Form)
    | Amped(job: Form)
    | Listed(left: Form, right: Form)

  predicate GoodPart(p: Part) {
    match p
    case Arg(w) => GoodWord(w)
    case To(sym, file) => (sym == '<' || sym == '>' || sym == '+') && GoodWord(file)
  }

  function WordOf(p: Part): (ws: seq<string>) {
    if p.Arg? then [p.w] else []
  }

  // The words among the parts, and the redirections among them.
  function Words(parts: seq<Part>): (argv: seq<string>) {
    if parts == [] then [] else WordOf(parts[0]) + Words(parts[1..])
  }

  datatype Target = Target(file: string, mode: Mode)

  function TargetOf(p: Part): (rs: seq<Target>) {
    match p
    case Arg(_) => []
    case To(sym, file) => [Target(file, if sym == '<' then In else Out)]
  }

  function Targets(parts: seq<Part>): (rs: seq<Target>) {
    if parts == [] then [] else TargetOf(parts[0]) + Targets(parts[1..])
  }

  // A form of a single command (0), a pipeline (1), a job (2), a line (3).
  predicate Shape(f: Form, level: nat) {
    match f
    case Simple(parts) => |Words(parts)| < MAXARGS && forall k :: 0 <= k < |parts| ==> GoodPart(parts[k])
    case Block(line, tos) => Shape(line, 3) && forall k :: 0 <= k < |tos| ==> tos[k].To? && GoodPart(tos[k])
    case Piped(left, right) => level >= 1 && Shape(left, 0) && Shape(right, 1)
    case Amped(job) => level >= 2 && Shape(job, 2)
    case Listed(left, right) => level >= 3 && Shape(left, 2) && Shape(right, 3)
  }

  function PartTokens(parts: seq<Part>): (toks: seq<Token>) {
    if parts == [] then []
    else (match parts[0]
          case Arg(w) => [Word(w)]
          case To(sym, file) => [Sym(sym), Word(file)]) + PartTokens(parts[1..])
  }

  function Tokens(f: Form): (toks: seq<Token>) {
    match f
    case Simple(parts) => PartTokens(parts)
    case Block(line, tos) => [Sym('(')] + Tokens(line) + [Sym(')')] + PartTokens(tos)
    case Piped(left, right) => Tokens(left) + [Sym('|')] + Tokens(right)
    case Amped(job) => Tokens(job) + [Sym('&')]
    case Listed(left, right) => Tokens(left) + [Sym(';')] + Tokens(right)
  }

  // The redirections go around the command, the first one innermost.
  function Wrap(t: Tree, rs: seq<Target>): (r: Tree)
    decreases |rs|
  {
    if rs == [] then t else Wrap(Redir(t, rs[0].file, rs[0].mode), rs[1..])
  }

  function TreeOf(f: Form): (t: Tree) {
    match f
    case Simple(parts) => Wrap(Exec(Words(parts)), Targets(parts))
    case Block(line, tos) => Wrap(TreeOf(line), Targets(tos))
    case Piped(left, right) => Pipe(TreeOf(left), TreeOf(right))
    case Amped(job) => Back(TreeOf(job))
    case Listed(left, right) => List(TreeOf(left), TreeOf(right))
  }

  lemma Assoc<T>(a: seq<T>, b: seq<T>, c: seq<T>)
    ensures a + (b + c) == a + b + c
  {
  }

  lemma JoinTokens(a: seq<Token>, b: seq<Token>, c: seq<Token>, d: seq<Token>)
    ensures a + (b + (c + d)) == a + (b + c) + d
  {
  }

  // The parser on the parts of a command.

  lemma {:induction false} AddWordWrap(t: Tree, rs: seq<Target>, w: string)
    ensures AddWord(Wrap(t, rs), w) == Wrap(AddWord(t, w), rs)
    decreases |rs|
  {
    if rs != [] {
      AddWordWrap(Redir(t, rs[0].file, rs[0].mode), rs[1..], w);
    }
  }

  lemma {:induction false} WrapSnoc(t: Tree, rs: seq<Target>, r: Target)
    ensures Wrap(t, rs + [r]) == Redir(Wrap(t, rs), r.file, r.mode)
    decreases |rs|
  {
    if rs == [] {
      assert (rs + [r])[1..] == [];
    } else {
      assert (rs + [r])[1..] == rs[1..] + [r];
      WrapSnoc(Redir(t, rs[0].file, rs[0].mode), rs[1..], r);
    }
  }

  // The command after one more part.
  function Added(c: Tree, p: Part): (r: Tree) {
    match p
    case Arg(w) => AddWord(c, w)
    case To(sym, file) => Redir(c, file, ModeOf(sym))
  }

  function AddedAll(c: Tree, parts: seq<Part>): (r: Tree)
    decreases |parts|
  {
    if parts == [] then c else AddedAll(Added(c, parts[0]), parts[1..])
  }

  lemma WordFirst(parts: seq<Part>)
    requires parts != [] && parts[0].Arg?
    ensures Words(parts) == [parts[0].w] + Words(parts[1..]) && Targets(parts) == Targets(parts[1..])
  {
  }

  lemma TargetFirst(parts: seq<Part>)
    requires parts != [] && parts[0].To? && GoodPart(parts[0])
    ensures Words(parts) == Words(parts[1..])
    ensures Targets(parts) == [Target(parts[0].file, ModeOf(parts[0].sym))] + Targets(parts[1..])
  {
  }

  lemma NoParts()
    ensures Words([]) == [] && Targets([]) == []
  {
  }

  // Whatever the order of the parts, the words are the command's and the redirections are around it.
  lemma {:induction false} AddedIs(argv: seq<string>, rs: seq<Target>, parts: seq<Part>)
    requires forall k :: 0 <= k < |parts| ==> GoodPart(parts[k])
    ensures AddedAll(Wrap(Exec(argv), rs), parts) == Wrap(Exec(argv + Words(parts)), rs + Targets(parts))
    decreases |parts|
  {
    hide Wrap, GoodPart, Words, Targets;
    if parts == [] {
      NoParts();
      assert argv + [] == argv && rs + [] == rs;
    } else if parts[0].Arg? {
      var w := parts[0].w;
      AddWordWrap(Exec(argv), rs, w);
      WordFirst(parts);
      Assoc(argv, [w], Words(parts[1..]));
      AddedIs(argv + [w], rs, parts[1..]);
    } else {
      var r := Target(parts[0].file, ModeOf(parts[0].sym));
      WrapSnoc(Exec(argv), rs, r);
      TargetFirst(parts);
      Assoc(rs, [r], Targets(parts[1..]));
      AddedIs(argv, rs + [r], parts[1..]);
    }
  }

  lemma {:induction false} AddedTos(c: Tree, tos: seq<Part>)
    requires forall k :: 0 <= k < |tos| ==> tos[k].To? && GoodPart(tos[k])
    ensures AddedAll(c, tos) == Wrap(c, Targets(tos))
    decreases |tos|
  {
    if tos != [] {
      AddedTos(Added(c, tos[0]), tos[1..]);
      assert Targets(tos)[1..] == Targets(tos[1..]);
    }
  }

  lemma SimpleTree(parts: seq<Part>)
    requires forall k :: 0 <= k < |parts| ==> GoodPart(parts[k])
    ensures AddedAll(Exec([]), parts) == Wrap(Exec(Words(parts)), Targets(parts))
  {
    AddedIs([], [], parts);
    assert [] + Words(parts) == Words(parts) && [] + Targets(parts) == Targets(parts);
  }

  predicate EndsWith(rest: seq<Token>, cs: set<char>) {
    rest == [] || Starts(rest, cs)
  }

  lemma ArgFirst(parts: seq<Part>, rest: seq<Token>)
    requires parts != [] && parts[0].Arg?
    ensures PartTokens(parts) + rest == [Word(parts[0].w)] + (PartTokens(parts[1..]) + rest)
  {
    assert PartTokens(parts) == [Word(parts[0].w)] + PartTokens(parts[1..]);
  }

  lemma ToFirst(parts: seq<Part>, rest: seq<Token>)
    requires parts != [] && parts[0].To?
    ensures PartTokens(parts) + rest == [Sym(parts[0].sym), Word(parts[0].file)] + (PartTokens(parts[1..]) + rest)
  {
    assert PartTokens(parts) == [Sym(parts[0].sym), Word(parts[0].file)] + PartTokens(parts[1..]);
  }

  lemma RedirsTo(c: Tree, sym: char, file: string, tail: seq<Token>)
    requires sym == '<' || sym == '>' || sym == '+'
    ensures Redirs(c, [Sym(sym), Word(file)] + tail) == Redirs(Redir(c, file, ModeOf(sym)), tail)
  {
    var toks := [Sym(sym), Word(file)] + tail;
    assert toks[2..] == tail;
  }

  lemma ArgsWord(c: Tree, n: nat, w: string, tail: seq<Token>)
    requires n + 1 < MAXARGS
    ensures Redirs(c, [Word(w)] + tail) == Ok(c, [Word(w)] + tail)
    ensures var r := Redirs(AddWord(c, w), tail);
            Args(c, n, [Word(w)] + tail) == if r.Error? then Error else Args(r.cmd, n + 1, r.rest)
  {
    assert ([Word(w)] + tail)[1..] == tail;
  }

  lemma PartsEnd(c: Tree, n: nat, rest: seq<Token>)
    requires EndsWith(rest, {'|', ')', '&', ';'})
    ensures Redirs(c, rest) == Ok(c, rest) && Args(c, n, rest) == Ok(c, rest)
  {
  }

  lemma {:induction false} ReadParts(c: Tree, n: nat, parts: seq<Part>, rest: seq<Token>)
    requires EndsWith(rest, {'|', ')', '&', ';'}) && n + |Words(parts)| < MAXARGS
    requires forall k :: 0 <= k < |parts| ==> GoodPart(parts[k])
    ensures var r := Redirs(c, PartTokens(parts) + rest); r.Ok? && Args(r.cmd, n, r.rest) == Ok(AddedAll(c, parts), rest)
    decreases |parts|
  {
    hide Redirs, Args, EndsWith, GoodWord;
    if parts == [] {
      assert PartTokens(parts) + rest == rest;
      PartsEnd(c, n, rest);
    } else {
      var p, tail := parts[0], PartTokens(parts[1..]) + rest;
      assert GoodPart(p);
      ReadParts(Added(c, p), if p.Arg? then n + 1 else n, parts[1..], rest);
      if p.Arg? {
        ArgFirst(parts, rest);
        ArgsWord(c, n, p.w, tail);
      } else {
        ToFirst(parts, rest);
        RedirsTo(c, p.sym, p.file, tail);
      }
    }
  }

  lemma {:induction false} ReadTos(c: Tree, tos: seq<Part>, rest: seq<Token>)
    requires EndsWith(rest, {'|', ')', '&', ';'}) && forall k :: 0 <= k < |tos| ==> tos[k].To? && GoodPart(tos[k])
    ensures Redirs(c, PartTokens(tos) + rest) == Ok(AddedAll(c, tos), rest)
    decreases |tos|
  {
    hide Redirs, EndsWith, GoodWord;
    if tos == [] {
      assert PartTokens(tos) + rest == rest;
      PartsEnd(c, 0, rest);
    } else {
      assert GoodPart(tos[0]);
      ToFirst(tos, rest);
      RedirsTo(c, tos[0].sym, tos[0].file, PartTokens(tos[1..]) + rest);
      ReadTos(Added(c, tos[0]), tos[1..], rest);
    }
  }

  /** Words and redirections in any order: the words in order, and the redirections in order around them. */
  lemma ReadSimple(parts: seq<Part>, rest: seq<Token>)
    requires Shape(Simple(parts), 0) && EndsWith(rest, {'|', ')', '&', ';'})
    ensures ExecOf(PartTokens(parts) + rest) == Ok(Wrap(Exec(Words(parts)), Targets(parts)), rest)
  {
    var toks := PartTokens(parts) + rest;
    assert !Starts(toks, {'('}) by {
      if parts == [] {
        assert toks == rest;
      } else {
        assert GoodPart(parts[0]);
      }
    }
    hide Redirs, Args, PartTokens;
    ReadParts(Exec([]), 0, parts, rest);
    SimpleTree(parts);
  }

  lemma Regroup(line: seq<Token>, tos: seq<Token>, rest: seq<Token>)
    ensures [Sym('(')] + line + [Sym(')')] + tos + rest == [Sym('(')] + (line + ([Sym(')')] + (tos + rest)))
  {
  }

  lemma ReadGroup(line: seq<Token>, t: Tree, tail: seq<Token>)
    requires LineOf(line + ([Sym(')')] + tail)) == Ok(t, [Sym(')')] + tail)
    ensures ExecOf([Sym('(')] + (line + ([Sym(')')] + tail))) == Redirs(t, tail)
  {
    var inner := line + ([Sym(')')] + tail);
    assert ([Sym('(')] + inner)[1..] == inner && ([Sym(')')] + tail)[1..] == tail;
  }

  lemma {:induction false} ReadExec(f: Form, rest: seq<Token>)
    requires Shape(f, 0) && EndsWith(rest, {'|', ')', '&', ';'})
    ensures ExecOf(Tokens(f) + rest) == Ok(TreeOf(f), rest)
    decreases f, 0
  {
    hide ExecOf, LineOf, Redirs, Args, Wrap, PartTokens;
    if f.Simple? {
      ReadSimple(f.parts, rest);
    } else {
      var tail := PartTokens(f.tos) + rest;
      Regroup(Tokens(f.line), PartTokens(f.tos), rest);
      ReadLine(f.line, [Sym(')')] + tail);
      ReadGroup(Tokens(f.line), TreeOf(f.line), tail);
      ReadTos(TreeOf(f.line), f.tos, rest);
      AddedTos(TreeOf(f.line), f.tos);
    }
  }

  lemma PipedForm(f: Form, g: Form, rest: seq<Token>)
    requires Shape(f, 0) && Shape(g, 1)
    ensures Shape(Piped(f, g), 1) && TreeOf(Piped(f, g)) == Pipe(TreeOf(f), TreeOf(g))
    ensures Tokens(f) + ([Sym('|')] + (Tokens(g) + rest)) == Tokens(Piped(f, g)) + rest
  {
    JoinTokens(Tokens(f), [Sym('|')], Tokens(g), rest);
    Assoc(Tokens(f), [Sym('|')], Tokens(g));
  }

  lemma ListedForm(f: Form, g: Form, rest: seq<Token>)
    requires Shape(f, 2) && Shape(g, 3)
    ensures Shape(Listed(f, g), 3) && TreeOf(Listed(f, g)) == List(TreeOf(f), TreeOf(g))
    ensures Tokens(f) + ([Sym(';')] + (Tokens(g) + rest)) == Tokens(Listed(f, g)) + rest
  {
    JoinTokens(Tokens(f), [Sym(';')], Tokens(g), rest);
    Assoc(Tokens(f), [Sym(';')], Tokens(g));
  }

  lemma PipeStep(toks: seq<Token>, c: Tree, d: Tree, tail: seq<Token>, rest: seq<Token>)
    requires ExecOf(toks) == Ok(c, [Sym('|')] + tail) && PipeOf(tail) == Ok(d, rest)
    ensures PipeOf(toks) == Ok(Pipe(c, d), rest)
  {
    hide ExecOf;
    assert ([Sym('|')] + tail)[1..] == tail;
  }

  lemma PipeStop(toks: seq<Token>)
    requires ExecOf(toks).Ok? && !Starts(ExecOf(toks).rest, {'|'})
    ensures PipeOf(toks) == ExecOf(toks)
  {
    hide ExecOf;
  }

  lemma {:induction false} ReadPipe(f: Form, rest: seq<Token>)
    requires Shape(f, 1) && EndsWith(rest, {')', '&', ';'})
    ensures PipeOf(Tokens(f) + rest) == Ok(TreeOf(f), rest)
    decreases f, 1
  {
    hide ExecOf, PipeOf, Tokens, TreeOf;
    if f.Piped? {
      var tail := Tokens(f.right) + rest;
      ReadExec(f.left, [Sym('|')] + tail);
      ReadPipe(f.right, rest);
      PipedForm(f.left, f.right, rest);
      PipeStep(Tokens(f) + rest, TreeOf(f.left), TreeOf(f.right), tail, rest);
    } else {
      ReadExec(f, rest);
      PipeStop(Tokens(f) + rest);
    }
  }

  // Behind the pipeline of a job, its "&" lead to the tree of the job.
  lemma {:induction false} ReadJob(f: Form, rest: seq<Token>)
    requires Shape(f, 2) && EndsWith(rest, {')', '&', ';'})
    ensures var p := PipeOf(Tokens(f) + rest); p.Ok? && Backs(p.cmd, p.rest) == Backs(TreeOf(f), rest)
    decreases f, 2
  {
    hide PipeOf;
    if f.Amped? {
      ReadJob(f.job, [Sym('&')] + rest);
      assert Tokens(f) + rest == Tokens(f.job) + ([Sym('&')] + rest);
      assert ([Sym('&')] + rest)[1..] == rest;
    } else {
      ReadPipe(f, rest);
    }
  }

  lemma LineStep(toks: seq<Token>, c: Tree, d: Tree, tail: seq<Token>, rest: seq<Token>)
    requires var p := PipeOf(toks); p.Ok? && Backs(p.cmd, p.rest) == Ok(c, [Sym(';')] + tail)
    requires LineOf(tail) == Ok(d, rest)
    ensures LineOf(toks) == Ok(List(c, d), rest)
  {
    hide PipeOf, Backs;
    assert ([Sym(';')] + tail)[1..] == tail;
  }

  lemma LineStop(toks: seq<Token>)
    requires var p := PipeOf(toks); p.Ok? && !Starts(Backs(p.cmd, p.rest).rest, {';'})
    ensures var p := PipeOf(toks); LineOf(toks) == Backs(p.cmd, p.rest)
  {
    hide PipeOf, Backs;
  }

  lemma BacksStop(c: Tree, toks: seq<Token>)
    requires !Starts(toks, {'&'})
    ensures Backs(c, toks) == Ok(c, toks)
  {
  }

  /** The tokens of a form are read as its tree. */
  lemma {:induction false} ReadLine(f: Form, rest: seq<Token>)
    requires Shape(f, 3) && EndsWith(rest, {')'})
    ensures LineOf(Tokens(f) + rest) == Ok(TreeOf(f), rest)
    decreases f, 3
  {
    hide PipeOf, LineOf, Backs, Tokens, TreeOf;
    if f.Listed? {
      var tail := Tokens(f.right) + rest;
      ReadJob(f.left, [Sym(';')] + tail);
      BacksStop(TreeOf(f.left), [Sym(';')] + tail);
      ReadLine(f.right, rest);
      ListedForm(f.left, f.right, rest);
      LineStep(Tokens(f) + rest, TreeOf(f.left), TreeOf(f.right), tail, rest);
    } else {
      ReadJob(f, rest);
      BacksStop(TreeOf(f), rest);
      LineStop(Tokens(f) + rest);
    }
  }

  // What the parser accepts has a form.

  lemma RedirsStop(c: Tree, toks: seq<Token>)
    requires !Starts(toks, {'<', '>', '+'})
    ensures Redirs(c, toks) == Ok(c, toks)
  {
  }

  lemma RedirsStep(c: Tree, toks: seq<Token>)
    requires Redirs(c, toks).Ok? && Starts(toks, {'<', '>', '+'}) && GoodTokens(toks)
    ensures |toks| >= 2 && toks[0].Sym? && toks[1].Word? && GoodPart(To(toks[0].c, toks[1].text)) && GoodTokens(toks[2..])
    ensures Redirs(c, toks) == Redirs(Redir(c, toks[1].text, ModeOf(toks[0].c)), toks[2..])
    ensures toks == [Sym(toks[0].c), Word(toks[1].text)] + toks[2..]
  {
    assert GoodToken(toks[1]);
  }

  lemma ToCons(p: Part, tos: seq<Part>, rest: seq<Token>)
    requires p.To?
    ensures PartTokens([p] + tos) + rest == [Sym(p.sym), Word(p.file)] + (PartTokens(tos) + rest)
  {
    assert ([p] + tos)[1..] == tos;
    ToFirst([p] + tos, rest);
  }

  lemma NoTokens(toks: seq<Token>)
    ensures PartTokens([]) + toks == toks
  {
  }

  lemma {:induction false} RedirsForm(c: Tree, toks: seq<Token>) returns (tos: seq<Part>)
    requires GoodTokens(toks) && Redirs(c, toks).Ok?
    ensures forall k :: 0 <= k < |tos| ==> tos[k].To? && GoodPart(tos[k])
    ensures var r := Redirs(c, toks); toks == PartTokens(tos) + r.rest && r.cmd == AddedAll(c, tos) && GoodTokens(r.rest)
    decreases |toks|
  {
    hide Redirs, Starts, GoodTokens, PartTokens, GoodPart, ModeOf;
    if Starts(toks, {'<', '>', '+'}) {
      RedirsStep(c, toks);
      var p := To(toks[0].c, toks[1].text);
      var more := RedirsForm(Added(c, p), toks[2..]);
      tos := [p] + more;
      ToCons(p, more, Redirs(c, toks).rest);
      assert tos[1..] == more;
    } else {
      RedirsStop(c, toks);
      tos := [];
      NoTokens(toks);
    }
  }

  lemma {:induction false} AppendTokens(ps: seq<Part>, qs: seq<Part>)
    ensures PartTokens(ps + qs) == PartTokens(ps) + PartTokens(qs)
    decreases |ps|
  {
    if ps == [] {
      assert ps + qs == qs;
    } else {
      assert (ps + qs)[1..] == ps[1..] + qs;
      AppendTokens(ps[1..], qs);
    }
  }

  lemma {:induction false} AppendWords(ps: seq<Part>, qs: seq<Part>)
    ensures Words(ps + qs) == Words(ps) + Words(qs)
    decreases |ps|
  {
    hide WordOf;
    if ps == [] {
      assert ps + qs == qs;
    } else {
      assert (ps + qs)[1..] == ps[1..] + qs && (ps + qs)[0] == ps[0];
      AppendWords(ps[1..], qs);
      Assoc(WordOf(ps[0]), Words(ps[1..]), Words(qs));
    }
  }

  lemma {:induction false} AppendTargets(ps: seq<Part>, qs: seq<Part>)
    ensures Targets(ps + qs) == Targets(ps) + Targets(qs)
    decreases |ps|
  {
    hide TargetOf;
    if ps == [] {
      assert ps + qs == qs;
    } else {
      assert (ps + qs)[1..] == ps[1..] + qs;
      AppendTargets(ps[1..], qs);
    }
  }

  lemma {:induction false} AppendAdded(c: Tree, ps: seq<Part>, qs: seq<Part>)
    ensures AddedAll(c, ps + qs) == AddedAll(AddedAll(c, ps), qs)
    decreases |ps|
  {
    if ps == [] {
      assert ps + qs == qs;
    } else {
      assert (ps + qs)[1..] == ps[1..] + qs && (ps + qs)[0] == ps[0];
      AppendAdded(Added(c, ps[0]), ps[1..], qs);
    }
  }

  lemma AppendParts(c: Tree, ps: seq<Part>, qs: seq<Part>)
    ensures PartTokens(ps + qs) == PartTokens(ps) + PartTokens(qs) && Words(ps + qs) == Words(ps) + Words(qs)
    ensures AddedAll(c, ps + qs) == AddedAll(AddedAll(c, ps), qs)
  {
    AppendTokens(ps, qs);
    AppendWords(ps, qs);
    AppendAdded(c, ps, qs);
  }

  lemma {:induction false} NoWords(tos: seq<Part>)
    requires forall k :: 0 <= k < |tos| ==> tos[k].To?
    ensures Words(tos) == []
  {
    if tos != [] {
      NoWords(tos[1..]);
    }
  }

  lemma ArgsStep(c: Tree, n: nat, toks: seq<Token>)
    requires Args(c, n, toks).Ok? && toks != [] && !Starts(toks, {'|', ')', '&', ';'})
    ensures toks[0].Word? && n + 1 < MAXARGS
    ensures var r := Redirs(AddWord(c, toks[0].text), toks[1..]); r.Ok? && Args(c, n, toks) == Args(r.cmd, n + 1, r.rest)
  {
  }

  lemma ArgsStop(c: Tree, n: nat, toks: seq<Token>)
    requires EndsWith(toks, {'|', ')', '&', ';'})
    ensures Args(c, n, toks) == Ok(c, toks)
  {
  }

  lemma {:induction false} ArgsForm(c: Tree, n: nat, toks: seq<Token>) returns (parts: seq<Part>)
    requires GoodTokens(toks) && n < MAXARGS && Args(c, n, toks).Ok?
    ensures n + |Words(parts)| < MAXARGS && forall k :: 0 <= k < |parts| ==> GoodPart(parts[k])
    ensures var r := Args(c, n, toks); toks == PartTokens(parts) + r.rest && r.cmd == AddedAll(c, parts) && GoodTokens(r.rest)
    decreases |toks|
  {
    hide Args, Redirs, Starts, GoodWord;
    if EndsWith(toks, {'|', ')', '&', ';'}) {
      ArgsStop(c, n, toks);
      parts := [];
      assert PartTokens([]) + toks == toks;
    } else {
      ArgsStep(c, n, toks);
      assert GoodToken(toks[0]);
      var p, tail := Arg(toks[0].text), toks[1..];
      assert GoodTokens(tail) && toks == [toks[0]] + tail;
      var tos := RedirsForm(Added(c, p), tail);
      var r := Redirs(Added(c, p), tail);
      var more := ArgsForm(r.cmd, n + 1, r.rest);
      NoWords(tos);
      hide GoodTokens, Words, PartTokens, AddedAll;
      parts := JoinParts(c, p, tos, more);
      JoinTokens([toks[0]], PartTokens(tos), PartTokens(more), Args(c, n, toks).rest);
    }
  }

  lemma ArgCons(c: Tree, p: Part, rest: seq<Part>)
    requires p.Arg?
    ensures var all := [p] + rest;
            && Words(all) == [p.w] + Words(rest) && PartTokens(all) == [Word(p.w)] + PartTokens(rest)
            && AddedAll(c, all) == AddedAll(Added(c, p), rest)
  {
    var all := [p] + rest;
    assert all[0] == p && all[1..] == rest;
    hide Added;
  }

  lemma JoinParts(c: Tree, p: Part, tos: seq<Part>, more: seq<Part>) returns (parts: seq<Part>)
    requires p.Arg? && Words(tos) == []
    ensures parts == [p] + tos + more
    ensures Words(parts) == [p.w] + Words(more) && PartTokens(parts) == [Word(p.w)] + (PartTokens(tos) + PartTokens(more))
    ensures AddedAll(c, parts) == AddedAll(AddedAll(Added(c, p), tos), more)
  {
    hide Words, PartTokens, AddedAll, Added;
    AppendParts(Added(c, p), tos, more);
    assert Words(tos) + Words(more) == Words(more);
    parts := [p] + (tos + more);
    Assoc([p], tos, more);
    ArgCons(c, p, tos + more);
  }

  lemma GoodBoth(ps: seq<Part>, qs: seq<Part>)
    requires (forall k :: 0 <= k < |ps| ==> GoodPart(ps[k])) && forall k :: 0 <= k < |qs| ==> GoodPart(qs[k])
    ensures forall k :: 0 <= k < |ps + qs| ==> GoodPart((ps + qs)[k])
  {
    hide GoodPart;
  }

  lemma SimpleShape(parts: seq<Part>)
    requires |Words(parts)| < MAXARGS && forall k :: 0 <= k < |parts| ==> GoodPart(parts[k])
    ensures var f := Simple(parts);
            Shape(f, 0) && Tokens(f) == PartTokens(parts) && TreeOf(f) == AddedAll(Exec([]), parts)
  {
    SimpleTree(parts);
  }

  lemma SimpleForm(toks: seq<Token>) returns (f: Form)
    requires GoodTokens(toks) && ExecOf(toks).Ok? && !Starts(toks, {'('})
    ensures var r := ExecOf(toks); Shape(f, 0) && toks == Tokens(f) + r.rest && r.cmd == TreeOf(f) && GoodTokens(r.rest)
  {
    var r := Redirs(Exec([]), toks);
    assert r.Ok? && ExecOf(toks) == Args(r.cmd, 0, r.rest);
    hide ExecOf, Redirs, Args, GoodTokens, GoodPart, PartTokens, Words, Targets, AddedAll, Wrap, Shape, Tokens, TreeOf;
    var tos := RedirsForm(Exec([]), toks);
    var parts := ArgsForm(r.cmd, 0, r.rest);
    NoWords(tos);
    AppendParts(Exec([]), tos, parts);
    GoodBoth(tos, parts);
    Assoc(PartTokens(tos), PartTokens(parts), ExecOf(toks).rest);
    SimpleShape(tos + parts);
    f := Simple(tos + parts);
  }

  lemma BlockStep(toks: seq<Token>)
    requires GoodTokens(toks) && ExecOf(toks).Ok? && Starts(toks, {'('})
    ensures toks == [Sym('(')] + toks[1..]
    ensures var r := LineOf(toks[1..]); r.Ok? && Starts(r.rest, {')'}) && ExecOf(toks) == Redirs(r.cmd, r.rest[1..])
  {
    hide LineOf, Redirs;
  }

  lemma BlockShape(line: Form, tos: seq<Part>)
    requires Shape(line, 3) && forall k :: 0 <= k < |tos| ==> tos[k].To? && GoodPart(tos[k])
    ensures var f := Block(line, tos);
            && Shape(f, 0) && TreeOf(f) == AddedAll(TreeOf(line), tos)
            && Tokens(f) == [Sym('(')] + Tokens(line) + [Sym(')')] + PartTokens(tos)
  {
    hide GoodPart;
    AddedTos(TreeOf(line), tos);
  }

  lemma BlockForm(toks: seq<Token>, line: Form) returns (f: Form)
    requires GoodTokens(toks) && ExecOf(toks).Ok? && Starts(toks, {'('}) && LineOf(toks[1..]).Ok?
    requires var r := LineOf(toks[1..]);
             Shape(line, 3) && toks[1..] == Tokens(line) + r.rest && r.cmd == TreeOf(line) && GoodTokens(r.rest)
    ensures var r := ExecOf(toks); Shape(f, 0) && toks == Tokens(f) + r.rest && r.cmd == TreeOf(f) && GoodTokens(r.rest)
  {
    hide ExecOf, LineOf, Redirs, GoodTokens, PartTokens, GoodPart, Starts, Shape, Tokens, TreeOf, AddedAll;
    BlockStep(toks);
    var r := LineOf(toks[1..]);
    GoodRest(r.rest, ')');
    var tos := RedirsForm(r.cmd, r.rest[1..]);
    BlockShape(line, tos);
    f := Block(line, tos);
    Regroup(Tokens(line), PartTokens(tos), ExecOf(toks).rest);
  }

  lemma {:induction false} ExecForm(toks: seq<Token>) returns (f: Form)
    requires GoodTokens(toks) && ExecOf(toks).Ok?
    ensures var r := ExecOf(toks); Shape(f, 0) && toks == Tokens(f) + r.rest && r.cmd == TreeOf(f) && GoodTokens(r.rest)
    decreases |toks|, 0
  {
    if Starts(toks, {'('}) {
      assert LineOf(toks[1..]).Ok?;
      hide ExecOf, LineOf, Shape, Tokens, TreeOf;
      var line := LineForm(toks[1..]);
      f := BlockForm(toks, line);
    } else {
      f := SimpleForm(toks);
    }
  }

  lemma GoodRest(toks: seq<Token>, c: char)
    requires GoodTokens(toks) && Starts(toks, {c})
    ensures toks == [Sym(c)] + toks[1..] && GoodTokens(toks[1..])
  {
  }

  lemma {:induction false} PipeForm(toks: seq<Token>) returns (f: Form)
    requires GoodTokens(toks) && PipeOf(toks).Ok?
    ensures var r := PipeOf(toks); Shape(f, 1) && toks == Tokens(f) + r.rest && r.cmd == TreeOf(f) && GoodTokens(r.rest)
    decreases |toks|, 1
  {
    hide ExecOf, LineOf, GoodTokens, Starts, Shape, Tokens, TreeOf;
    f := ExecForm(toks);
    var r := ExecOf(toks);
    if Starts(r.rest, {'|'}) {
      GoodRest(r.rest, '|');
      var g := PipeForm(r.rest[1..]);
      PipedForm(f, g, PipeOf(toks).rest);
      f := Piped(f, g);
    } else {
      Lower(f, 0, 1);
    }
  }

  lemma Lower(f: Form, a: nat, b: nat)
    requires Shape(f, a) && a <= b
    ensures Shape(f, b)
  {
  }

  lemma {:induction false} BacksForm(f: Form, toks: seq<Token>) returns (g: Form)
    requires Shape(f, 2) && GoodTokens(toks)
    ensures var r := Backs(TreeOf(f), toks);
            Shape(g, 2) && Tokens(f) + toks == Tokens(g) + r.rest && r.cmd == TreeOf(g) && GoodTokens(r.rest)
    decreases |toks|
  {
    g := f;
    if Starts(toks, {'&'}) {
      assert toks == [Sym('&')] + toks[1..];
      g := BacksForm(Amped(f), toks[1..]);
    }
  }

  /** Tokens that the parser accepts are those of a form, whose tree it gives. */
  lemma {:induction false} LineForm(toks: seq<Token>) returns (f: Form)
    requires GoodTokens(toks) && LineOf(toks).Ok?
    ensures var r := LineOf(toks); Shape(f, 3) && toks == Tokens(f) + r.rest && r.cmd == TreeOf(f) && GoodTokens(r.rest)
    decreases |toks|, 2
  {
    hide PipeOf, Backs, GoodTokens, Starts, Shape, Tokens, TreeOf;
    f := PipeForm(toks);
    Lower(f, 1, 2);
    var p := PipeOf(toks);
    f := BacksForm(f, p.rest);
    var r := Backs(p.cmd, p.rest);
    if Starts(r.rest, {';'}) {
      GoodRest(r.rest, ';');
      var g := LineForm(r.rest[1..]);
      ListedForm(f, g, LineOf(toks).rest);
      f := Listed(f, g);
    } else {
      Lower(f, 2, 3);
    }
  }

  // The text is a spelling of the form.
  ghost predicate Spells(s: string, f: Form, gaps: seq<string>) {
    |gaps| == |Tokens(f)| + 1 && Spaced(Tokens(f), gaps) && s == Spelled(Tokens(f), gaps)
  }

  lemma {:induction false} SpelledText(toks: seq<Token>, gaps: seq<string>)
    requires |gaps| == |toks| + 1 && Spaced(toks, gaps)
    ensures Text(Spelled(toks, gaps))
  {
    if toks != [] {
      GoodSpell(toks[0]);
      SpelledText(toks[1..], gaps[1..]);
    }
  }

  lemma {:induction false} SpacedGood(toks: seq<Token>, gaps: seq<string>)
    requires |gaps| == |toks| + 1 && Spaced(toks, gaps)
    ensures GoodTokens(toks)
  {
    if toks != [] {
      SpacedGood(toks[1..], gaps[1..]);
      assert forall k :: 0 < k < |toks| ==> toks[k] == toks[1..][k - 1];
    }
  }

  /**
    What the shell reads: a command line is accepted, as the tree t, exactly if it
    is a spelling of a form of t, in whatever spacing.
   */
  lemma CommandIff(s: string, t: Tree)
    requires Text(s)
    ensures CommandOf(s) == Ok(t, []) <==> exists f, gaps :: Shape(f, 3) && TreeOf(f) == t && Spells(s, f, gaps)
  {
    hide Lex, LineOf, Shape, Tokens, TreeOf, Spaced, Spelled;
    assert s[0..] == s;
    if CommandOf(s) == Ok(t, []) {
      var gaps := LexSound(s, 0);
      SpacedGood(Lex(s, 0), gaps);
      var f := LineForm(Lex(s, 0));
      assert Tokens(f) + [] == Tokens(f);
      assert Spells(s, f, gaps);
    }
    if f, gaps :| Shape(f, 3) && TreeOf(f) == t && Spells(s, f, gaps) {
      LexSpelled(s, 0, Tokens(f), gaps);
      ReadLine(f, []);
      assert Tokens(f) + [] == Tokens(f);
    }
  }
}
