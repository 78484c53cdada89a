/** The recursive-descent parser of the shell, and the NULs it puts behind the words (sh.c). */
module ShellParser {
  import opened Results
  import opened ShellSyntax

  const NUL: char := 0 as char

  // A word of the input: from q up to eq.
  datatype Span = Span(q: nat, eq: nat)

  // A span is a whole word: nothing in it is a separator, and what follows it is one.
  predicate GoodSpan(s: string, w: Span) {
    w.q < w.eq <= |s| && (forall k :: w.q <= k < w.eq ==> Plain(s[k])) && (w.eq < |s| ==> !Plain(s[w.eq]))
  }

  predicate AllGood(s: string, c: Cmd<Span>) {
    match c
    case Exec(argv) => forall k :: 0 <= k < |argv| ==> GoodSpan(s, argv[k])
    case Redir(cmd, file, _) => AllGood(s, cmd) && GoodSpan(s, file)
    case Pipe(left, right) => AllGood(s, left) && AllGood(s, right)
    case List(left, right) => AllGood(s, left) && AllGood(s, right)
    case Back(cmd) => AllGood(s, cmd)
  }

  function Cut(s: string, w: Span): (t: string) {
    if w.q <= w.eq <= |s| then s[w.q..w.eq] else ""
  }

  // The tree with the text of its words.
  function TextOf(s: string, c: Cmd<Span>): (t: Cmd<string>) {
    match c
    case Exec(argv) => Exec(seq(|argv|, k requires 0 <= k < |argv| => Cut(s, argv[k])))
    case Redir(cmd, file, mode) => Redir(TextOf(s, cmd), Cut(s, file), mode)
    case Pipe(left, right) => Pipe(TextOf(s, left), TextOf(s, right))
    case List(left, right) => List(TextOf(s, left), TextOf(s, right))
    case Back(cmd) => Back(TextOf(s, cmd))
  }

  lemma {:induction false} AddWordText(s: string, c: Cmd<Span>, w: Span)
    requires AllGood(s, c) && GoodSpan(s, w)
    ensures TextOf(s, AddWord(c, w)) == AddWord(TextOf(s, c), Cut(s, w)) && AllGood(s, AddWord(c, w))
  {
    match c
    case Exec(argv) =>
      var t := TextOf(s, c);
      assert TextOf(s, AddWord(c, w)).argv == t.argv + [Cut(s, w)];
    case Redir(cmd, _, _) => AddWordText(s, cmd, w);
    case _ =>
  }

  lemma LexSkip(s: string, i: nat)
    requires i <= |s| && Text(s)
    ensures Lex(s, Skip(s, i)) == Lex(s, i) && Skip(s, Skip(s, i)) == Skip(s, i)
  {
    SkipTwice(s, i);
  }

  lemma SkipTwice(s: string, i: nat)
    requires i <= |s|
    ensures Skip(s, Skip(s, i)) == Skip(s, i)
  {
  }

  // The next token, by the first character that is no space.
  lemma LexAt(s: string, i: nat)
    requires i <= |s| && Text(s)
    ensures var j := Skip(s, i);
            if j == |s| then Lex(s, i) == []
            else if s[j] == '>' && j + 1 < |s| && s[j + 1] == '>' then Lex(s, i) == [Sym('+')] + Lex(s, j + 2)
            else if Symbol(s[j]) then Lex(s, i) == [Sym(s[j])] + Lex(s, j + 1)
            else var k := WordEnd(s, j);
                 && j < k && GoodSpan(s, Span(j, k)) && Lex(s, i) == [Word(Cut(s, Span(j, k)))] + Lex(s, k)
  {
    var j := Skip(s, i);
    if j < |s| && !Symbol(s[j]) {
      assert Plain(s[j]);
    }
  }

  // What peek() of a character says about the next token.
  lemma PeekToken(s: string, i: nat)
    requires i <= |s| && Text(s)
    ensures var j := Skip(s, i);
            if j == |s| then Lex(s, i) == []
            else Lex(s, i) != [] && if !Symbol(s[j]) then Lex(s, i)[0].Word?
                 else Lex(s, i)[0] == Sym(s[j]) || (s[j] == '>' && Lex(s, i)[0] == Sym('+'))
  {
  }

  lemma NoWords(s: string)
    ensures AllGood(s, Exec([])) && TextOf(s, Exec([])) == Exec([])
  {
  }

  lemma RedirGood(s: string, c: Cmd<Span>, w: Span, mode: Mode)
    requires AllGood(s, c) && GoodSpan(s, w)
    ensures AllGood(s, Redir(c, w, mode)) && TextOf(s, Redir(c, w, mode)) == Redir(TextOf(s, c), Cut(s, w), mode)
  {
  }

  // g is what the grammar says of the input, r what the parser found, i where it is now.
  ghost predicate Reads(s: string, g: Parsed, r: Outcome<Cmd<Span>>, i: nat) {
    match g
    case Ok(t, rest) => r.Done? && AllGood(s, r.value) && TextOf(s, r.value) == t && i <= |s| && Text(s) && Lex(s, i) == rest
    case Error => r.Panic?
  }

  class Parser {
    const s: string
    var ps: nat

    ghost predicate Valid()
      reads this
    {
      Text(s) && ps <= |s|
    }

    ghost function Toks(): (t: seq<Token>)
      requires Valid()
      reads this
    {
      Lex(s, ps)
    }

    constructor (s: string)
      requires Text(s)
      ensures Valid() && this.s == s && ps == 0
    {
      this.s, ps := s, 0;
    }

    method SkipSpace(i: nat) returns (j: nat)
      requires i <= |s|
      ensures j == Skip(s, i)
    {
      j := i;
      while j < |s| && Space(s[j])
        invariant i <= j <= |s| && Skip(s, j) == Skip(s, i)
      {
        j := j + 1;
      }
    }

    /** peek(): whether the next character is one of the given ones. */
    method Peek(cs: set<char>) returns (r: bool)
      requires Valid()
      modifies this`ps
      ensures Valid() && ps >= old(ps) && Toks() == old(Toks()) && ps == Skip(s, old(ps))
      ensures r <==> ps < |s| && s[ps] in cs
      ensures cs <= {'|', ')', '&', ';', '('} ==> (r <==> Starts(Toks(), cs))
      ensures cs == {'<', '>'} ==> (r <==> Starts(Toks(), {'<', '>', '+'}))
    {
      LexSkip(s, ps);
      PeekToken(s, ps);
      hide Lex;
      ps := SkipSpace(ps);
      r := ps < |s| && s[ps] in cs;
    }

    /** gettoken(): the next token, 'a' for a word, NUL at the end; q and eq say where it is. */
    method GetToken() returns (tok: char, q: nat, eq: nat)
      requires Valid()
      modifies this`ps
      ensures Valid() && ps >= old(ps)
      ensures old(Toks()) == [] ==> tok == NUL && Toks() == []
      ensures old(Toks()) != [] ==> tok != NUL && ps > old(ps) && Toks() == old(Toks())[1..]
      ensures old(Toks()) != [] && old(Toks())[0].Sym? ==> tok == old(Toks())[0].c != 'a'
      ensures old(Toks()) != [] && old(Toks())[0].Word? ==>
                tok == 'a' && GoodSpan(s, Span(q, eq)) && Cut(s, Span(q, eq)) == old(Toks())[0].text
    {
      LexSkip(s, ps);
      q := SkipSpace(ps);
      hide Lex, Skip, GoodSpan, Cut;
      tok, eq := Scan(q);
      LexSkip(s, eq);
      ps := SkipSpace(eq);
    }

    // The switch of gettoken().
    method Scan(q: nat) returns (tok: char, eq: nat)
      requires Text(s) && q <= |s| && q == Skip(s, q)
      ensures q <= eq <= |s|
      ensures if Lex(s, q) == [] then tok == NUL && Lex(s, eq) == []
              else q < eq && tok != NUL && Lex(s, q)[1..] == Lex(s, eq)
      ensures Lex(s, q) != [] && Lex(s, q)[0].Sym? ==> tok == Lex(s, q)[0].c != 'a'
      ensures Lex(s, q) != [] && Lex(s, q)[0].Word? ==>
                tok == 'a' && GoodSpan(s, Span(q, eq)) && Cut(s, Span(q, eq)) == Lex(s, q)[0].text
    {
      LexAt(s, q);
      hide Lex, Skip, WordEnd, Plain, GoodSpan, Cut;
      eq := q;
      if q == |s| {
        tok := NUL;
      } else if s[q] == '|' || s[q] == '(' || s[q] == ')' || s[q] == ';' || s[q] == '&' || s[q] == '<' {
        tok, eq := s[q], q + 1;
      } else if s[q] == '>' {
        tok, eq := '>', q + 1;
        if eq < |s| && s[eq] == '>' {
          tok, eq := '+', eq + 1;
        }
      } else {
        tok := 'a';
        eq := ScanWord(q);
      }
    }

    method ScanWord(i: nat) returns (j: nat)
      requires i <= |s| && Text(s)
      ensures j == WordEnd(s, i)
    {
      j := i;
      while j < |s| && !Space(s[j]) && !Symbol(s[j])
        invariant i <= j <= |s| && WordEnd(s, j) == WordEnd(s, i)
      {
        j := j + 1;
      }
    }

    /** parseredirs() */
    method ParseRedirs(c: Cmd<Span>) returns (r: Outcome<Cmd<Span>>)
      requires Valid() && AllGood(s, c)
      modifies this`ps
      ensures Valid() && ps >= old(ps) && Reads(s, Redirs(TextOf(s, c), old(Toks())), r, ps)
    {
      hide Lex, Cut, AllGood;
      ghost var goal := Redirs(TextOf(s, c), Toks());
      var cmd := c;
      var more := Peek({'<', '>'});
      while more
        invariant Valid() && ps >= old(ps) && AllGood(s, cmd) && Redirs(TextOf(s, cmd), Toks()) == goal
        invariant more == Starts(Toks(), {'<', '>', '+'})
        decreases |s| - ps
      {
        ghost var toks := Toks();
        var tok, q0, eq0 := GetToken();
        var a, q, eq := GetToken();
        if a != 'a' {
          return Panic("missing file for redirection");
        }
        assert toks[1].Word?;
        assert toks[2..] == toks[1..][1..];
        RedirGood(s, cmd, Span(q, eq), if tok == '<' then In else Out);
        cmd := Redir(cmd, Span(q, eq), if tok == '<' then In else Out);
        more := Peek({'<', '>'});
      }
      return Done(cmd);
    }

    // The loop of parseexec() over the words.
    method ParseArgs(c: Cmd<Span>) returns (r: Outcome<Cmd<Span>>)
      requires Valid() && AllGood(s, c)
      modifies this`ps
      ensures Valid() && ps >= old(ps) && Reads(s, Args(TextOf(s, c), 0, old(Toks())), r, ps)
    {
      hide Lex, Cut, AllGood, Redirs;
      ghost var goal := Args(TextOf(s, c), 0, Toks());
      var cmd, argc := c, 0;
      var stop := Peek({'|', ')', '&', ';'});
      while !stop
        invariant Valid() && ps >= old(ps) && AllGood(s, cmd) && Args(TextOf(s, cmd), argc, Toks()) == goal
        invariant stop == Starts(Toks(), {'|', ')', '&', ';'})
        decreases |s| - ps
      {
        ghost var toks, at := Toks(), ps;
        var tok, q, eq := GetToken();
        if tok == NUL {
          break;
        }
        if tok != 'a' {
          return Panic("syntax");
        }
        AddWordText(s, cmd, Span(q, eq));
        cmd := AddWord(cmd, Span(q, eq));
        argc := argc + 1;
        if argc >= MAXARGS {
          return Panic("too many args");
        }
        var w := ParseRedirs(cmd);
        if w.Panic? {
          return w;
        }
        cmd := w.value;
        stop := Peek({'|', ')', '&', ';'});
      }
      return Done(cmd);
    }

    /** parseexec(), with parseblock() */
    method ParseExec() returns (r: Outcome<Cmd<Span>>)
      requires Valid()
      modifies this`ps
      ensures Valid() && ps >= old(ps) && Reads(s, ExecOf(old(Toks())), r, ps)
      decreases |s| - ps, 1
    {
      hide Lex, Cut, AllGood, Redirs, Args, LineOf;
      var block := Peek({'('});
      if block {
        r := ParseBlock();
        return;
      }
      NoWords(s);
      r := ParseRedirs(Exec([]));
      if r.Done? {
        r := ParseArgs(r.value);
      }
    }

    method ParseBlock() returns (r: Outcome<Cmd<Span>>)
      requires Valid() && Starts(Toks(), {'('})
      modifies this`ps
      ensures Valid() && ps >= old(ps) && Reads(s, ExecOf(old(Toks())), r, ps)
      decreases |s| - ps, 0
    {
      hide Lex, Cut, AllGood, Redirs, Args, LineOf;
      var tok, q, eq := GetToken();
      r := ParseLine();
      if r.Panic? {
        return;
      }
      var closed := Peek({')'});
      if !closed {
        return Panic("syntax - missing )");
      }
      tok, q, eq := GetToken();
      r := ParseRedirs(r.value);
    }

    /** parsepipe() */
    method ParsePipe() returns (r: Outcome<Cmd<Span>>)
      requires Valid()
      modifies this`ps
      ensures Valid() && ps >= old(ps) && Reads(s, PipeOf(old(Toks())), r, ps)
      decreases |s| - ps, 2
    {
      hide Lex, Cut, ExecOf;
      r := ParseExec();
      if r.Panic? {
        return;
      }
      var more := Peek({'|'});
      if more {
        var tok, q, eq := GetToken();
        var right := ParsePipe();
        if right.Panic? {
          return right;
        }
        r := Done(Pipe(r.value, right.value));
      }
    }

    /** parseline() */
    method ParseLine() returns (r: Outcome<Cmd<Span>>)
      requires Valid()
      modifies this`ps
      ensures Valid() && ps >= old(ps) && Reads(s, LineOf(old(Toks())), r, ps)
      decreases |s| - ps, 3
    {
      hide Lex, Cut, PipeOf;
      r := ParsePipe();
      if r.Panic? {
        return;
      }
      var cmd := ParseBacks(r.value);
      r := Done(cmd);
      var more := Peek({';'});
      if more {
        var tok, q, eq := GetToken();
        var right := ParseLine();
        if right.Panic? {
          return right;
        }
        r := Done(List(cmd, right.value));
      }
    }

    // The loop of parseline() over "&".
    method ParseBacks(c: Cmd<Span>) returns (cmd: Cmd<Span>)
      requires Valid() && AllGood(s, c)
      modifies this`ps
      ensures Valid() && ps >= old(ps) && Reads(s, Backs(TextOf(s, c), old(Toks())), Done(cmd), ps)
    {
      hide Lex, Cut;
      ghost var goal := Backs(TextOf(s, c), Toks());
      cmd := c;
      var more := Peek({'&'});
      while more
        invariant Valid() && ps >= old(ps) && AllGood(s, cmd) && Backs(TextOf(s, cmd), Toks()) == goal
        invariant more == Starts(Toks(), {'&'})
        decreases |s| - ps
      {
        var tok, q, eq := GetToken();
        cmd := Back(cmd);
        more := Peek({'&'});
      }
    }

    /** parsecmd(), before nulterminate(): the whole line is read, or the shell complains. */
    method ParseCmd() returns (r: Outcome<Cmd<Span>>)
      requires Valid() && ps == 0
      modifies this`ps
      ensures r.Done? <==> CommandOf(s).Ok?
      ensures r.Done? ==> AllGood(s, r.value) && TextOf(s, r.value) == CommandOf(s).cmd
    {
      hide LineOf, AllGood, Cut;
      r := ParseLine();
      if r.Panic? {
        return;
      }
      var more := Peek({});
      AtEnd(s, ps);
      if ps != |s| {
        return Panic("syntax");
      }
    }
  }

  // Nothing but spaces is left exactly when no token is.
  lemma AtEnd(s: string, i: nat)
    requires i <= |s| && Text(s) && Skip(s, i) == i
    ensures Lex(s, i) == [] <==> i == |s|
  {
  }

  // The positions nulterminate() writes to: the ends of all words.
  function Ends(c: Cmd<Span>): (e: set<nat>) {
    match c
    case Exec(argv) => set k | 0 <= k < |argv| :: argv[k].eq
    case Redir(cmd, file, _) => Ends(cmd) + {file.eq}
    case Pipe(left, right) => Ends(left) + Ends(right)
    case List(left, right) => Ends(left) + Ends(right)
    case Back(cmd) => Ends(cmd)
  }

  // A word of the tree.
  predicate Has(c: Cmd<Span>, w: Span) {
    match c
    case Exec(argv) => w in argv
    case Redir(cmd, file, _) => Has(cmd, w) || w == file
    case Pipe(left, right) => Has(left, w) || Has(right, w)
    case List(left, right) => Has(left, w) || Has(right, w)
    case Back(cmd) => Has(cmd, w)
  }

  /** nulterminate(): a NUL goes behind every word, and nothing else changes. */
  method NulTerminate(c: Cmd<Span>, a: array<char>)
    requires forall e :: e in Ends(c) ==> e < a.Length
    modifies a
    ensures forall k :: 0 <= k < a.Length ==> a[k] == if k in Ends(c) then NUL else old(a[k])
    decreases c
  {
    match c
    case Exec(argv) =>
      var i := 0;
      while i < |argv|
        invariant 0 <= i <= |argv|
        invariant forall k :: 0 <= k < a.Length ==> a[k] == if k in Ends(Exec(argv[..i])) then NUL else old(a[k])
      {
        assert argv[i].eq in Ends(c);
        assert Ends(Exec(argv[..i + 1])) == Ends(Exec(argv[..i])) + {argv[i].eq} by {
          EndsSnoc(argv, i);
        }
        a[argv[i].eq] := NUL;
        i := i + 1;
      }
      assert argv[..i] == argv;
    case Redir(cmd, file, _) =>
      assert Ends(cmd) <= Ends(c) && file.eq in Ends(c);
      NulTerminate(cmd, a);
      a[file.eq] := NUL;
    case Pipe(left, right) =>
      assert Ends(left) <= Ends(c) && Ends(right) <= Ends(c);
      NulTerminate(left, a);
      NulTerminate(right, a);
    case List(left, right) =>
      assert Ends(left) <= Ends(c) && Ends(right) <= Ends(c);
      NulTerminate(left, a);
      NulTerminate(right, a);
    case Back(cmd) =>
      assert Ends(cmd) <= Ends(c);
      NulTerminate(cmd, a);
  }

  lemma EndsSnoc(argv: seq<Span>, i: nat)
    requires i < |argv|
    ensures Ends(Exec(argv[..i + 1])) == Ends(Exec(argv[..i])) + {argv[i].eq}
  {
    var e, f := Ends(Exec(argv[..i + 1])), Ends(Exec(argv[..i]));
    forall k | k in f
      ensures k in e
    {
      var j :| 0 <= j < i && argv[..i][j].eq == k;
      assert argv[..i + 1][j].eq == k;
    }
    assert argv[..i + 1][i].eq == argv[i].eq;
    forall k | k in e
      ensures k in f || k == argv[i].eq
    {
      var j :| 0 <= j <= i && argv[..i + 1][j].eq == k;
      assert j < i ==> argv[..i][j].eq == k;
    }
  }

  // The C string that starts at q.
  function ReadBack(a: seq<char>, q: nat): (t: string)
    requires q <= |a|
    decreases |a| - q
  {
    if q == |a| || a[q] == NUL then "" else [a[q]] + ReadBack(a, q + 1)
  }

  lemma {:induction false} ReadBackIs(a: seq<char>, q: nat, e: nat)
    requires q <= e < |a| && a[e] == NUL && forall k :: q <= k < e ==> a[k] != NUL
    ensures ReadBack(a, q) == a[q..e]
    decreases e - q
  {
    if q < e {
      ReadBackIs(a, q + 1, e);
      assert a[q..e] == [a[q]] + a[q + 1..e];
    }
  }

  lemma {:induction false} EndsGood(s: string, c: Cmd<Span>, e: nat)
    requires AllGood(s, c) && e in Ends(c)
    ensures e <= |s| && (e < |s| ==> !Plain(s[e]))
  {
    match c
    case Exec(argv) =>
    case Redir(cmd, file, _) => if e in Ends(cmd) { EndsGood(s, cmd, e); }
    case Pipe(left, right) => if e in Ends(left) { EndsGood(s, left, e); } else { EndsGood(s, right, e); }
    case List(left, right) => if e in Ends(left) { EndsGood(s, left, e); } else { EndsGood(s, right, e); }
    case Back(cmd) => EndsGood(s, cmd, e);
  }

  lemma {:induction false} HasGood(s: string, c: Cmd<Span>, w: Span)
    requires AllGood(s, c) && Has(c, w)
    ensures GoodSpan(s, w) && w.eq in Ends(c)
  {
    match c
    case Exec(argv) =>
      var k :| 0 <= k < |argv| && argv[k] == w;
      assert argv[k].eq in Ends(c);
    case Redir(cmd, file, _) => if Has(cmd, w) { HasGood(s, cmd, w); }
    case Pipe(left, right) => if Has(left, w) { HasGood(s, left, w); } else { HasGood(s, right, w); }
    case List(left, right) => if Has(left, w) { HasGood(s, left, w); } else { HasGood(s, right, w); }
    case Back(cmd) => HasGood(s, cmd, w);
  }

  /** After nulterminate() every word of the tree reads back as itself: no terminator falls inside a word. */
  lemma WordsReadBack(s: string, a: seq<char>, c: Cmd<Span>, w: Span)
    requires Text(s) && AllGood(s, c) && Has(c, w) && |a| == |s| + 1
    requires forall k :: 0 <= k <= |s| ==> a[k] == if k in Ends(c) || k == |s| then NUL else s[k]
    ensures w.q < |a| && ReadBack(a, w.q) == Cut(s, w)
  {
    HasGood(s, c, w);
    forall k | w.q <= k < w.eq
      ensures a[k] == s[k] != NUL
    {
      if k in Ends(c) {
        EndsGood(s, c, k);
      }
    }
    ReadBackIs(a, w.q, w.eq);
    assert a[w.q..w.eq] == s[w.q..w.eq];
  }

  /**
    parsecmd(): the buffer holds a command line of n characters and a NUL.  It is
    accepted exactly if the grammar accepts it, with the grammar's tree, and then
    every word of the tree reads back from the buffer.
   */
  method ParseBuffer(a: array<char>, n: nat) returns (r: Outcome<Cmd<Span>>)
    requires n < a.Length && a[n] == NUL && Text(a[..n])
    modifies a
    ensures var s := old(a[..n]);
            && (r.Done? <==> CommandOf(s).Ok?)
            && (r.Done? ==> TextOf(s, r.value) == CommandOf(s).cmd
                            && forall w :: Has(r.value, w) ==> w.q <= n && ReadBack(a[..n + 1], w.q) == Cut(s, w))
  {
    var s := a[..n];
    var p := new Parser(s);
    hide CommandOf, Cut, ReadBack, AllGood;
    r := p.ParseCmd();
    if r.Done? {
      var c := r.value;
      forall e | e in Ends(c)
        ensures e <= n
      {
        EndsGood(s, c, e);
      }
      NulTerminate(c, a);
      forall w | Has(c, w)
        ensures w.q <= n && ReadBack(a[..n + 1], w.q) == Cut(s, w)
      {
        WordsReadBack(s, a[..n + 1], c, w);
      }
    }
  }
}
