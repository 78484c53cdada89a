/** The whole way of a command through sh.c: printed, parsed and read by runcmd(). */
module ShellRoundTrip {
  import opened Results
  import opened ShellGrammar
  import opened ShellParser
  import opened ShellPrint
  import opened ShellSyntax

  function WordAt(a: seq<char>, w: Span): (t: string) {
    if w.q <= |a| then ReadBack(a, w.q) else ""
  }

  // The tree as runcmd() sees it: each word runs from its pointer to the next NUL.
  function Seen(a: seq<char>, c: Cmd<Span>): (t: Tree) {
    match c
    case Exec(argv) => Exec(seq(|argv|, k requires 0 <= k < |argv| => WordAt(a, argv[k])))
    case Redir(cmd, file, mode) => Redir(Seen(a, cmd), WordAt(a, file), mode)
    case Pipe(left, right) => Pipe(Seen(a, left), Seen(a, right))
    case List(left, right) => List(Seen(a, left), Seen(a, right))
    case Back(cmd) => Back(Seen(a, cmd))
  }

  lemma {:induction false} SeenText(s: string, a: seq<char>, c: Cmd<Span>)
    requires forall w :: Has(c, w) ==> w.q <= |a| && ReadBack(a, w.q) == Cut(s, w)
    ensures Seen(a, c) == TextOf(s, c)
  {
    hide ReadBack, Cut;
    match c
    case Exec(argv) =>
      forall k | 0 <= k < |argv|
        ensures WordAt(a, argv[k]) == Cut(s, argv[k])
      {
        assert Has(c, argv[k]);
      }
    case Redir(cmd, file, _) =>
      assert Has(c, file);
      SeenText(s, a, cmd);
    case Pipe(left, right) =>
      SeenText(s, a, left);
      SeenText(s, a, right);
    case List(left, right) =>
      SeenText(s, a, left);
      SeenText(s, a, right);
    case Back(cmd) => SeenText(s, a, cmd);
  }

  /**
    parsecmd() on a line of n characters: it is accepted exactly if it is a spelling
    of a form, and then runcmd() sees the tree of that form, words and all.
   */
  method ParseSpelled(a: array<char>, n: nat) returns (r: Outcome<Cmd<Span>>)
    requires n < a.Length && a[n] == NUL && Text(a[..n])
    modifies a
    ensures var s := old(a[..n]);
            && (r.Done? ==> exists f, gaps :: Shape(f, 3) && Spells(s, f, gaps))
            && forall f, gaps :: Shape(f, 3) && Spells(s, f, gaps) ==> r.Done? && Seen(a[..n + 1], r.value) == TreeOf(f)
  {
    ghost var s := a[..n];
    hide Shape, Spells, TreeOf, Text, CommandOf, ReadBack, Cut, TextOf, Has, Seen;
    r := ParseBuffer(a, n);
    if r.Done? {
      SeenText(s, a[..n + 1], r.value);
      CommandDone(s);
    }
    forall f, gaps | Shape(f, 3) && Spells(s, f, gaps)
      ensures r.Done? && Seen(a[..n + 1], r.value) == TreeOf(f)
    {
      CommandIff(s, TreeOf(f));
    }
  }

  lemma CommandDone(s: string)
    requires Text(s) && CommandOf(s).Ok?
    ensures exists f, gaps :: Shape(f, 3) && Spells(s, f, gaps)
  {
    var t := CommandOf(s).cmd;
    assert CommandOf(s) == Ok(t, []);
    hide Shape, Spells, TreeOf, Text, CommandOf;
    CommandIff(s, t);
  }

  /** A printed tree comes back from parsecmd() as the same tree, words and all. */
  method ParsePrinted(t: Tree, a: array<char>, n: nat) returns (r: Outcome<Cmd<Span>>)
    requires Printable(t) && n < a.Length && a[..n] == Print(t) && a[n] == NUL
    modifies a
    ensures r.Done? && Seen(a[..n + 1], r.value) == t
  {
    PrintSpells(t);
    FormLineIs(t);
    hide Print, Shape, Spells, TreeOf, FormLine, Spaces, Tokens, Printable, Text, Seen;
    r := ParseSpelled(a, n);
  }
}
