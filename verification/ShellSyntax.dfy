/**
  What a shell command line means (sh.c): its tokens, and the parser over tokens.
 */
module ShellSyntax {
  const MAXARGS := 10

  datatype Mode = In | Out       // "<", and ">" or ">>", which sh.c opens alike

  // A command; W is what stands for a word.
  datatype Cmd<W> =
    | Exec(argv: seq<W>)
    | Redir(cmd: Cmd<W>, file: W, mode: Mode)
    | Pipe(left: Cmd<W>, right: Cmd<W>)
    | List(left: Cmd<W>, right: Cmd<W>)
    | Back(cmd: Cmd<W>)

  // '+' is ">>".
  datatype Token = Sym(c: char) | Word(text: string)

  predicate Space(c: char) {
    c == ' ' || c == '\t' || c == '\r' || c == '\n' || c == 11 as char
  }

  predicate Symbol(c: char) {
    c == '<' || c == '|' || c == '>' || c == '&' || c == ';' || c == '(' || c == ')'
  }

  predicate Plain(c: char) {
    !Space(c) && !Symbol(c) && c != 0 as char
  }

  function Skip(s: string, i: nat): (j: nat)
    requires i <= |s|
    ensures i <= j <= |s| && (forall k :: i <= k < j ==> Space(s[k])) && (j < |s| ==> !Space(s[j]))
    decreases |s| - i
  {
    if i < |s| && Space(s[i]) then Skip(s, i + 1) else i
  }

  function WordEnd(s: string, i: nat): (j: nat)
    requires i <= |s|
    ensures i <= j <= |s| && (forall k :: i <= k < j ==> Plain(s[k])) && (j < |s| ==> !Plain(s[j]))
    decreases |s| - i
  {
    if i < |s| && Plain(s[i]) then WordEnd(s, i + 1) else i
  }

  // No NUL: s is the text of a C string.
  predicate Text(s: string) {
    forall k :: 0 <= k < |s| ==> s[k] != 0 as char
  }

  // The tokens of s from position i on.
  function Lex(s: string, i: nat): (toks: seq<Token>)
    requires i <= |s| && Text(s)
    decreases |s| - i
  {
    var j := Skip(s, i);
    if j == |s| then []
    else if s[j] == '>' && j + 1 < |s| && s[j + 1] == '>' then [Sym('+')] + Lex(s, j + 2)
    else if Symbol(s[j]) then [Sym(s[j])] + Lex(s, j + 1)
    else
      var k := WordEnd(s, j);
      assert Plain(s[j]);
      [Word(s[j..k])] + Lex(s, k)
  }

  datatype Parsed = Ok(cmd: Cmd<string>, rest: seq<Token>) | Error

  predicate Starts(toks: seq<Token>, cs: set<char>) {
    toks != [] && toks[0].Sym? && toks[0].c in cs
  }

  function ModeOf(c: char): (m: Mode) {
    if c == '<' then In else Out
  }

  // parseredirs()
  function Redirs(c: Cmd<string>, toks: seq<Token>): (r: Parsed)
    ensures r.Ok? ==> |r.rest| <= |toks|
    decreases |toks|
  {
    if !Starts(toks, {'<', '>', '+'}) then Ok(c, toks)
    else if |toks| < 2 || !toks[1].Word? then Error
    else Redirs(Redir(c, toks[1].text, ModeOf(toks[0].c)), toks[2..])
  }

  // The word goes to the command the redirections are around.
  function AddWord<W>(c: Cmd<W>, w: W): (r: Cmd<W>) {
    match c
    case Exec(argv) => Exec(argv + [w])
    case Redir(cmd, file, mode) => Redir(AddWord(cmd, w), file, mode)
    case _ => c
  }

  // The loop of parseexec(), with n words so far.
  function Args(c: Cmd<string>, n: nat, toks: seq<Token>): (r: Parsed)
    ensures r.Ok? ==> |r.rest| <= |toks|
    decreases |toks|
  {
    if toks == [] || Starts(toks, {'|', ')', '&', ';'}) then Ok(c, toks)
    else if toks[0].Sym? || n + 1 >= MAXARGS then Error
    else
      var r := Redirs(AddWord(c, toks[0].text), toks[1..]);
      if r.Error? then Error else Args(r.cmd, n + 1, r.rest)
  }

  // parseexec()
  function ExecOf(toks: seq<Token>): (r: Parsed)
    ensures r.Ok? ==> |r.rest| <= |toks|
    decreases |toks|, 0
  {
    if Starts(toks, {'('}) then
      var r := LineOf(toks[1..]);
      if r.Error? || !Starts(r.rest, {')'}) then Error else Redirs(r.cmd, r.rest[1..])
    else
      var r := Redirs(Exec([]), toks);
      if r.Error? then Error else Args(r.cmd, 0, r.rest)
  }

  // parsepipe()
  function PipeOf(toks: seq<Token>): (r: Parsed)
    ensures r.Ok? ==> |r.rest| <= |toks|
    decreases |toks|, 1
  {
    var r := ExecOf(toks);
    if r.Error? || !Starts(r.rest, {'|'}) then r
    else
      var q := PipeOf(r.rest[1..]);
      if q.Error? then Error else Ok(Pipe(r.cmd, q.cmd), q.rest)
  }

  // The "&" behind a pipeline.
  function Backs(c: Cmd<string>, toks: seq<Token>): (r: Parsed)
    ensures r.Ok? && |r.rest| <= |toks|
    decreases |toks|
  {
    if Starts(toks, {'&'}) then Backs(Back(c), toks[1..]) else Ok(c, toks)
  }

  // parseline()
  function LineOf(toks: seq<Token>): (r: Parsed)
    ensures r.Ok? ==> |r.rest| <= |toks|
    decreases |toks|, 2
  {
    var p := PipeOf(toks);
    if p.Error? then Error
    else
      var r := Backs(p.cmd, p.rest);
      if !Starts(r.rest, {';'}) then r
      else
        var q := LineOf(r.rest[1..]);
        if q.Error? then Error else Ok(List(r.cmd, q.cmd), q.rest)
  }

  // parsecmd(): a whole command line.
  function CommandOf(s: string): (r: Parsed)
    requires Text(s)
  {
    var r := LineOf(Lex(s, 0));
    if r.Ok? && r.rest == [] then r else Error
  }
}
