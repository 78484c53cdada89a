/** Taking a path apart (skipelem in fs.c). */
module Paths {
  import opened FsBytes
  import opened Names
  import opened Results

  // The fields of s between its slashes, empty ones included.
  function Split(s: Bytes): (fields: seq<Bytes>)
    ensures |fields| >= 1
  {
    if s == [] then [[]]
    else
      var rest := Split(s[1..]);
      if s[0] == SLASH then [[]] + rest else [[s[0]] + rest[0]] + rest[1..]
  }

  function NonEmpty(fields: seq<Bytes>): (r: seq<Bytes>)
  {
    if fields == [] then [] else (if fields[0] == [] then [] else [fields[0]]) + NonEmpty(fields[1..])
  }

  // The path elements: what lies between slashes and is not empty.
  function Components(s: Bytes): (r: seq<Bytes>) {
    NonEmpty(Split(s))
  }

  predicate Plain(c: Bytes) {
    forall j :: 0 <= j < |c| ==> c[j] != SLASH
  }

  lemma LeadingSlash(s: Bytes)
    requires s != [] && s[0] == SLASH
    ensures Components(s) == Components(s[1..])
  {
    assert ([[]] + Split(s[1..]))[1..] == Split(s[1..]);
  }

  lemma {:induction false} SplitPlain(c: Bytes, t: Bytes)
    requires Plain(c) && (t == [] || t[0] == SLASH)
    ensures Split(c + t) == [c] + Split(t)[1..]
  {
    if c == [] {
      assert c + t == t;
      if t != [] {
        assert Split(t)[0] == [];
      }
    } else {
      SplitPlain(c[1..], t);
      assert (c + t)[1..] == c[1..] + t;
      assert [c[0]] + c[1..] == c;
    }
  }

  lemma FirstComponent(c: Bytes, t: Bytes)
    requires c != [] && Plain(c) && (t == [] || t[0] == SLASH)
    ensures Components(c + t) == [c] + Components(t)
  {
    SplitPlain(c, t);
    var rest := Split(t)[1..];
    assert ([c] + rest)[1..] == rest;
    if t == [] {
      assert rest == [];
    } else {
      assert Split(t)[0] == [];
    }
    assert Split(t)[0] == [] && NonEmpty(Split(t)) == NonEmpty(rest);
  }

  lemma {:induction false} LeadingSlashes(s: Bytes, k: nat)
    requires k <= |s| && forall j :: 0 <= j < k ==> s[j] == SLASH
    ensures Components(s[k..]) == Components(s)
  {
    if k == 0 {
      assert s[k..] == s;
    } else {
      LeadingSlash(s);
      LeadingSlashes(s[1..], k - 1);
      assert s[1..][k - 1..] == s[k..];
    }
  }

  lemma SomeComponent(s: Bytes)
    requires s != [] && s[0] != SLASH
    ensures Components(s) != []
  {
    assert Split(s)[0] != [];
  }

  // A C string: no NUL inside.
  predicate Text(s: Bytes) {
    forall j :: 0 <= j < |s| ==> s[j] != 0
  }

  // A path element as a directory stores it.
  function Cut(c: Bytes): (r: Bytes) {
    if |c| >= DIRSIZ then c[..DIRSIZ] else c
  }

  // The number of slashes, or of other bytes, s starts with.
  method Run(s: Bytes, slash: bool) returns (k: nat)
    ensures k <= |s| && (forall j :: 0 <= j < k ==> (s[j] == SLASH) == slash)
    ensures k < |s| ==> (s[k] == SLASH) != slash
  {
    k := 0;
    while k < |s| && (s[k] == SLASH) == slash
      invariant k <= |s| && forall j :: 0 <= j < k ==> (s[j] == SLASH) == slash
    {
      k := k + 1;
    }
  }

  method SkipSlashes(s: Bytes) returns (t: Bytes)
    requires Text(s)
    ensures |t| <= |s| && Text(t) && Components(t) == Components(s)
    ensures (t == [] || t[0] != SLASH) && (t == [] <==> Components(s) == [])
  {
    var k := Run(s, true);
    LeadingSlashes(s, k);
    t := s[k..];
    if t != [] {
      SomeComponent(t);
    }
  }

  // The name buffer skipelem() fills from an element.
  method CopyName(c: Bytes) returns (name: Bytes)
    requires Text(c)
    ensures Name(name) && Key(name) == Cut(c)
  {
    name := if |c| >= DIRSIZ then c[..DIRSIZ] else c + [0];
    KeyLenIs(name, if |c| >= DIRSIZ then DIRSIZ else |c|);
    assert |c| < DIRSIZ ==> name[|c|] == 0;
  }

  // rest and name are what is left of a path and its first element: nothing for
  // a path without elements, else rest has the other elements, name says the
  // first one cut to DIRSIZ bytes, and rest is empty only behind the last one.
  ghost predicate Skips(path: Bytes, rest: Option<Bytes>, name: Bytes) {
    if rest.None? then Components(path) == []
    else
      && |rest.value| < |path| && Text(rest.value) && Name(name)
      && Components(path) != [] && Components(path)[1..] == Components(rest.value)
      && Key(name) == Cut(Components(path)[0])
      && (rest.value == [] <==> |Components(path)| == 1)
  }

  /**
    skipelem(): the first path element, cut to DIRSIZ bytes, and the rest of
    the path without leading slashes; nothing if there is no element left.
   */
  method Skipelem(path: Bytes) returns (rest: Option<Bytes>, name: Bytes)
    requires Text(path)
    ensures Skips(path, rest, name)
  {
    hide Components, Key, Name, Cut;
    var s := SkipSlashes(path);
    if s == [] {
      return None, [];
    }
    var len := Run(s, false);
    var c, t := s[..len], s[len..];
    FirstComponent(c, t);
    assert s == c + t;
    name := CopyName(c);
    var u := SkipSlashes(t);
    rest := Some(u);
  }
}
