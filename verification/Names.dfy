/**
  File names: comparing and copying the 14-byte names of directory entries
  (string.c, namecmp in fs.c).
 */
module Names {
  import opened FsBytes

  const DIRSIZ := 14
  const SLASH: Byte := 47

  // What a name field or a C string says: its bytes up to a NUL, at most DIRSIZ.
  function KeyLen(s: Bytes, k: nat): (n: nat)
    requires k <= DIRSIZ && k <= |s|
    ensures k <= n <= DIRSIZ && n <= |s| && forall j :: k <= j < n ==> s[j] != 0
    ensures n == DIRSIZ || n == |s| || s[n] == 0
    decreases DIRSIZ - k
  {
    if k == DIRSIZ || k == |s| || s[k] == 0 then k else KeyLen(s, k + 1)
  }

  function Key(s: Bytes): (key: Bytes)
    ensures |key| == KeyLen(s, 0)
    ensures forall j :: 0 <= j < |key| ==> key[j] == s[j] != 0
  {
    s[..KeyLen(s, 0)]
  }

  // A NUL or DIRSIZ bytes: strncmp and strncpy do not run off its end.
  predicate Name(s: Bytes) {
    |s| >= DIRSIZ || 0 in s
  }

  lemma KeyLenIs(s: Bytes, n: nat)
    requires n <= DIRSIZ && n <= |s| && (forall j :: 0 <= j < n ==> s[j] != 0) && (n == DIRSIZ || (n < |s| && s[n] == 0))
    ensures KeyLen(s, 0) == n
  {
  }

  lemma KeyEnds(s: Bytes)
    requires Name(s)
    ensures KeyLen(s, 0) == DIRSIZ || (KeyLen(s, 0) < |s| && s[KeyLen(s, 0)] == 0)
  {
  }

  // Two names agree on their first i bytes, none of them NUL.
  predicate Agree(s: Bytes, t: Bytes, i: nat) {
    i <= |s| && i <= |t| && forall j :: 0 <= j < i ==> s[j] == t[j] != 0
  }

  lemma AgreeEnds(s: Bytes, t: Bytes, i: nat)
    requires Agree(s, t, i) && i <= DIRSIZ && (i == DIRSIZ || (i < |s| && i < |t| && (s[i] == 0 || s[i] != t[i])))
    ensures Key(s) == Key(t) <==> i == DIRSIZ || s[i] == t[i]
  {
    hide KeyLen;
    if i == DIRSIZ || s[i] == t[i] {
      KeyLenIs(s, i);
      KeyLenIs(t, i);
    } else if Key(s) == Key(t) {
      KeyDiffers(s, t, i);
    }
  }

  lemma KeyDiffers(s: Bytes, t: Bytes, i: nat)
    requires Agree(s, t, i) && i < DIRSIZ && i < |s| && i < |t| && s[i] != t[i]
    ensures Key(s) != Key(t)
  {
    if s[i] == 0 {
      KeyLenIs(s, i);
    } else if t[i] == 0 {
      KeyLenIs(t, i);
    } else if KeyLen(s, 0) > i && KeyLen(t, 0) > i {
      assert Key(s)[i] == s[i] && Key(t)[i] == t[i];
    }
  }

  lemma InReach(s: Bytes, t: Bytes, i: nat)
    requires Name(s) && i < DIRSIZ && Agree(s, t, i)
    ensures i < |s|
  {
  }

  /** namecmp(): zero exactly for names that say the same. */
  method Namecmp(s: Bytes, t: Bytes) returns (d: int)
    requires Name(s) && Name(t)
    ensures d == 0 <==> Key(s) == Key(t)
  {
    hide Key, KeyLen, Name;
    var i := 0;
    while i < DIRSIZ
      invariant 0 <= i <= DIRSIZ && Agree(s, t, i)
    {
      InReach(s, t, i);
      InReach(t, s, i);
      if s[i] == 0 || s[i] != t[i] {
        break;
      }
      i := i + 1;
    }
    AgreeEnds(s, t, i);
    if i == DIRSIZ {
      return 0;
    }
    return s[i] as int - t[i] as int;
  }

  // s is the first i bytes of a field holding the key of t.
  predicate Filled(s: Bytes, t: Bytes, n: nat) {
    n <= |t| && forall j :: 0 <= j < |s| ==> s[j] == if j < n then t[j] else 0
  }

  lemma FilledMore(s: Bytes, t: Bytes, n: nat)
    requires Filled(s, t, n)
    ensures Filled(s + [if |s| < n then t[|s|] else 0], t, n)
  {
  }

  lemma FilledKey(s: Bytes, t: Bytes)
    requires |s| == DIRSIZ && Name(t) && Filled(s, t, KeyLen(t, 0))
    ensures Key(s) == Key(t) && forall j :: |Key(t)| <= j < DIRSIZ ==> s[j] == 0
  {
    KeyLenIs(s, KeyLen(t, 0));
  }

  /** strncpy() of a name into a field: the field says what the name says. */
  method Strncpy(t: Bytes) returns (s: Bytes)
    requires Name(t)
    ensures |s| == DIRSIZ && Key(s) == Key(t) && forall j :: |Key(t)| <= j < DIRSIZ ==> s[j] == 0
  {
    KeyEnds(t);
    ghost var n := KeyLen(t, 0);
    s := [];
    assert Filled(s, t, n);
    hide Key, KeyLen, Name, Filled;
    while |s| < DIRSIZ && t[|s|] != 0
      invariant |s| <= n && Filled(s, t, n)
      decreases DIRSIZ - |s|
    {
      assert |s| != n;
      FilledMore(s, t, n);
      s := s + [t[|s|]];
    }
    assert |s| == n;
    while |s| < DIRSIZ
      invariant n <= |s| <= DIRSIZ && Filled(s, t, n)
      decreases DIRSIZ - |s|
    {
      FilledMore(s, t, n);
      s := s + [0];
    }
    FilledKey(s, t);
  }
}
