/**
  The names of a container's own files: the path, "$" and the number of the
  container (my_itoa, strcat and mystrcmp in sysfile.c).
 */
module PrivateNames {
  import opened FsBytes

  const DOLLAR: Byte := 36
  const ZERO: Byte := 48

  function Decimal(i: nat): (s: Bytes)
    ensures |s| >= 1 && forall k :: 0 <= k < |s| ==> ZERO <= s[k] <= ZERO + 9
  {
    var d: Byte := ZERO + i % 10;
    if i < 10 then [d] else Decimal(i / 10) + [d]
  }

  // The number a string of digits stands for.
  function Value(s: Bytes): (n: int) {
    if s == [] then 0 else 10 * Value(s[..|s| - 1]) + (s[|s| - 1] as int - ZERO as int)
  }

  lemma DecimalLast(i: nat)
    ensures var s := Decimal(i);
            s[|s| - 1] == ZERO + i % 10 && s[..|s| - 1] == if i < 10 then [] else Decimal(i / 10)
  {
  }

  lemma {:induction false} DecimalValue(i: nat)
    ensures Value(Decimal(i)) == i
  {
    DecimalLast(i);
    hide Decimal;
    if i >= 10 {
      DecimalValue(i / 10);
    }
  }

  function Suffix(cid: nat): (s: Bytes) {
    [DOLLAR] + Decimal(cid)
  }

  function PrivateName(path: Bytes, cid: nat): (s: Bytes) {
    path + Suffix(cid)
  }

  // The last "$" of a private name is where its path ends.
  ghost predicate EndsAt(s: Bytes, n: nat) {
    n < |s| && s[n] == DOLLAR && forall k :: n < k < |s| ==> s[k] != DOLLAR
  }

  lemma DollarAt(p: Bytes, c: nat)
    ensures EndsAt(PrivateName(p, c), |p|)
    ensures PrivateName(p, c)[..|p|] == p && PrivateName(p, c)[|p| + 1..] == Decimal(c)
  {
    var s := PrivateName(p, c);
    forall k | |p| < k < |s|
      ensures s[k] != DOLLAR
    {
      assert s[k] == Decimal(c)[k - |p| - 1];
    }
  }

  /** Different files, or different containers, have different private names. */
  lemma PrivateNameInjective(p: Bytes, c: nat, q: Bytes, d: nat)
    requires PrivateName(p, c) == PrivateName(q, d)
    ensures p == q && c == d
  {
    DollarAt(p, c);
    DollarAt(q, d);
    hide PrivateName, Decimal, Value;
    DecimalValue(c);
    DecimalValue(d);
  }

  // The digits of i, backwards from position end: the second loop of my_itoa().
  method PutDigits(i: nat, b: array<Byte>, end: nat) returns (p: nat)
    requires |Decimal(i)| <= end <= b.Length
    modifies b
    ensures p == end - |Decimal(i)| && b[p..end] == Decimal(i)
    ensures forall k :: 0 <= k < b.Length && !(p <= k < end) ==> b[k] == old(b[k])
  {
    ghost var all := Decimal(i);
    ghost var base := end - |all|;
    DecimalLast(i);
    hide Decimal;
    p := end - 1;
    b[p] := ZERO + i % 10;
    var n := i / 10;
    while n > 0
      invariant base <= p < end && (if n > 0 then all[..p - base] == Decimal(n) else p == base)
      invariant forall k :: p <= k < end ==> b[k] == all[k - base]
      invariant forall k :: 0 <= k < b.Length && !(p <= k < end) ==> b[k] == old(b[k])
    {
      DecimalLast(n);
      assert all[p - base - 1] == all[..p - base][p - base - 1];
      assert all[..p - base][..p - base - 1] == all[..p - base - 1];
      p := p - 1;
      b[p] := ZERO + n % 10;
      n := n / 10;
    }
  }

  /** my_itoa(): "$", the decimal digits of i and a NUL; the rest of the buffer stays. */
  method MyItoa(i: nat, b: array<Byte>)
    requires |Suffix(i)| + 1 <= b.Length
    modifies b
    ensures b[..|Suffix(i)| + 1] == Suffix(i) + [0]
    ensures forall k :: |Suffix(i)| < k < b.Length ==> b[k] == old(b[k])
  {
    hide Decimal;
    var p := DigitCount(i);
    p := p + 1;
    b[p] := 0;
    var q := PutDigits(i, b, p);
    b[q - 1] := DOLLAR;
    assert b[1..p] == Decimal(i);
  }

  // The first loop of my_itoa().
  method DigitCount(i: nat) returns (d: nat)
    ensures d == |Decimal(i)|
  {
    var n := i / 10;
    d := 1;
    while n > 0
      invariant d + (if n > 0 then |Decimal(n)| else 0) == |Decimal(i)|
    {
      d := d + 1;
      n := n / 10;
    }
  }

  /** strcat(): a new string, the first one followed by the second. */
  method Strcat(s: Bytes, t: Bytes) returns (r: Bytes)
    ensures r == s + t
  {
    r := [];
    var i := 0;
    while i < |s|
      invariant 0 <= i <= |s| && r == s[..i]
    {
      r, i := r + [s[i]], i + 1;
    }
    i := 0;
    while i < |t|
      invariant 0 <= i <= |t| && r == s + t[..i]
    {
      r, i := r + [t[i]], i + 1;
    }
  }

  // The byte at position i of a C string, its NUL included.
  function CharAt(s: Bytes, i: nat): (c: Byte)
    requires i <= |s|
  {
    if i < |s| then s[i] else 0
  }

  // As long as each other, and the same behind the first character.
  predicate Similar(s: Bytes, t: Bytes) {
    |s| == |t| && forall k :: 1 <= k < |s| ==> s[k] == t[k]
  }

  /** mystrcmp(): compares backwards from the NUL, and never looks at the first character. */
  method MyStrcmp(s: Bytes, t: Bytes) returns (same: bool)
    ensures same <==> Similar(s, t)
  {
    if |s| != |t| {
      return false;
    }
    var i := |s|;
    while i > 0
      invariant 0 <= i <= |s| && forall k :: i < k < |s| ==> s[k] == t[k]
    {
      if CharAt(s, i) != CharAt(t, i) {
        return false;
      }
      i := i - 1;
    }
    return true;
  }

  /** mystrcmp() is string equality exactly for strings that do not differ in the first character alone. */
  lemma SimilarIff(s: Bytes, t: Bytes)
    ensures (Similar(s, t) <==> s == t) <==> !(|s| == |t| > 0 && s[0] != t[0] && s[1..] == t[1..])
  {
    if |s| == |t| > 0 {
      assert Similar(s, t) <==> s[1..] == t[1..] by {
        if Similar(s, t) {
          assert forall k :: 0 <= k < |s| - 1 ==> s[1..][k] == s[k + 1];
        } else {
          var k :| 1 <= k < |s| && s[k] != t[k];
          assert s[1..][k - 1] != t[1..][k - 1];
        }
      }
      assert s == [s[0]] + s[1..] && t == [t[0]] + t[1..];
    }
  }
}
