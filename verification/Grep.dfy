/** The regular expressions of grep (grep.c): the matcher against what an expression means. */
module Grep {
  // One(c): a character; Many(c): any number of it; End: the end of the text.
  // The character '.' stands for every character.
  datatype Item = One(c: char) | Many(c: char) | End

  function Parse(re: string): (items: seq<Item>) {
    if re == "" then []
    else if |re| >= 2 && re[1] == '*' then [Many(re[0])] + Parse(re[2..])
    else if re == "$" then [End]
    else [One(re[0])] + Parse(re[1..])
  }

  predicate Fits(c: char, d: char) {
    c == '.' || c == d
  }

  predicate AllFit(c: char, s: string) {
    forall i :: 0 <= i < |s| ==> Fits(c, s[i])
  }

  // s belongs to a single item.
  predicate Piece(item: Item, s: string) {
    match item
    case One(c) => |s| == 1 && Fits(c, s[0])
    case Many(c) => AllFit(c, s)
    case End => s == ""
  }

  // s is a piece of each item, one behind the other.
  ghost predicate Lang(items: seq<Item>, s: string) {
    if items == [] then s == ""
    else exists k :: 0 <= k <= |s| && Piece(items[0], s[..k]) && Lang(items[1..], s[k..])
  }

  // text[i..j] is where the expression can match: in its language, and at the end if it asks for that.
  ghost predicate Matches(items: seq<Item>, text: string, i: nat, j: nat) {
    i <= j <= |text| && Lang(items, text[i..j]) && (End in items ==> j == |text|)
  }

  // The expression matches at the beginning of text.
  ghost predicate Here(items: seq<Item>, text: string) {
    exists j: nat :: Matches(items, text, 0, j)
  }

  lemma HereNone(text: string)
    ensures Here([], text)
  {
    assert text[0..0] == "";
    assert Matches([], text, 0, 0);
  }

  lemma HereEnd(text: string)
    ensures Here([End], text) <==> text == ""
  {
    if text == "" {
      assert text[0..0] == "" && text[..0] == "" && text[0..] == "";
      assert Lang([End][1..], "");
      assert Lang([End], text[0..0]);
      assert Matches([End], text, 0, 0);
    }
    if Here([End], text) {
      var j: nat :| Matches([End], text, 0, j);
      EndLang(text[0..j]);
    }
  }

  lemma EndLang(s: string)
    requires Lang([End], s)
    ensures s == ""
  {
    var k :| 0 <= k <= |s| && Piece(End, s[..k]) && Lang([End][1..], s[k..]);
    assert s == s[..k] + s[k..];
  }

  // The first item takes k characters, the others match behind them.
  lemma HereSplit(item: Item, rest: seq<Item>, text: string, k: nat)
    requires item != End && k <= |text| && Piece(item, text[..k]) && Here(rest, text[k..])
    ensures Here([item] + rest, text)
  {
    var items := [item] + rest;
    var j: nat :| Matches(rest, text[k..], 0, j);
    var s := text[0..k + j];
    assert k + j <= |text|;
    assert s[..k] == text[..k];
    assert forall i :: 0 <= i < j ==> s[k..][i] == text[k + i] == text[k..][0..j][i];
    assert s[k..] == text[k..][0..j];
    assert items[1..] == rest;
    assert Lang(items, s);
    assert Matches(items, text, 0, k + j);
  }

  lemma HereFirst(item: Item, rest: seq<Item>, text: string) returns (k: nat)
    requires item != End && Here([item] + rest, text)
    ensures k <= |text| && Piece(item, text[..k]) && Here(rest, text[k..])
  {
    var items := [item] + rest;
    assert items[1..] == rest;
    var j: nat :| Matches(items, text, 0, j);
    var s := text[0..j];
    k :| 0 <= k <= |s| && Piece(items[0], s[..k]) && Lang(items[1..], s[k..]);
    assert s[..k] == text[..k] && s[k..] == text[k..][0..j - k];
    assert Matches(rest, text[k..], 0, j - k);
  }

  lemma HereOne(c: char, rest: seq<Item>, text: string)
    ensures Here([One(c)] + rest, text) <==> text != "" && Fits(c, text[0]) && Here(rest, text[1..])
  {
    if Here([One(c)] + rest, text) {
      var k := HereFirst(One(c), rest, text);
      assert text[..k][0] == text[0];
    }
    if text != "" && Fits(c, text[0]) && Here(rest, text[1..]) {
      HereSplit(One(c), rest, text, 1);
    }
  }

  lemma HereMany(c: char, rest: seq<Item>, text: string)
    ensures Here([Many(c)] + rest, text) <==> exists k :: 0 <= k <= |text| && AllFit(c, text[..k]) && Here(rest, text[k..])
  {
    if Here([Many(c)] + rest, text) {
      var k := HereFirst(Many(c), rest, text);
      assert AllFit(c, text[..k]);
    }
    if k :| 0 <= k <= |text| && AllFit(c, text[..k]) && Here(rest, text[k..]) {
      HereSplit(Many(c), rest, text, k);
    }
  }

  /** matchhere(): the expression matches at the beginning of text. */
  method MatchHere(re: string, text: string) returns (r: bool)
    ensures r <==> Here(Parse(re), text)
    decreases |re|, 1
  {
    if re == "" {
      HereNone(text);
      return true;
    }
    if |re| >= 2 && re[1] == '*' {
      HereMany(re[0], Parse(re[2..]), text);
      r := MatchStar(re[0], re[2..], text);
      return;
    }
    if re == "$" {
      HereEnd(text);
      return text == "";
    }
    HereOne(re[0], Parse(re[1..]), text);
    if text != "" && (re[0] == '.' || re[0] == text[0]) {
      r := MatchHere(re[1..], text[1..]);
      return;
    }
    return false;
  }

  /** matchstar(): zero or more times c, then the expression. */
  method MatchStar(c: char, re: string, text: string) returns (r: bool)
    ensures r <==> exists k :: 0 <= k <= |text| && AllFit(c, text[..k]) && Here(Parse(re), text[k..])
    decreases |re|, 2
  {
    var k := 0;
    while true
      invariant 0 <= k <= |text| && AllFit(c, text[..k])
      invariant forall m :: 0 <= m < k ==> !Here(Parse(re), text[m..])
      decreases |text| - k
    {
      r := MatchHere(re, text[k..]);
      if r || k == |text| || !(text[k] == c || c == '.') {
        break;
      }
      k := k + 1;
    }
    Stops(c, text, k);
  }

  // No run of c goes beyond a character that does not fit.
  lemma Stops(c: char, text: string, k: nat)
    requires k <= |text|
    ensures k < |text| && !Fits(c, text[k]) ==> forall m :: k < m <= |text| ==> !AllFit(c, text[..m])
  {
    assert forall m :: k < m <= |text| ==> text[..m][k] == text[k];
  }

  // What a whole expression asks for: a leading '^' ties it to the beginning.
  ghost predicate Means(re: string, text: string) {
    if re != "" && re[0] == '^' then exists j: nat :: Matches(Parse(re[1..]), text, 0, j)
    else exists i: nat, j: nat :: Matches(Parse(re), text, i, j)
  }

  lemma HereAt(items: seq<Item>, text: string, i: nat)
    requires i <= |text|
    ensures Here(items, text[i..]) <==> exists j: nat :: Matches(items, text, i, j)
  {
    if Here(items, text[i..]) {
      var j: nat :| Matches(items, text[i..], 0, j);
      assert text[i..][0..j] == text[i..i + j];
      assert Matches(items, text, i, i + j);
    }
    if j: nat :| Matches(items, text, i, j) {
      assert text[i..][0..j - i] == text[i..j];
      assert Matches(items, text[i..], 0, j - i);
    }
  }

  /** match(): some part of text, at a place the expression allows, is in its language. */
  method Match(re: string, text: string) returns (r: bool)
    ensures r <==> Means(re, text)
  {
    if re != "" && re[0] == '^' {
      r := MatchHere(re[1..], text);
      return;
    }
    var i := 0;
    while true
      invariant 0 <= i <= |text|
      invariant forall m: nat, j: nat :: m < i ==> !Matches(Parse(re), text, m, j)
      decreases |text| - i
    {
      HereAt(Parse(re), text, i);
      r := MatchHere(re, text[i..]);
      if r || i == |text| {
        return;
      }
      i := i + 1;
    }
  }

  // How an expression is written down.

  function Written(item: Item): (s: string)
    ensures |s| >= 1
  {
    match item
    case One(c) => [c]
    case Many(c) => [c, '*']
    case End => "$"
  }

  function Show(items: seq<Item>): (s: string) {
    if items == [] then "" else Written(items[0]) + Show(items[1..])
  }

  // The items can be told apart again: the end comes last, no single character is
  // followed by something that begins with '*', and no '$' that is a character comes last.
  predicate Canonical(items: seq<Item>) {
    items == [] || (Canonical(items[1..]) && Leads(items[0], items[1..]))
  }

  predicate Leads(item: Item, rest: seq<Item>) {
    match item
    case One(c) => if rest == [] then c != '$' else Written(rest[0])[0] != '*'
    case Many(_) => true
    case End => rest == []
  }

  lemma {:induction false} ParseShow(items: seq<Item>)
    requires Canonical(items)
    ensures Parse(Show(items)) == items
  {
    if items != [] {
      var item, rest := items[0], items[1..];
      ParseShow(rest);
      var w, s := Written(item), Show(items);
      assert s == w + Show(rest) && s[|w|..] == Show(rest);
      assert rest != [] ==> Show(rest)[0] == Written(rest[0])[0];
    }
  }

  lemma {:induction false} ShowParse(re: string)
    ensures Show(Parse(re)) == re && Canonical(Parse(re))
  {
    if re != "" {
      var items := Parse(re);
      var w := Written(items[0]);
      assert re[..|w|] == w && re == w + re[|w|..];
      ShowParse(re[|w|..]);
      assert items[1..] == Parse(re[|w|..]);
      assert items[1..] != [] ==> Show(items[1..])[0] == Written(items[1])[0];
    }
  }

  /** Every expression is the writing of exactly one list of items that can be told apart, the one it is parsed into. */
  lemma ParseIff(re: string, items: seq<Item>)
    ensures Parse(re) == items <==> Show(items) == re && Canonical(items)
  {
    ShowParse(re);
    if Show(items) == re && Canonical(items) {
      ParseShow(items);
    }
  }

  /** matchhere() of a written list of items: the items match at the beginning of text. */
  method MatchItems(items: seq<Item>, text: string) returns (r: bool)
    requires Canonical(items)
    ensures r <==> Here(items, text)
  {
    ParseShow(items);
    r := MatchHere(Show(items), text);
  }

  /** match() of a written list of items, tied to the beginning by '^' or not. */
  method MatchAnywhere(items: seq<Item>, tied: bool, text: string) returns (r: bool)
    requires Canonical(items) && (!tied && items != [] ==> Written(items[0])[0] != '^')
    ensures r <==> exists i: nat, j: nat :: (tied ==> i == 0) && Matches(items, text, i, j)
  {
    ParseShow(items);
    var re := if tied then "^" + Show(items) else Show(items);
    assert tied ==> re[1..] == Show(items);
    r := Match(re, text);
  }
}
