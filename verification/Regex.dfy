/** The regular expression matcher of xv6-l/grep.c, against the language of its patterns. */
module Regex {

  /** A C string, without its terminating NUL. */
  ghost predicate CString(s: seq<char>) {
    forall i :: 0 <= i < |s| ==> s[i] != '\0'
  }

  /** What *p is at position i, the NUL at the end included. */
  function At(s: seq<char>, i: nat): char
    requires i <= |s|
  {
    if i < |s| then s[i] else '\0'
  }

  /** The items of a pattern: c, c* and a closing $. */
  datatype Item = One(c: char) | Star(c: char) | End

  function Parse(re: seq<char>): seq<Item> {
    if re == [] then []
    else if |re| >= 2 && re[1] == '*' then [Star(re[0])] + Parse(re[2..])
    else if re == ['$'] then [End]
    else [One(re[0])] + Parse(re[1..])
  }

  /** The characters of a list of items. */
  function Spell(items: seq<Item>): seq<char> {
    if items == [] then []
    else (match items[0] case One(c) => [c] case Star(c) => [c, '*'] case End => ['$']) + Spell(items[1..])
  }

  /** A $ stands for the end only in the last place, and always there, and a * after a character stars it. */
  predicate Proper(items: seq<Item>) {
    if items == [] then true
    else
      && (items[0] == One('$') ==> items[1..] != [])
      && (items[0] == End ==> items[1..] == [])
      && (items[0].One? && items[1..] != [] ==> !(['*'] <= Spell(items[1..])))
      && Proper(items[1..])
  }

  /** Every pattern is read as items that spell it, and no other items do. */
  lemma {:induction false} ParseSpells(re: seq<char>)
    ensures Spell(Parse(re)) == re && Proper(Parse(re))
    decreases |re|
  {
    if re == [] {
    } else if |re| >= 2 && re[1] == '*' {
      ParseSpells(re[2..]);
      assert Parse(re)[1..] == Parse(re[2..]) && re == [re[0], '*'] + re[2..];
    } else if re == ['$'] {
      assert Parse(re)[1..] == [];
    } else {
      ParseSpells(re[1..]);
      assert Parse(re)[1..] == Parse(re[1..]) && re == [re[0]] + re[1..];
    }
  }

  lemma {:induction false} ParseOnly(items: seq<Item>)
    requires Proper(items)
    ensures Parse(Spell(items)) == items
    decreases |items|
  {
    if items != [] {
      var rest := items[1..];
      ParseOnly(rest);
      var re := Spell(items);
      assert items == [items[0]] + rest;
      match items[0]
      case One(c) => assert re[1..] == Spell(rest);
      case Star(c) => assert re[2..] == Spell(rest);
      case End => assert re == ['$'];
    }
  }

  predicate Fits(c: char, x: char) {
    c == '.' || c == x
  }

  // ---------------------------------------------------------------- the language

  /** The strings that one item stands for. */
  ghost predicate ItemWord(item: Item, s: seq<char>) {
    match item
    case One(c) => |s| == 1 && Fits(c, s[0])
    case Star(c) => forall k :: 0 <= k < |s| ==> Fits(c, s[k])
    case End => s == []
  }

  /** The strings that a list of items stands for: one word of each item after the other. */
  ghost predicate Word(items: seq<Item>, s: seq<char>) {
    if items == [] then s == []
    else exists k :: 0 <= k <= |s| && ItemWord(items[0], s[..k]) && Word(items[1..], s[k..])
  }

  predicate Closed(items: seq<Item>) {
    items != [] && items[|items| - 1] == End
  }

  /** Some piece of the text from i on, reaching its end if the pattern says so, is a word of the pattern. */
  ghost predicate MatchesAt(items: seq<Item>, text: seq<char>, i: nat) {
    exists j :: i <= j <= |text| && (Closed(items) ==> j == |text|) && Word(items, text[i..j])
  }

  /** Some piece of the text, from its start if the pattern begins with ^. */
  ghost predicate Matches(re: seq<char>, text: seq<char>) {
    if re != [] && re[0] == '^' then MatchesAt(Parse(re[1..]), text, 0)
    else exists i: nat :: i <= |text| && MatchesAt(Parse(re), text, i)
  }

  // ---------------------------------------------------------------- one item at a time

  lemma MatchesNone(text: seq<char>, i: nat)
    requires i <= |text|
    ensures MatchesAt([], text, i)
  {
    assert Word([], text[i..i]);
  }

  lemma MatchesEnd(text: seq<char>, i: nat)
    requires i <= |text|
    ensures MatchesAt([End], text, i) <==> i == |text|
  {
    assert i == |text| ==> Word([End], text[i..|text|]) by {
      var s: seq<char> := [];
      assert ItemWord(End, s[..0]) && Word([End][1..], s[0..]);
      assert Word([End], s);
      assert i == |text| ==> text[i..|text|] == s;
    }
    if MatchesAt([End], text, i) {
      var s := text[i..|text|];
      var k :| 0 <= k <= |s| && ItemWord(End, s[..k]) && Word([End][1..], s[k..]);
    }
  }

  lemma Cut(text: seq<char>, i: nat, m: nat, j: nat)
    requires i <= m <= j <= |text|
    ensures text[i..j][..m - i] == text[i..m] && text[i..j][m - i..] == text[m..j]
  {
  }

  /** A pattern matches at i when its first item's word runs from i to some m and the rest matches at m. */
  lemma MatchesFirst(item: Item, rest: seq<Item>, text: seq<char>, i: nat, m: nat)
    requires i <= m <= |text| && ItemWord(item, text[i..m]) && MatchesAt(rest, text, m)
    requires item == End ==> rest != []
    ensures MatchesAt([item] + rest, text, i)
  {
    var j :| m <= j <= |text| && (Closed(rest) ==> j == |text|) && Word(rest, text[m..j]);
    var all, s := [item] + rest, text[i..j];
    assert all[1..] == rest;
    Cut(text, i, m, j);
    assert Word(all, s);
    assert rest != [] ==> all[|all| - 1] == rest[|rest| - 1];
  }

  lemma MatchesSplit(item: Item, rest: seq<Item>, text: seq<char>, i: nat) returns (m: nat)
    requires i <= |text| && MatchesAt([item] + rest, text, i)
    ensures i <= m <= |text| && ItemWord(item, text[i..m]) && MatchesAt(rest, text, m)
  {
    var all := [item] + rest;
    var j :| i <= j <= |text| && (Closed(all) ==> j == |text|) && Word(all, text[i..j]);
    var s := text[i..j];
    var k :| 0 <= k <= |s| && ItemWord(all[0], s[..k]) && Word(all[1..], s[k..]);
    m := i + k;
    assert all[1..] == rest;
    Cut(text, i, m, j);
    assert rest != [] ==> all[|all| - 1] == rest[|rest| - 1];
  }

  // ---------------------------------------------------------------- the matcher

  /** match */
  method Match(re: seq<char>, text: seq<char>) returns (r: bool)
    requires CString(re) && CString(text)
    ensures r <==> Matches(re, text)
  {
    if At(re, 0) == '^' {
      r := MatchHere(re[1..], text, 0);
      return;
    }
    var i := 0;
    while true
      invariant i <= |text| && forall h: nat :: h < i ==> !MatchesAt(Parse(re), text, h)
      decreases |text| - i
    {
      var here := MatchHere(re, text, i);
      if here { return true; }
      if At(text, i) == '\0' { break; }
      i := i + 1;
    }
    r := false;
  }

  /** matchhere */
  method MatchHere(re: seq<char>, text: seq<char>, i: nat) returns (r: bool)
    requires CString(re) && CString(text) && i <= |text|
    ensures r <==> MatchesAt(Parse(re), text, i)
    decreases |re|, 0
  {
    if At(re, 0) == '\0' {
      MatchesNone(text, i);
      return true;
    }
    if At(re, 1) == '*' {
      r := MatchStar(re[0], re[2..], text, i);
      return;
    }
    if re[0] == '$' && At(re, 1) == '\0' {
      assert re == ['$'];
      MatchesEnd(text, i);
      return At(text, i) == '\0';
    }
    OneStep(re[0], Parse(re[1..]), text, i);
    if At(text, i) != '\0' && (re[0] == '.' || re[0] == text[i]) {
      r := MatchHere(re[1..], text, i + 1);
    } else {
      r := false;
    }
  }

  lemma OneStep(c: char, rest: seq<Item>, text: seq<char>, i: nat)
    requires i <= |text|
    ensures MatchesAt([One(c)] + rest, text, i) <==> i < |text| && Fits(c, text[i]) && MatchesAt(rest, text, i + 1)
  {
    if MatchesAt([One(c)] + rest, text, i) {
      var m := MatchesSplit(One(c), rest, text, i);
    }
    if i < |text| && Fits(c, text[i]) && MatchesAt(rest, text, i + 1) {
      assert ItemWord(One(c), text[i..i + 1]);
      MatchesFirst(One(c), rest, text, i, i + 1);
    }
  }

  /** matchstar: some number of the characters that c fits, and then the rest. */
  method MatchStar(c: char, re: seq<char>, text: seq<char>, from: nat) returns (r: bool)
    requires CString(re) && CString(text) && from <= |text|
    ensures r <==> MatchesAt([Star(c)] + Parse(re), text, from)
    decreases |re|, 1
  {
    var i := from;
    while true
      invariant from <= i <= |text| && forall k :: from <= k < i ==> Fits(c, text[k])
      invariant forall h: nat :: from <= h < i ==> !MatchesAt(Parse(re), text, h)
      decreases |text| - i
    {
      var here := MatchHere(re, text, i);
      if here {
        assert ItemWord(Star(c), text[from..i]);
        MatchesFirst(Star(c), Parse(re), text, from, i);
        return true;
      }
      if At(text, i) == '\0' || !(text[i] == c || c == '.') { break; }
      i := i + 1;
    }
    StarFails(c, Parse(re), text, from, i);
    r := false;
  }

  /** The words of c* cannot run past i, and the rest matches nowhere up to there. */
  lemma StarFails(c: char, rest: seq<Item>, text: seq<char>, from: nat, i: nat)
    requires from <= i <= |text| && (i < |text| ==> !Fits(c, text[i]))
    requires forall h: nat :: from <= h <= i ==> !MatchesAt(rest, text, h)
    ensures !MatchesAt([Star(c)] + rest, text, from)
  {
    forall m | i < m <= |text| ensures !ItemWord(Star(c), text[from..m]) {
      assert text[from..m][i - from] == text[i];
    }
    if MatchesAt([Star(c)] + rest, text, from) {
      var m := MatchesSplit(Star(c), rest, text, from);
    }
  }
}
