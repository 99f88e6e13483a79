/** The pattern language of user/grep.c and its matcher.

    A C string is represented by its characters before the terminating NUL; a pointer into it is an
    index, and reading NUL through the pointer means that the index is the length. */
module Regex {

  // ---------------------------------------------------------------- the language

  datatype Atom = Any | Only(c: char)

  datatype Item = One(a: Atom) | Star(a: Atom)

  /** A pattern: is it anchored at the start, what must match, is it anchored at the end. */
  datatype Pattern = Pattern(start: bool, items: seq<Item>, end: bool)

  predicate InAtom(a: Atom, c: char) {
    a.Any? || a.c == c
  }

  /** A string is in the language of a list of items if it is a concatenation of one string for each:
      one character of the atom, or any number of them. */
  ghost predicate Lang(items: seq<Item>, s: string) {
    if items == [] then s == []
    else match items[0]
      case One(a) => |s| > 0 && InAtom(a, s[0]) && Lang(items[1..], s[1..])
      case Star(a) => exists k :: 0 <= k <= |s| && AllIn(a, s[..k]) && Lang(items[1..], s[k..])
  }

  predicate AllIn(a: Atom, s: string) {
    forall i :: 0 <= i < |s| ==> InAtom(a, s[i])
  }

  /** Some part of the text, respecting the anchors, is in the language. */
  ghost predicate Matches(p: Pattern, text: string) {
    exists i, j :: 0 <= i <= j <= |text| && (p.start ==> i == 0) && (p.end ==> j == |text|) && Lang(p.items, text[i..j])
  }

  function AtomOf(c: char): Atom {
    if c == '.' then Any else Only(c)
  }

  /** How the code reads a pattern: a character before '*' is starred, whatever it is; '$' is an anchor
      only as the last character and not starred; a '*' that stars nothing is itself. */
  function Items(re: string): seq<Item> {
    if re == [] || re == "$" then []
    else if |re| >= 2 && re[1] == '*' then [Star(AtomOf(re[0]))] + Items(re[2..])
    else [One(AtomOf(re[0]))] + Items(re[1..])
  }

  predicate EndAnchored(re: string) {
    if re == [] then false
    else if |re| >= 2 && re[1] == '*' then EndAnchored(re[2..])
    else re == "$" || EndAnchored(re[1..])
  }

  function Read(re: string): Pattern {
    if re != [] && re[0] == '^' then Pattern(true, Items(re[1..]), EndAnchored(re[1..]))
    else Pattern(false, Items(re), EndAnchored(re))
  }

  // ---------------------------------------------------------------- matching at one place

  /** A prefix of the text, or all of it if the pattern is anchored at the end, is in the language. */
  ghost predicate Here(re: string, text: string) {
    exists j :: 0 <= j <= |text| && (EndAnchored(re) ==> j == |text|) && Lang(Items(re), text[..j])
  }

  lemma HereEmpty(text: string)
    ensures Here([], text)
  {
    assert Lang(Items([]), text[..0]);
  }

  lemma HereEnd(text: string)
    ensures Here("$", text) <==> text == []
  {
    if text == [] { assert Lang(Items("$"), text[..0]); }
  }

  lemma HereOne(re: string, text: string)
    requires re != [] && re != "$" && !(|re| >= 2 && re[1] == '*')
    ensures Here(re, text) <==> text != [] && InAtom(AtomOf(re[0]), text[0]) && Here(re[1..], text[1..])
  {
    assert Items(re)[1..] == Items(re[1..]);
    if Here(re, text) {
      var j :| 0 <= j <= |text| && (EndAnchored(re) ==> j == |text|) && Lang(Items(re), text[..j]);
      assert text[..j][1..] == text[1..][..j - 1];
    }
    if text != [] && InAtom(AtomOf(re[0]), text[0]) && Here(re[1..], text[1..]) {
      var j :| 0 <= j <= |text[1..]| && (EndAnchored(re[1..]) ==> j == |text[1..]|) &&
        Lang(Items(re[1..]), text[1..][..j]);
      assert text[..j + 1][1..] == text[1..][..j];
      assert Lang(Items(re), text[..j + 1]);
    }
  }

  /** A star takes any number of characters and the rest of the pattern matches what follows. */
  lemma HereStar(re: string, text: string)
    requires |re| >= 2 && re[1] == '*'
    ensures Here(re, text) <==>
      exists k :: 0 <= k <= |text| && AllIn(AtomOf(re[0]), text[..k]) && Here(re[2..], text[k..])
  {
    var a, rest := AtomOf(re[0]), re[2..];
    assert Items(re)[0] == Star(a) && Items(re)[1..] == Items(rest);
    if Here(re, text) {
      var j :| 0 <= j <= |text| && (EndAnchored(re) ==> j == |text|) && Lang(Items(re), text[..j]);
      var s := text[..j];
      var k :| 0 <= k <= |s| && AllIn(a, s[..k]) && Lang(Items(rest), s[k..]);
      assert s[..k] == text[..k] && s[k..] == text[k..][..j - k];
      assert Here(rest, text[k..]);
    }
    if k :| 0 <= k <= |text| && AllIn(a, text[..k]) && Here(rest, text[k..]) {
      var j :| 0 <= j <= |text[k..]| && (EndAnchored(rest) ==> j == |text[k..]|) && Lang(Items(rest), text[k..][..j]);
      var s := text[..k + j];
      assert s[..k] == text[..k] && s[k..] == text[k..][..j];
      assert Lang(Items(re), s);
    }
  }

  // ---------------------------------------------------------------- the code

  /** matchhere: the pattern from re[i] on, at text[t]. */
  method MatchHere(re: string, i: nat, text: string, t: nat) returns (b: bool)
    requires i <= |re| && t <= |text| && '\0' !in re && '\0' !in text
    ensures b <==> Here(re[i..], text[t..])
    decreases |re| - i, 0
  {
    if i == |re| {
      HereEmpty(text[t..]);
      return true;
    }
    if i + 1 < |re| && re[i + 1] == '*' {
      b := MatchStar(re[i], re, i, text, t);
      return;
    }
    if re[i] == '$' && i + 1 == |re| {
      assert re[i..] == "$";
      HereEnd(text[t..]);
      return t == |text|;
    }
    HereOne(re[i..], text[t..]);
    assert re[i..][1..] == re[i + 1..];
    if t < |text| && (re[i] == '.' || re[i] == text[t]) {
      assert text[t..][1..] == text[t + 1..];
      b := MatchHere(re, i + 1, text, t + 1);
      return;
    }
    return false;
  }

  /** matchstar: c* and then the pattern from re[i + 2] on, at text[t]. */
  method MatchStar(c: char, re: string, i: nat, text: string, t: nat) returns (b: bool)
    requires i + 1 < |re| && re[i] == c && re[i + 1] == '*' && t <= |text| && '\0' !in re && '\0' !in text
    ensures b <==> Here(re[i..], text[t..])
    decreases |re| - i - 1
  {
    HereStar(re[i..], text[t..]);
    assert re[i..][2..] == re[i + 2..];
    ghost var rest, tail := re[i + 2..], text[t..];
    var p := t;
    while true
      invariant t <= p <= |text| && AllIn(AtomOf(c), tail[..p - t])
      invariant forall k :: 0 <= k < p - t ==> !Here(rest, tail[k..])
      decreases |text| - p
    {
      assert tail[p - t..] == text[p..];
      b := MatchHere(re, i + 2, text, p);
      if b {
        return true;
      }
      if !(p < |text| && (text[p] == c || c == '.')) {
        forall k | p - t < k <= |tail|
          ensures !AllIn(AtomOf(c), tail[..k])
        {
          assert tail[..k][p - t] == text[p];
        }
        return false;
      }
      p := p + 1;
      assert tail[..p - t] == tail[..p - t - 1] + [text[p - 1]];
    }
  }

  /** match: the text contains what the pattern describes. */
  method Match(re: string, text: string) returns (b: bool)
    requires '\0' !in re && '\0' !in text
    ensures b <==> Matches(Read(re), text)
  {
    if re != [] && re[0] == '^' {
      b := MatchHere(re, 1, text, 0);
      MatchesAnchored(re, text);
      assert text[0..] == text;
      return;
    }
    var p := 0;
    while true
      invariant 0 <= p <= |text|
      invariant forall k :: 0 <= k < p ==> !Here(re, text[k..])
      decreases |text| - p
    {
      assert re[0..] == re;
      b := MatchHere(re, 0, text, p);
      if b {
        MatchesSomewhere(re, text);
        return true;
      }
      if p == |text| {
        MatchesSomewhere(re, text);
        return false;
      }
      p := p + 1;
    }
  }

  lemma MatchesAnchored(re: string, text: string)
    requires re != [] && re[0] == '^'
    ensures Matches(Read(re), text) <==> Here(re[1..], text)
  {
    var p := Read(re);
    if Matches(p, text) {
      var i, j :| 0 <= i <= j <= |text| && (p.start ==> i == 0) && (p.end ==> j == |text|) && Lang(p.items, text[i..j]);
      assert text[i..j] == text[..j];
    }
    if Here(re[1..], text) {
      var j :| 0 <= j <= |text| && (p.end ==> j == |text|) && Lang(p.items, text[..j]);
      assert text[0..j] == text[..j];
    }
  }

  lemma MatchesSomewhere(re: string, text: string)
    requires !(re != [] && re[0] == '^')
    ensures Matches(Read(re), text) <==> exists k :: 0 <= k <= |text| && Here(re, text[k..])
  {
    var p := Read(re);
    if Matches(p, text) {
      var i, j :| 0 <= i <= j <= |text| && (p.start ==> i == 0) && (p.end ==> j == |text|) && Lang(p.items, text[i..j]);
      assert text[i..j] == text[i..][..j - i];
      assert Here(re, text[i..]);
    }
    if k :| 0 <= k <= |text| && Here(re, text[k..]) {
      var j :| 0 <= j <= |text[k..]| && (p.end ==> j == |text[k..]|) && Lang(p.items, text[k..][..j]);
      assert text[k..k + j] == text[k..][..j];
    }
  }
}
