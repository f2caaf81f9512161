/** The regular-expression matcher of grep.c against the language its patterns denote. */
module Grep {

  const NUL := '\0'

  /** The character a C string pointer shows at offset i. */
  function At(s: string, i: nat): char
    requires i <= |s|
  {
    if i < |s| then s[i] else NUL
  }

  predicate CString(s: string) {
    forall i | 0 <= i < |s| :: s[i] != NUL
  }

  // ---- what a pattern means ----

  datatype Item = Lit(c: char) | Any | Star(c: char)

  datatype Pattern = Pattern(items: seq<Item>, atEnd: bool)

  /** A '*' binds to the character before it, and is recognised before a final '$'. */
  function Parse(re: string): (p: Pattern)
    decreases |re|
  {
    if re == "" then Pattern([], false)
    else if |re| >= 2 && re[1] == '*' then
      var p := Parse(re[2..]);
      Pattern([Star(re[0])] + p.items, p.atEnd)
    else if re == "$" then Pattern([], true)
    else
      var p := Parse(re[1..]);
      Pattern([if re[0] == '.' then Any else Lit(re[0])] + p.items, p.atEnd)
  }

  predicate Accepts(c: char, x: char) {
    c == '.' || x == c
  }

  /** The words of one item. */
  predicate Word(i: Item, w: string) {
    match i
    case Lit(c) => w == [c]
    case Any => |w| == 1
    case Star(c) => forall k | 0 <= k < |w| :: Accepts(c, w[k])
  }

  /** The words of a sequence of items: one word of each, concatenated. */
  ghost predicate InLang(items: seq<Item>, w: string) {
    if items == [] then w == ""
    else exists k | 0 <= k <= |w| :: Word(items[0], w[..k]) && InLang(items[1..], w[k..])
  }

  /** Some prefix of t, all of it for a pattern ending in '$', is in the language. */
  ghost predicate Here(re: string, t: string) {
    exists j | 0 <= j <= |t| :: HereTo(re, t, j)
  }

  ghost predicate HereTo(re: string, t: string, j: nat)
    requires j <= |t|
  {
    var p := Parse(re);
    InLang(p.items, t[..j]) && (p.atEnd ==> j == |t|)
  }

  // ---- how matching proceeds, for each form of pattern ----

  lemma {:induction false} HereEmpty(t: string)
    ensures Here("", t)
  {
    assert t[..0] == "";
    assert HereTo("", t, 0);
  }

  lemma {:induction false} HereEnd(t: string)
    ensures Here("$", t) <==> t == ""
  {
    assert Parse("$") == Pattern([], true);
    if t == "" {
      assert HereTo("$", t, 0);
    }
  }

  lemma {:induction false} HereSplits(re: string, i: Item, rest: string, t: string) returns (k: nat)
    requires Parse(re) == Pattern([i] + Parse(rest).items, Parse(rest).atEnd) && Here(re, t)
    ensures k <= |t| && Word(i, t[..k]) && Here(rest, t[k..])
  {
    hide Parse, Word;
    var items := Parse(rest).items;
    assert ([i] + items)[1..] == items;
    var j :| 0 <= j <= |t| && HereTo(re, t, j);
    k :| 0 <= k <= j && Word(i, t[..j][..k]) && InLang(items, t[..j][k..]);
    assert t[..j][..k] == t[..k] && t[..j][k..] == t[k..][..j - k];
    assert HereTo(rest, t[k..], j - k);
  }

  lemma {:induction false} HereJoins(re: string, i: Item, rest: string, t: string, k: nat)
    requires Parse(re) == Pattern([i] + Parse(rest).items, Parse(rest).atEnd)
    requires k <= |t| && Word(i, t[..k]) && Here(rest, t[k..])
    ensures Here(re, t)
  {
    hide Parse, Word;
    var items := Parse(rest).items;
    assert ([i] + items)[1..] == items;
    var m :| 0 <= m <= |t[k..]| && HereTo(rest, t[k..], m);
    var j := k + m;
    assert t[..j][..k] == t[..k] && t[..j][k..] == t[k..][..m];
    assert HereTo(re, t, j);
  }

  /** A pattern of item i and then rest matches at the head of t exactly when some word of
      i is a prefix of t and rest matches after it. */
  lemma {:induction false} HereThen(re: string, i: Item, rest: string, t: string)
    requires Parse(re) == Pattern([i] + Parse(rest).items, Parse(rest).atEnd)
    ensures Here(re, t) <==> exists k | 0 <= k <= |t| :: Word(i, t[..k]) && Here(rest, t[k..])
  {
    hide Parse, Word, Here;
    if Here(re, t) {
      var k := HereSplits(re, i, rest, t);
    }
    if k :| 0 <= k <= |t| && Word(i, t[..k]) && Here(rest, t[k..]) {
      HereJoins(re, i, rest, t, k);
    }
  }

  lemma {:induction false} HereStar(c: char, rest: string, t: string)
    ensures Here([c, '*'] + rest, t) <==> StarHere(c, rest, t)
  {
    var re := [c, '*'] + rest;
    assert re[2..] == rest;
    HereThen(re, Star(c), rest, t);
    if k :| 0 <= k <= |t| && Word(Star(c), t[..k]) && Here(rest, t[k..]) {
      assert forall m | 0 <= m < k :: t[..k][m] == t[m];
    }
    if StarHere(c, rest, t) {
      var k :| 0 <= k <= |t| && AllAccepted(c, t, k) && Here(rest, t[k..]);
      assert Word(Star(c), t[..k]);
    }
  }

  predicate AllAccepted(c: char, t: string, k: nat)
    requires k <= |t|
  {
    forall m | 0 <= m < k :: Accepts(c, t[m])
  }

  ghost predicate StarHere(c: char, rest: string, t: string) {
    exists k | 0 <= k <= |t| :: AllAccepted(c, t, k) && Here(rest, t[k..])
  }

  lemma {:induction false} HereOne(re: string, t: string)
    requires re != "" && re != "$" && !(|re| >= 2 && re[1] == '*')
    ensures Here(re, t) <==> t != "" && Accepts(re[0], t[0]) && Here(re[1..], t[1..])
  {
    var i := if re[0] == '.' then Any else Lit(re[0]);
    HereThen(re, i, re[1..], t);
    if t != "" && Accepts(re[0], t[0]) && Here(re[1..], t[1..]) {
      assert t[..1] == [t[0]];
      assert Word(i, t[..1]);
    }
  }

  // ---- the matcher ----

  method MatchHere(re: string, text: string) returns (r: bool)
    requires CString(re) && CString(text)
    ensures r <==> Here(re, text)
    decreases |re|, 0
  {
    hide Here, StarHere;
    if At(re, 0) == NUL {
      HereEmpty(text);
      return true;
    }
    if At(re, 1) == '*' {
      assert re == [re[0], '*'] + re[2..];
      HereStar(re[0], re[2..], text);
      r := MatchStar(re[0], re[2..], text);
      return;
    }
    if At(re, 0) == '$' && At(re, 1) == NUL {
      assert re == "$";
      HereEnd(text);
      return At(text, 0) == NUL;
    }
    HereOne(re, text);
    if At(text, 0) != NUL && (At(re, 0) == '.' || At(re, 0) == At(text, 0)) {
      r := MatchHere(re[1..], text[1..]);
      return;
    }
    return false;
  }

  method MatchStar(c: char, re: string, text: string) returns (r: bool)
    requires CString(re) && CString(text)
    ensures r <==> StarHere(c, re, text)
    decreases |re|, 1
  {
    hide Here;
    var i := 0;
    while true
      invariant 0 <= i <= |text| && AllAccepted(c, text, i)
      invariant forall k | 0 <= k < i :: !Here(re, text[k..])
      decreases |text| - i
    {
      r := MatchHere(re, text[i..]);
      if r {
        return;
      }
      if At(text, i) == NUL || !(text[i] == c || c == '.') {
        return;
      }
      i := i + 1;
    }
  }

  /** What a match is: the pattern's language meets a substring of the text, a prefix under
      '^', a suffix under a final '$'. */
  ghost predicate Matches(re: string, text: string) {
    var caret := re != "" && re[0] == '^';
    var p := Parse(if caret then re[1..] else re);
    exists i, j | 0 <= i <= j <= |text| ::
      InLang(p.items, text[i..j]) && (caret ==> i == 0) && (p.atEnd ==> j == |text|)
  }

  lemma {:induction false} MatchesCaret(re: string, text: string)
    requires re != "" && re[0] == '^'
    ensures Matches(re, text) <==> Here(re[1..], text)
  {
    var p := Parse(re[1..]);
    if Here(re[1..], text) {
      var j :| 0 <= j <= |text| && HereTo(re[1..], text, j);
      assert text[0..j] == text[..j];
      assert InLang(p.items, text[0..j]);
    }
    if Matches(re, text) {
      var i, j :| 0 <= i <= j <= |text| && InLang(p.items, text[i..j]) && i == 0 && (p.atEnd ==> j == |text|);
      assert text[0..j] == text[..j];
      assert HereTo(re[1..], text, j);
    }
  }

  lemma {:induction false} MatchesAnywhere(re: string, text: string)
    requires re == "" || re[0] != '^'
    ensures Matches(re, text) <==> exists i | 0 <= i <= |text| :: Here(re, text[i..])
  {
    var p := Parse(re);
    if i :| 0 <= i <= |text| && Here(re, text[i..]) {
      var m :| 0 <= m <= |text[i..]| && HereTo(re, text[i..], m);
      assert text[i..][..m] == text[i..i + m];
      assert InLang(p.items, text[i..i + m]);
    }
    if Matches(re, text) {
      var i, j :| 0 <= i <= j <= |text| && InLang(p.items, text[i..j]) && (p.atEnd ==> j == |text|);
      assert text[i..][..j - i] == text[i..j];
      assert HereTo(re, text[i..], j - i);
      assert Here(re, text[i..]);
    }
  }

  method Match(re: string, text: string) returns (r: bool)
    requires CString(re) && CString(text)
    ensures r <==> Matches(re, text)
  {
    hide Here, Matches;
    if At(re, 0) == '^' {
      MatchesCaret(re, text);
      r := MatchHere(re[1..], text);
      return;
    }
    MatchesAnywhere(re, text);
    var i := 0;
    while true
      invariant 0 <= i <= |text|
      invariant forall k | 0 <= k < i :: !Here(re, text[k..])
      decreases |text| - i
    {
      r := MatchHere(re, text[i..]);
      if r {
        return;
      }
      if At(text, i) == NUL {
        return;
      }
      i := i + 1;
    }
  }
}
