/** grep's matcher against the language its patterns denote.  Strings are C strings
    without their NUL. */
module Grep {

  /** One character: a literal, or any. */
  datatype CharPat = Lit(c: char) | Any

  /** One character, or any number of them. */
  datatype Item = One(p: CharPat) | Star(p: CharPat)

  /** Items, and whether a final $ ties them to the end of the text. */
  datatype Pattern = Pattern(items: seq<Item>, atEnd: bool)

  function CharOf(c: char): CharPat {
    if c == '.' then Any else Lit(c)
  }

  predicate Fits(p: CharPat, c: char) {
    p == Any || p.c == c
  }

  function Parse(re: string): Pattern {
    if re == "" then Pattern([], false)
    else if |re| >= 2 && re[1] == '*' then
      var p := Parse(re[2..]);
      Pattern([Star(CharOf(re[0]))] + p.items, p.atEnd)
    else if re == "$" then Pattern([], true)
    else
      var p := Parse(re[1..]);
      Pattern([One(CharOf(re[0]))] + p.items, p.atEnd)
  }

  // ----- what patterns denote -----------------------------------------------

  predicate ItemAccepts(i: Item, w: string) {
    (i.One? ==> |w| == 1) && forall k :: 0 <= k < |w| ==> Fits(i.p, w[k])
  }

  function Flat(parts: seq<string>): string {
    if parts == [] then "" else parts[0] + Flat(parts[1..])
  }

  /** parts cuts w into one piece for each item, each accepted by its item. */
  ghost predicate Cuts(items: seq<Item>, w: string, parts: seq<string>) {
    |parts| == |items| && Flat(parts) == w && forall i :: 0 <= i < |items| ==> ItemAccepts(items[i], parts[i])
  }

  /** The language of a sequence of items. */
  ghost predicate InLang(items: seq<Item>, w: string) {
    exists parts :: Cuts(items, w, parts)
  }

  /** The pattern matches at the beginning of text. */
  ghost predicate AcceptsHere(p: Pattern, text: string) {
    if p.atEnd then InLang(p.items, text) else exists k :: 0 <= k <= |text| && InLang(p.items, text[..k])
  }

  /** The pattern matches somewhere in text; after ^ only at the beginning. */
  ghost predicate Accepts(re: string, text: string) {
    if re != "" && re[0] == '^' then AcceptsHere(Parse(re[1..]), text)
    else exists i :: 0 <= i <= |text| && AcceptsHere(Parse(re), text[i..])
  }

  // ----- one item at a time -------------------------------------------------

  lemma NoItems(w: string)
    ensures InLang([], w) <==> w == ""
  {
    if w == "" {
      assert Cuts([], w, []);
    }
  }

  /** The first item takes a piece from the front. */
  lemma FirstItem(i: Item, items: seq<Item>, w: string)
    ensures InLang([i] + items, w) <==> exists k :: 0 <= k <= |w| && ItemAccepts(i, w[..k]) && InLang(items, w[k..])
  {
    if InLang([i] + items, w) {
      var parts :| Cuts([i] + items, w, parts);
      var k := |parts[0]|;
      assert ([i] + items)[0] == i;
      forall j | 0 <= j < |items|
        ensures ItemAccepts(items[j], parts[1..][j])
      {
        assert ([i] + items)[j + 1] == items[j];
      }
      assert w[..k] == parts[0] && w[k..] == Flat(parts[1..]);
      assert Cuts(items, w[k..], parts[1..]);
    }
    if exists k :: 0 <= k <= |w| && ItemAccepts(i, w[..k]) && InLang(items, w[k..]) {
      var k :| 0 <= k <= |w| && ItemAccepts(i, w[..k]) && InLang(items, w[k..]);
      var parts :| Cuts(items, w[k..], parts);
      var all := [w[..k]] + parts;
      assert all[1..] == parts;
      assert Flat(all) == w[..k] + w[k..] == w;
      assert Cuts([i] + items, w, all);
    }
  }

  lemma OneItem(p: CharPat, items: seq<Item>, w: string)
    ensures InLang([One(p)] + items, w) <==> w != "" && Fits(p, w[0]) && InLang(items, w[1..])
  {
    FirstItem(One(p), items, w);
    if w != "" && Fits(p, w[0]) && InLang(items, w[1..]) {
      assert ItemAccepts(One(p), w[..1]);
    }
  }

  /** A star takes nothing, or one character and then more. */
  lemma StarItem(p: CharPat, items: seq<Item>, w: string)
    ensures InLang([Star(p)] + items, w) <==> InLang(items, w) || (w != "" && Fits(p, w[0]) && InLang([Star(p)] + items, w[1..]))
  {
    FirstItem(Star(p), items, w);
    assert w[0..] == w;
    if w != "" {
      FirstItem(Star(p), items, w[1..]);
    }
    if InLang([Star(p)] + items, w) {
      var k :| 0 <= k <= |w| && ItemAccepts(Star(p), w[..k]) && InLang(items, w[k..]);
      if k > 0 {
        assert Fits(p, w[..k][0]);
        assert w[1..][..k - 1] == w[..k][1..] && w[1..][k - 1..] == w[k..];
      }
    }
    if InLang(items, w) {
      assert ItemAccepts(Star(p), w[..0]);
    }
    if w != "" && Fits(p, w[0]) && InLang([Star(p)] + items, w[1..]) {
      var k :| 0 <= k <= |w[1..]| && ItemAccepts(Star(p), w[1..][..k]) && InLang(items, w[1..][k..]);
      StarOneMore(p, w, k);
      assert w[1..][k..] == w[k + 1..];
    }
  }

  lemma StarOneMore(p: CharPat, w: string, k: nat)
    requires w != "" && Fits(p, w[0]) && k < |w| && ItemAccepts(Star(p), w[1..][..k])
    ensures ItemAccepts(Star(p), w[..k + 1])
  {
    var u := w[..k + 1];
    forall j | 0 <= j < |u|
      ensures Fits(p, u[j])
    {
      if j > 0 { assert w[1..][..k][j - 1] == w[j]; }
    }
  }

  // ----- the same for matching at the beginning of a text -------------------

  lemma HereNone(text: string)
    ensures AcceptsHere(Pattern([], false), text) && (AcceptsHere(Pattern([], true), text) <==> text == "")
  {
    NoItems(text);
    NoItems(text[..0]);
  }

  lemma HereOne(p: CharPat, q: Pattern, text: string)
    ensures AcceptsHere(Pattern([One(p)] + q.items, q.atEnd), text) <==> text != "" && Fits(p, text[0]) && AcceptsHere(q, text[1..])
  {
    if q.atEnd {
      OneItem(p, q.items, text);
    } else {
      forall k | 0 <= k <= |text|
        ensures InLang([One(p)] + q.items, text[..k]) <==> k > 0 && Fits(p, text[0]) && InLang(q.items, text[1..][..k - 1])
      {
        OneItem(p, q.items, text[..k]);
        if k > 0 { assert text[..k][1..] == text[1..][..k - 1]; }
      }
      if text != "" && Fits(p, text[0]) && AcceptsHere(q, text[1..]) {
        var k :| 0 <= k <= |text[1..]| && InLang(q.items, text[1..][..k]);
        assert InLang([One(p)] + q.items, text[..k + 1]);
      }
    }
  }

  lemma HereStar(p: CharPat, q: Pattern, text: string)
    ensures AcceptsHere(Pattern([Star(p)] + q.items, q.atEnd), text) <==>
              AcceptsHere(q, text) || (text != "" && Fits(p, text[0]) && AcceptsHere(Pattern([Star(p)] + q.items, q.atEnd), text[1..]))
  {
    var items := [Star(p)] + q.items;
    if q.atEnd {
      StarItem(p, q.items, text);
    } else {
      forall k | 0 <= k <= |text|
        ensures InLang(items, text[..k]) <==> InLang(q.items, text[..k]) || (k > 0 && Fits(p, text[0]) && InLang(items, text[1..][..k - 1]))
      {
        StarItem(p, q.items, text[..k]);
        if k > 0 { assert text[..k][1..] == text[1..][..k - 1]; }
      }
      if text != "" && Fits(p, text[0]) && AcceptsHere(Pattern(items, false), text[1..]) {
        var k :| 0 <= k <= |text[1..]| && InLang(items, text[1..][..k]);
        assert InLang(items, text[..k + 1]);
      }
    }
  }

  // ----- the code -----------------------------------------------------------

  method Match(re: string, text: string) returns (yes: bool)
    ensures yes <==> Accepts(re, text)
  {
    if re != "" && re[0] == '^' {
      yes := MatchHere(re[1..], text);
      return;
    }
    var i := 0;
    while true
      invariant 0 <= i <= |text|
      invariant forall j :: 0 <= j < i ==> !AcceptsHere(Parse(re), text[j..])
      decreases |text| - i
    {
      yes := MatchHere(re, text[i..]);
      if yes {
        return;
      }
      if i == |text| {
        break;
      }
      i := i + 1;
    }
    yes := false;
  }

  method MatchHere(re: string, text: string) returns (yes: bool)
    ensures yes <==> AcceptsHere(Parse(re), text)
    decreases |re|, 0
  {
    HereNone(text);
    if re == "" {
      return true;
    }
    if |re| >= 2 && re[1] == '*' {
      yes := MatchStar(re[0], re[2..], text);
      return;
    }
    if re == "$" {
      return text == "";
    }
    HereOne(CharOf(re[0]), Parse(re[1..]), text);
    if text != "" && (re[0] == '.' || re[0] == text[0]) {
      yes := MatchHere(re[1..], text[1..]);
      return;
    }
    yes := false;
  }

  method MatchStar(c: char, re: string, text: string) returns (yes: bool)
    ensures yes <==> AcceptsHere(Pattern([Star(CharOf(c))] + Parse(re).items, Parse(re).atEnd), text)
    decreases |re|, 1
  {
    ghost var p, q := CharOf(c), Parse(re);
    ghost var star := Pattern([Star(p)] + q.items, q.atEnd);
    var i := 0;
    assert text[0..] == text;
    while true
      invariant 0 <= i <= |text| && (AcceptsHere(star, text[i..]) <==> AcceptsHere(star, text))
      decreases |text| - i
    {
      HereStar(p, q, text[i..]);
      yes := MatchHere(re, text[i..]);
      if yes {
        return;
      }
      if i == |text| || !(text[i] == c || c == '.') {
        break;
      }
      assert text[i..][1..] == text[i + 1..];
      i := i + 1;
    }
    yes := false;
  }
}
