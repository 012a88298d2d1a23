/** What grep's patterns mean, sign by sign, and for a pattern without special signs. */
module GrepLaws {
  import opened Grep

  /** Pattern re matches at the beginning of text. */
  ghost predicate Here(re: string, text: string) {
    AcceptsHere(Parse(re), text)
  }

  /** Character c of a pattern matches x. */
  predicate Like(c: char, x: char) {
    c == '.' || c == x
  }

  /** Nothing matches anywhere; a $ at the end matches the end only. */
  lemma EndLaw(text: string)
    ensures Here("", text) && (Here("$", text) <==> text == "")
  {
    HereNone(text);
  }

  /** One character: itself, or any for a dot. */
  lemma CharLaw(c: char, re: string, text: string)
    requires (re == "" || re[0] != '*') && !(c == '$' && re == "")
    ensures Here([c] + re, text) <==> text != "" && Like(c, text[0]) && Here(re, text[1..])
  {
    var all := [c] + re;
    assert all[1..] == re && all[0] == c && (|all| >= 2 ==> all[1] == re[0]);
    HereOne(CharOf(c), Parse(re), text);
  }

  /** A star: as many of the character as one likes. */
  lemma {:induction false} StarLaw(c: char, re: string, text: string)
    ensures Here([c] + "*" + re, text) <==>
              exists k :: 0 <= k <= |text| && (forall j :: 0 <= j < k ==> Like(c, text[j])) && Here(re, text[k..])
    decreases |text|
  {
    var all := [c] + "*" + re;
    assert all[0] == c && all[1] == '*' && all[2..] == re;
    HereStar(CharOf(c), Parse(re), text);
    assert text[0..] == text;
    if text != "" {
      var rest := text[1..];
      StarLaw(c, re, rest);
      if Like(c, text[0]) && Here(all, rest) {
        var k :| 0 <= k <= |rest| && (forall j :: 0 <= j < k ==> Like(c, rest[j])) && Here(re, rest[k..]);
        assert rest[k..] == text[k + 1..];
        forall j | 0 <= j < k + 1
          ensures Like(c, text[j])
        {
          assert j > 0 ==> text[j] == rest[j - 1];
        }
      }
      if exists k :: 0 <= k <= |text| && (forall j :: 0 <= j < k ==> Like(c, text[j])) && Here(re, text[k..]) {
        var k :| 0 <= k <= |text| && (forall j :: 0 <= j < k ==> Like(c, text[j])) && Here(re, text[k..]);
        if k > 0 {
          assert Like(c, text[0]) && rest[k - 1..] == text[k..];
          assert forall j :: 0 <= j < k - 1 ==> rest[j] == text[j + 1];
        }
      }
    }
  }

  /** No character of re means anything but itself. */
  predicate Plain(re: string) {
    forall k :: 0 <= k < |re| ==> re[k] != '.' && re[k] != '*' && re[k] != '$'
  }

  lemma {:induction false} PlainHere(re: string, text: string)
    requires Plain(re)
    ensures Here(re, text) <==> re <= text
    decreases |re|
  {
    if re == "" {
      EndLaw(text);
    } else {
      assert re == [re[0]] + re[1..];
      CharLaw(re[0], re[1..], text);
      if text != "" {
        PlainHere(re[1..], text[1..]);
        assert re <= text <==> re[0] == text[0] && re[1..] <= text[1..];
      }
    }
  }

  /** A plain pattern is found exactly in the texts that contain it; after ^ in those
      that begin with it. */
  lemma PlainFound(re: string, text: string)
    requires Plain(re) && (re == "" || re[0] != '^')
    ensures Accepts(re, text) <==> exists i :: 0 <= i <= |text| && re <= text[i..]
    ensures Accepts("^" + re, text) <==> re <= text
  {
    forall i | 0 <= i <= |text|
      ensures AcceptsHere(Parse(re), text[i..]) <==> re <= text[i..]
    {
      PlainHere(re, text[i..]);
    }
    PlainHere(re, text);
    assert ("^" + re)[1..] == re;
  }
}
