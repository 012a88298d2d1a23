/** The tokens of a printed command tree, and the round trip: parsing the printed
    form of a tree gives the tree. */
module ShellRound {
  import opened ShellSpec
  import opened ShellText

  // ----- tokens of a string, with their text --------------------------------

  function WordOf(u: string): (w: string)
    ensures w <= u
  {
    if u != "" && WordChar(u[0]) then [u[0]] + WordOf(u[1..]) else ""
  }

  function LexText(u: string): Toks<string>
    decreases |u|
  {
    if u == "" || u[0] == NUL then Nil
    else if Space(u[0]) then LexText(u[1..])
    else if u[0] == '>' && |u| > 1 && u[1] == '>' then Cons('+', u[..2], LexText(u[2..]))
    else if Symbol(u[0]) then Cons(u[0], u[..1], LexText(u[1..]))
    else
      var w := WordOf(u[1..]);
      Cons('a', [u[0]] + w, LexText(u[1 + |w|..]))
  }

  // ----- the same tokens by position ----------------------------------------

  lemma {:induction false} SkipText(s: string, i: nat)
    requires i <= |s|
    ensures LexText(s[i..]) == LexText(s[Skip(s, i)..])
    decreases |s| - i
  {
    if i < |s| && Space(s[i]) {
      assert s[i..][1..] == s[i + 1..];
      SkipText(s, i + 1);
    }
  }

  lemma {:induction false} SkipStops(s: string, i: nat)
    requires i <= |s|
    ensures !Space(CharAt(s, Skip(s, i)))
    decreases |s| - i
  {
    if i < |s| && Space(s[i]) { SkipStops(s, i + 1); }
  }

  lemma {:induction false} WordText(s: string, i: nat)
    requires i <= |s|
    ensures WordOf(s[i..]) == s[i..WordEnd(s, i)]
    decreases |s| - i
  {
    if i < |s| && WordChar(s[i]) {
      assert s[i..][1..] == s[i + 1..];
      WordText(s, i + 1);
      assert [s[i]] + s[i + 1..WordEnd(s, i + 1)] == s[i..WordEnd(s, i + 1)];
    }
  }

  /** The first token, by position and by text. */
  lemma FirstToken(s: string, b: nat)
    requires b < |s| && s[b] != NUL && !Space(s[b])
    ensures var t := Tok(s, b);
            t.kind != NUL && LexText(s[b..]) == Cons(t.kind, Sub(s, t.span), LexText(s[t.span.eq..]))
  {
    var u := s[b..];
    assert Skip(s, b) == b;
    assert u[1..] == s[b + 1..];
    if u[0] == '>' && |u| > 1 && u[1] == '>' {
      assert u[..2] == s[b..b + 2] && u[2..] == s[b + 2..];
    } else if Symbol(u[0]) {
      assert u[..1] == s[b..b + 1];
    } else {
      WordText(s, b + 1);
      var e := WordEnd(s, b + 1);
      assert [s[b]] + s[b + 1..e] == s[b..e] && u[1 + (e - b - 1)..] == s[e..];
    }
  }

  /** gettoken from i on reads the tokens of the rest of the line. */
  lemma {:induction false} LexSame(s: string, i: nat)
    requires i <= |s|
    ensures TokText(s, Lex(s, i)) == LexText(s[i..])
    decreases |s| - i
  {
    var b := Skip(s, i);
    SkipText(s, i);
    SkipStops(s, i);
    SkipTwice(s, i);
    if CharAt(s, b) != NUL {
      FirstToken(s, b);
      var t := Tok(s, b);
      SkipText(s, t.span.eq);
      LexSame(s, t.next);
    }
  }

  lemma SkipTwice(s: string, i: nat)
    requires i <= |s|
    ensures Tok(s, i) == Tok(s, Skip(s, i))
  {
    SkipStops(s, i);
    assert Skip(s, Skip(s, i)) == Skip(s, i);
  }

  // ----- the tokens of a printed tree ---------------------------------------

  /** No word runs on into u, and it does not begin with a space. */
  predicate Stops(u: string) {
    u == "" || Symbol(u[0])
  }

  lemma LexSym(c: char, u: string)
    requires Symbol(c) && (c == '>' ==> u == "" || u[0] != '>')
    ensures LexText([c] + u) == Sym(c, LexText(u))
  {
    assert ([c] + u)[1..] == u && ([c] + u)[..1] == [c];
  }

  lemma {:induction false} WordStops(w: string, u: string)
    requires (forall k :: 0 <= k < |w| ==> WordChar(w[k])) && (u == "" || !WordChar(u[0]))
    ensures WordOf(w + u) == w
    decreases |w|
  {
    if w == "" {
      assert w + u == u;
    } else {
      assert (w + u)[1..] == w[1..] + u;
      WordStops(w[1..], u);
    }
  }

  lemma LexWord(w: string, u: string)
    requires Word(w) && (u == "" || !WordChar(u[0]))
    ensures LexText(w + u) == Cons('a', w, LexText(u))
  {
    var v := w + u;
    assert v[1..] == w[1..] + u;
    WordStops(w[1..], u);
    assert v[1 + |w[1..]|..] == u;
    assert [v[0]] + w[1..] == w;
  }

  lemma {:induction false} LexWords(ws: seq<string>, u: string)
    requires forall k :: 0 <= k < |ws| ==> Word(ws[k])
    ensures LexText(Spaced(ws) + u) == WordToks(ws, LexText(u))
    decreases |ws|
  {
    if ws == [] {
      assert Spaced(ws) + u == u;
    } else {
      var more := Spaced(ws[1..]) + u;
      assert Spaced(ws) + u == ws[0] + (" " + more);
      LexWord(ws[0], " " + more);
      assert (" " + more)[1..] == more;
      LexWords(ws[1..], u);
    }
  }

  lemma {:induction false} LexTree(t: Tree, u: string)
    requires Valid(t) && Stops(u)
    ensures LexText(Print(t) + u) == TreeToks(t, LexText(u))
    decreases t, 1
  {
    match t
    case Exec(argv) => LexExec(argv, u);
    case Redir(c, file, input) =>
      var a := Angled(input);
      assert Print(t) + u == Print(c) + ([a] + (file + u));
      LexTree(c, [a] + (file + u));
      LexSym(a, file + u);
      LexWord(file, u);
    case Pipe(l, r) => LexPair(l, '|', r, u);
    case List(l, r) => LexPair(l, ';', r, u);
    case Back(c) => LexBack(c, u);
  }

  lemma LexExec(argv: seq<string>, u: string)
    requires Valid(Exec(argv))
    ensures LexText("(" + Spaced(argv) + ")" + u) == TreeToks(Exec(argv), LexText(u))
  {
    var v := Spaced(argv) + (")" + u);
    assert "(" + Spaced(argv) + ")" + u == "(" + v;
    LexSym('(', v);
    LexWords(argv, ")" + u);
    LexSym(')', u);
  }

  lemma {:induction false} LexPair(l: Tree, sep: char, r: Tree, u: string)
    requires Valid(l) && Valid(r) && (sep == '|' || sep == ';')
    ensures LexText("(" + Print(l) + [sep] + Print(r) + ")" + u)
              == Sym('(', TreeToks(l, Sym(sep, TreeToks(r, Sym(')', LexText(u))))))
    decreases if sep == '|' then Pipe(l, r) else List(l, r), 0
  {
    var x := ")" + u;
    var y := [sep] + (Print(r) + x);
    assert "(" + Print(l) + [sep] + Print(r) + ")" + u == "(" + (Print(l) + y);
    LexSym('(', Print(l) + y);
    LexTree(l, y);
    LexSym(sep, Print(r) + x);
    LexTree(r, x);
    LexSym(')', u);
  }

  lemma {:induction false} LexBack(c: Tree, u: string)
    requires Valid(c)
    ensures LexText("(" + Print(c) + "&" + ")" + u) == TreeToks(Back(c), LexText(u))
    decreases Back(c), 0
  {
    var y := "&" + (")" + u);
    assert "(" + Print(c) + "&" + ")" + u == "(" + (Print(c) + y);
    LexSym('(', Print(c) + y);
    LexTree(c, y);
    LexSym('&', ")" + u);
    LexSym(')', u);
  }

  /** Parsing the printed form of any representable tree gives that tree, with nothing
      left over. */
  lemma RoundTrip(t: Tree)
    requires Valid(t)
    ensures GCmd(Print(t)).Ok? && Text(Print(t), GCmd(Print(t)).cmd) == t
  {
    var s := Print(t);
    LexTree(t, "");
    assert s + "" == s && s[0..] == s;
    LexSame(s, 0);
    TreeInside(t, Nil);
    LineCommute(s, Lex(s, 0));
    WholeLine(TreeToks(t, Nil), t);
  }

  lemma WholeLine(ts: Toks<string>, t: Tree)
    requires GExec(ts) == Ok(t, Nil)
    ensures GLine(ts) == Ok(t, Nil)
  {
    assert GPipe(ts) == Ok(t, Nil);
    assert GBacks(Nil, t) == Ok(t, Nil);
  }
}
