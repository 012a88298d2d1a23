/** Printing with parentheses only where the grammar needs them, as one would type it,
    and the round trip for that. */
module ShellShow {
  import opened ShellSpec
  import opened ShellText
  import opened ShellRound
  import opened ShellGrammar

  function Weight(t: Tree): nat {
    match t
    case Exec(argv) => 1
    case Redir(c, file, input) => Weight(c) + 1
    case Pipe(l, r) => Weight(l) + Weight(r) + 1
    case List(l, r) => Weight(l) + Weight(r) + 1
    case Back(c) => Weight(c) + 1
  }

  lemma {:induction false} BaseWeight(t: Tree)
    ensures Weight(Base(t)) <= Weight(t) && !Base(t).Redir? && (Valid(t) ==> Valid(Base(t)))
  {
    if t.Redir? {
      BaseWeight(t.cmd);
    }
  }

  function RedirToks(rs: seq<Redirect<string>>, rest: Tokens): Tokens
    decreases |rs|
  {
    if rs == [] then rest else Sym(Angled(rs[0].input), Cons('a', rs[0].file, RedirToks(rs[1..], rest)))
  }

  /** A pipe, a list or a background command without parentheses around it. */
  function Open(t: Tree, rest: Tokens): Tokens
    decreases Weight(t), 0
  {
    match t
    case Pipe(l, r) => ExecToks(l, Sym('|', PipeToks(r, rest)))
    case List(l, r) => HeadToks(l, Sym(';', LineToks(r, rest)))
    case Back(c) => HeadToks(c, Sym('&', rest))
    case _ => rest
  }

  function ExecToks(t: Tree, rest: Tokens): Tokens
    decreases Weight(t), 1
  {
    BaseWeight(t);
    var more := RedirToks(Redirects(t), rest);
    if Base(t).Exec? then WordToks(Base(t).argv, more) else Sym('(', Open(Base(t), Sym(')', more)))
  }

  function PipeToks(t: Tree, rest: Tokens): Tokens
    decreases Weight(t), 2
  {
    if t.Pipe? then Open(t, rest) else ExecToks(t, rest)
  }

  function HeadToks(t: Tree, rest: Tokens): Tokens
    decreases Weight(t), 3
  {
    if t.Back? then Open(t, rest) else PipeToks(t, rest)
  }

  function LineToks(t: Tree, rest: Tokens): Tokens
    decreases Weight(t), 4
  {
    if t.List? then Open(t, rest) else HeadToks(t, rest)
  }

  /** Tokens as text, a space after each. */
  function Unlex(ts: Tokens): string {
    if ts.Nil? then "" else ts.word + (" " + Unlex(ts.rest))
  }

  function Show(t: Tree): string {
    Unlex(LineToks(t, Nil))
  }

  // ----- the tokens derive the tree -----------------------------------------

  lemma {:induction false} RedirsDerive(rs: seq<Redirect<string>>, rest: Tokens)
    ensures IsRedirs(rs, RedirToks(rs, rest), rest) && IsItems([], rs, RedirToks(rs, rest), rest)
    decreases |rs|
  {
    if rs != [] {
      RedirsDerive(rs[1..], rest);
    }
  }

  lemma {:induction false} ItemsDerive(ws: seq<string>, rs: seq<Redirect<string>>, rest: Tokens)
    ensures IsItems(ws, rs, WordToks(ws, RedirToks(rs, rest)), rest)
    decreases |ws|
  {
    if ws == [] {
      RedirsDerive(rs, rest);
    } else {
      ItemsDerive(ws[1..], rs, rest);
    }
  }

  lemma {:induction false} OpenDerives(t: Tree, rest: Tokens)
    requires Valid(t) && (t.Pipe? || t.List? || t.Back?)
    ensures Size(Open(t, rest)) >= Size(rest)
    ensures t.Pipe? ==> IsPipe(t, Open(t, rest), rest)
    ensures t.Back? ==> IsHead(t, Open(t, rest), rest)
    ensures IsLine(t, Open(t, rest), rest)
    decreases Weight(t), 0
  {
    match t
    case Pipe(l, r) =>
      var bar := Sym('|', PipeToks(r, rest));
      ExecDerives(l, bar);
      PipeDerives(r, rest);
      assert IsExec(l, Open(t, rest), bar) && IsPipe(r, bar.rest, rest);
    case List(l, r) =>
      var semi := Sym(';', LineToks(r, rest));
      HeadDerives(l, semi);
      LineDerives(r, rest);
      assert IsHead(l, Open(t, rest), semi) && IsLine(r, semi.rest, rest);
    case Back(c) =>
      HeadDerives(c, Sym('&', rest));
      assert IsHead(c, Open(t, rest), Sym('&', rest));
  }

  lemma {:induction false} SizeWords(ws: seq<string>, rest: Tokens)
    ensures Size(WordToks(ws, rest)) >= Size(rest)
    decreases |ws|
  {
    if ws != [] {
      SizeWords(ws[1..], rest);
    }
  }

  lemma {:induction false} SizeRedirs(rs: seq<Redirect<string>>, rest: Tokens)
    ensures Size(RedirToks(rs, rest)) >= Size(rest)
    decreases |rs|
  {
    if rs != [] {
      SizeRedirs(rs[1..], rest);
    }
  }

  lemma {:induction false} ExecDerives(t: Tree, rest: Tokens)
    requires Valid(t)
    ensures IsExec(t, ExecToks(t, rest), rest) && Size(ExecToks(t, rest)) >= Size(rest)
    decreases Weight(t), 1
  {
    BaseWeight(t);
    var more := RedirToks(Redirects(t), rest);
    SizeRedirs(Redirects(t), rest);
    if Base(t).Exec? {
      ItemsDerive(Base(t).argv, Redirects(t), rest);
      SizeWords(Base(t).argv, more);
    } else {
      var close := Sym(')', more);
      OpenDerives(Base(t), close);
      RedirsDerive(Redirects(t), rest);
      BaseWrap(t);
      var ts := ExecToks(t, rest);
      assert IsLine(Base(t), ts.rest, close) && Next(close, ')') && IsRedirs(Redirects(t), close.rest, rest);
    }
  }

  lemma {:induction false} PipeDerives(t: Tree, rest: Tokens)
    requires Valid(t)
    ensures IsPipe(t, PipeToks(t, rest), rest) && Size(PipeToks(t, rest)) >= Size(rest)
    decreases Weight(t), 2
  {
    if t.Pipe? {
      OpenDerives(t, rest);
    } else {
      ExecDerives(t, rest);
    }
  }

  lemma {:induction false} HeadDerives(t: Tree, rest: Tokens)
    requires Valid(t)
    ensures IsHead(t, HeadToks(t, rest), rest) && Size(HeadToks(t, rest)) >= Size(rest)
    decreases Weight(t), 3
  {
    if t.Back? {
      OpenDerives(t, rest);
    } else {
      PipeDerives(t, rest);
    }
  }

  lemma {:induction false} LineDerives(t: Tree, rest: Tokens)
    requires Valid(t)
    ensures IsLine(t, LineToks(t, rest), rest) && Size(LineToks(t, rest)) >= Size(rest)
    decreases Weight(t), 4
  {
    if t.List? {
      OpenDerives(t, rest);
    } else {
      HeadDerives(t, rest);
    }
  }

  // ----- the text has those tokens ------------------------------------------

  /** Every token is a word or a symbol, with its own text. */
  predicate Plain(ts: Tokens) {
    ts.Cons? ==> (if ts.kind == 'a' then Word(ts.word) else Symbol(ts.kind) && ts.word == [ts.kind]) && Plain(ts.rest)
  }

  lemma {:induction false} PlainText(ts: Tokens)
    requires Plain(ts)
    ensures LexText(Unlex(ts)) == ts
  {
    if ts.Cons? {
      PlainText(ts.rest);
      var u := " " + Unlex(ts.rest);
      assert u[1..] == Unlex(ts.rest);
      assert LexText(u) == LexText(u[1..]);
      if ts.kind == 'a' {
        LexWord(ts.word, u);
      } else {
        LexSym(ts.kind, u);
      }
    }
  }

  lemma {:induction false} PlainWords(ws: seq<string>, rest: Tokens)
    requires Plain(rest) && forall k :: 0 <= k < |ws| ==> Word(ws[k])
    ensures Plain(WordToks(ws, rest))
    decreases |ws|
  {
    if ws != [] {
      PlainWords(ws[1..], rest);
    }
  }

  lemma {:induction false} PlainRedirs(t: Tree, rest: Tokens)
    requires Plain(rest) && Valid(t)
    ensures Plain(RedirToks(Redirects(t), rest))
    decreases t
  {
    if t.Redir? {
      var last := [Redirect(t.file, t.input)];
      assert last[1..] == [] && RedirToks(last[1..], rest) == rest;
      assert RedirToks(last, rest) == Sym(Angled(t.input), Cons('a', t.file, rest));
      RedirsJoin(Redirects(t.cmd), last, rest);
      PlainRedirs(t.cmd, RedirToks(last, rest));
    }
  }

  lemma {:induction false} RedirsJoin(a: seq<Redirect<string>>, b: seq<Redirect<string>>, rest: Tokens)
    ensures RedirToks(a + b, rest) == RedirToks(a, RedirToks(b, rest))
    decreases |a|
  {
    if a == [] {
      assert a + b == b;
    } else {
      RedirsJoin(a[1..], b, rest);
      assert (a + b)[1..] == a[1..] + b;
    }
  }

  lemma {:induction false} PlainOpen(t: Tree, rest: Tokens)
    requires Valid(t) && Plain(rest)
    ensures Plain(Open(t, rest))
    decreases Weight(t), 0
  {
    match t
    case Pipe(l, r) =>
      PlainPipe(r, rest);
      PlainExec(l, Sym('|', PipeToks(r, rest)));
    case List(l, r) =>
      PlainLine(r, rest);
      PlainHead(l, Sym(';', LineToks(r, rest)));
    case Back(c) => PlainHead(c, Sym('&', rest));
    case _ =>
  }

  lemma {:induction false} PlainExec(t: Tree, rest: Tokens)
    requires Valid(t) && Plain(rest)
    ensures Plain(ExecToks(t, rest))
    decreases Weight(t), 1
  {
    BaseWeight(t);
    PlainRedirs(t, rest);
    var more := RedirToks(Redirects(t), rest);
    if Base(t).Exec? {
      PlainWords(Base(t).argv, more);
    } else {
      PlainOpen(Base(t), Sym(')', more));
    }
  }

  lemma {:induction false} PlainPipe(t: Tree, rest: Tokens)
    requires Valid(t) && Plain(rest)
    ensures Plain(PipeToks(t, rest))
    decreases Weight(t), 2
  {
    if t.Pipe? { PlainOpen(t, rest); } else { PlainExec(t, rest); }
  }

  lemma {:induction false} PlainHead(t: Tree, rest: Tokens)
    requires Valid(t) && Plain(rest)
    ensures Plain(HeadToks(t, rest))
    decreases Weight(t), 3
  {
    if t.Back? { PlainOpen(t, rest); } else { PlainPipe(t, rest); }
  }

  lemma {:induction false} PlainLine(t: Tree, rest: Tokens)
    requires Valid(t) && Plain(rest)
    ensures Plain(LineToks(t, rest))
    decreases Weight(t), 4
  {
    if t.List? { PlainOpen(t, rest); } else { PlainHead(t, rest); }
  }

  /** Parsing a tree printed with parentheses only where they are needed gives that
      tree. */
  lemma ShowRoundTrip(t: Tree)
    requires Valid(t)
    ensures GCmd(Show(t)).Ok? && Text(Show(t), GCmd(Show(t)).cmd) == t
  {
    var s := Show(t);
    PlainLine(t, Nil);
    PlainText(LineToks(t, Nil));
    assert s[0..] == s;
    LexSame(s, 0);
    LineDerives(t, Nil);
    AcceptsIff(s, t);
  }
}
