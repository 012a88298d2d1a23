/** The shell's grammar as a relation between token lists and trees, and the proof that
    the parser accepts exactly what it derives, with the tree it derives.

      line ::= head [ ';' line ]        head ::= pipe { '&' }
      pipe ::= exec [ '|' pipe ]        exec ::= '(' line ')' { redirection }
                                               | { word | redirection }          */
module ShellGrammar {
  import opened ShellSpec
  import opened ShellText

  type Tokens = Toks<string>

  /** ts is `rest` after the redirections rs. */
  predicate IsRedirs(rs: seq<Redirect<string>>, ts: Tokens, rest: Tokens)
    decreases |rs|
  {
    if rs == [] then ts == rest
    else Angle(ts) && Next(ts.rest, 'a') && rs[0] == Redirect(ts.rest.word, ts.kind == '<') && IsRedirs(rs[1..], ts.rest.rest, rest)
  }

  /** ts is `rest` after the words ws and the redirections rs, in any order. */
  predicate IsItems(ws: seq<string>, rs: seq<Redirect<string>>, ts: Tokens, rest: Tokens)
    decreases |ws| + |rs|
  {
    || (ws == [] && rs == [] && ts == rest)
    || (ws != [] && Next(ts, 'a') && ts.word == ws[0] && IsItems(ws[1..], rs, ts.rest, rest))
    || (rs != [] && Angle(ts) && Next(ts.rest, 'a') && rs[0] == Redirect(ts.rest.word, ts.kind == '<') && IsItems(ws, rs[1..], ts.rest.rest, rest))
  }

  /** A simple command: its words and its redirections, the first of them innermost. */
  predicate IsSimple(t: Tree, ts: Tokens, rest: Tokens) {
    Base(t).Exec? && |Base(t).argv| < MAXARGS && IsItems(Base(t).argv, Redirects(t), ts, rest)
  }

  ghost predicate IsBlock(t: Tree, ts: Tokens, rest: Tokens)
    decreases Size(ts), 0, t
  {
    && Next(ts, '(')
    && exists c, close, rs :: IsLine(c, ts.rest, close) && Next(close, ')') && IsRedirs(rs, close.rest, rest) && t == Wrap(c, rs)
  }

  ghost predicate IsExec(t: Tree, ts: Tokens, rest: Tokens)
    decreases Size(ts), 1, t
  {
    IsSimple(t, ts, rest) || IsBlock(t, ts, rest)
  }

  ghost predicate IsPipe(t: Tree, ts: Tokens, rest: Tokens)
    decreases Size(ts), 2, t
  {
    || IsExec(t, ts, rest)
    || (t.Pipe? && exists bar :: Size(bar) <= Size(ts) && Next(bar, '|') && IsExec(t.left, ts, bar) && IsPipe(t.right, bar.rest, rest))
  }

  ghost predicate IsHead(t: Tree, ts: Tokens, rest: Tokens)
    decreases Size(ts), 3, t
  {
    || IsPipe(t, ts, rest)
    || (t.Back? && exists amp :: Next(amp, '&') && amp.rest == rest && IsHead(t.cmd, ts, amp))
  }

  ghost predicate IsLine(t: Tree, ts: Tokens, rest: Tokens)
    decreases Size(ts), 4, t
  {
    || IsHead(t, ts, rest)
    || (t.List? && exists semi :: Size(semi) <= Size(ts) && Next(semi, ';') && IsHead(t.left, ts, semi) && IsLine(t.right, semi.rest, rest))
  }

  // ----- what follows -------------------------------------------------------

  /** What may come after a command. */
  predicate After(rest: Tokens) {
    rest.Nil? || EndsArgs(rest)
  }

  predicate AfterPipe(rest: Tokens) {
    After(rest) && !Next(rest, '|')
  }

  predicate AfterHead(rest: Tokens) {
    AfterPipe(rest) && !Next(rest, '&')
  }

  predicate AfterLine(rest: Tokens) {
    AfterHead(rest) && !Next(rest, ';')
  }

  // ----- redirections -------------------------------------------------------

  lemma {:induction false} WrapParts(c: Tree, rs: seq<Redirect<string>>)
    ensures Base(Wrap(c, rs)) == Base(c) && Redirects(Wrap(c, rs)) == Redirects(c) + rs
    decreases |rs|
  {
    if rs != [] {
      WrapParts(c, rs[..|rs| - 1]);
      assert rs == rs[..|rs| - 1] + [rs[|rs| - 1]];
    }
  }

  lemma {:induction false} RedirsSound(ts: Tokens, rs: seq<Redirect<string>>) returns (qs: seq<Redirect<string>>)
    requires GRedirs(ts, rs).ROk?
    ensures GRedirs(ts, rs).rs == rs + qs && IsRedirs(qs, ts, GRedirs(ts, rs).rest) && !Angle(GRedirs(ts, rs).rest)
    decreases ts
  {
    if !Angle(ts) {
      qs := [];
    } else {
      var r := Redirect(ts.rest.word, ts.kind == '<');
      var more := RedirsSound(ts.rest.rest, rs + [r]);
      qs := [r] + more;
      assert rs + [r] + more == rs + qs;
    }
  }

  lemma {:induction false} RedirsComplete(qs: seq<Redirect<string>>, ts: Tokens, rest: Tokens, rs: seq<Redirect<string>>)
    requires IsRedirs(qs, ts, rest) && !Angle(rest)
    ensures GRedirs(ts, rs) == ROk(rs + qs, rest)
    decreases |qs|
  {
    if qs == [] {
      assert rs + qs == rs;
    } else {
      RedirsComplete(qs[1..], ts.rest.rest, rest, rs + [qs[0]]);
      assert rs + [qs[0]] + qs[1..] == rs + qs;
    }
  }

  // ----- simple commands ----------------------------------------------------

  /** Redirections first, then the other items. */
  lemma {:induction false} ItemsAfter(qs: seq<Redirect<string>>, ts: Tokens, mid: Tokens, ws: seq<string>, rs: seq<Redirect<string>>, rest: Tokens)
    requires IsRedirs(qs, ts, mid) && IsItems(ws, rs, mid, rest)
    ensures IsItems(ws, qs + rs, ts, rest)
    decreases |qs|
  {
    if qs == [] {
      assert qs + rs == rs;
    } else {
      ItemsAfter(qs[1..], ts.rest.rest, mid, ws, rs, rest);
      assert (qs + rs)[1..] == qs[1..] + rs;
    }
  }

  lemma {:induction false} ArgsSound(ts: Tokens, argv: seq<string>, rs: seq<Redirect<string>>) returns (ws: seq<string>, qs: seq<Redirect<string>>)
    requires GArgs(ts, argv, rs).Ok? && |argv| < MAXARGS
    ensures var r := GArgs(ts, argv, rs);
            r.cmd == Wrap(Exec(argv + ws), rs + qs) && |argv + ws| < MAXARGS && IsItems(ws, qs, ts, r.rest) && After(r.rest)
    decreases Size(ts)
  {
    if ts.Nil? || EndsArgs(ts) {
      ws, qs := [], [];
      assert argv + ws == argv && rs + qs == rs;
    } else {
      var m := GRedirs(ts.rest, rs);
      var first := RedirsSound(ts.rest, rs);
      var ws1, qs1 := ArgsSound(m.rest, argv + [ts.word], m.rs);
      ws, qs := [ts.word] + ws1, first + qs1;
      ItemsAfter(first, ts.rest, m.rest, ws1, qs1, GArgs(ts, argv, rs).rest);
      assert argv + [ts.word] + ws1 == argv + ws && rs + first + qs1 == rs + qs;
    }
  }

  /** Items begin with some redirections, and then a word or nothing. */
  lemma {:induction false} ItemsSplit(ws: seq<string>, rs: seq<Redirect<string>>, ts: Tokens, rest: Tokens)
    returns (first: seq<Redirect<string>>, mid: Tokens, more: seq<Redirect<string>>)
    requires IsItems(ws, rs, ts, rest) && After(rest)
    ensures rs == first + more && IsRedirs(first, ts, mid) && IsItems(ws, more, mid, rest) && !Angle(mid)
    ensures if ws == [] then mid == rest && more == [] else Next(mid, 'a') && mid.word == ws[0] && IsItems(ws[1..], more, mid.rest, rest)
    ensures Size(mid) <= Size(ts)
    decreases |rs|
  {
    if rs != [] && Angle(ts) && Next(ts.rest, 'a') && rs[0] == Redirect(ts.rest.word, ts.kind == '<') && IsItems(ws, rs[1..], ts.rest.rest, rest) {
      first, mid, more := ItemsSplit(ws, rs[1..], ts.rest.rest, rest);
      first := [rs[0]] + first;
      assert first[1..] + more == rs[1..];
    } else {
      first, mid, more := [], ts, rs;
    }
  }

  /** Items that begin with no redirection. */
  lemma WordFirst(ws: seq<string>, qs: seq<Redirect<string>>, ts: Tokens, rest: Tokens)
    requires IsItems(ws, qs, ts, rest) && !Angle(ts)
    ensures if ws == [] then ts == rest && qs == [] else Next(ts, 'a') && ts.word == ws[0] && IsItems(ws[1..], qs, ts.rest, rest)
  {
  }

  lemma ArgNext(ts: Tokens, argv: seq<string>, rs: seq<Redirect<string>>, all: seq<Redirect<string>>, m: Tokens)
    requires Next(ts, 'a') && |argv| + 1 < MAXARGS && GRedirs(ts.rest, rs) == ROk(all, m)
    ensures GArgs(ts, argv, rs) == GArgs(m, argv + [ts.word], all)
  {
  }

  lemma {:induction false} ArgsComplete(ws: seq<string>, qs: seq<Redirect<string>>, ts: Tokens, rest: Tokens, argv: seq<string>, rs: seq<Redirect<string>>)
    requires IsItems(ws, qs, ts, rest) && After(rest) && |argv| + |ws| < MAXARGS && !Angle(ts)
    ensures GArgs(ts, argv, rs) == Ok(Wrap(Exec(argv + ws), rs + qs), rest)
    decreases |ws|
  {
    WordFirst(ws, qs, ts, rest);
    if ws == [] {
      assert argv + ws == argv && rs + qs == rs;
    } else {
      var first, m, more := ItemsSplit(ws[1..], qs, ts.rest, rest);
      RedirsComplete(first, ts.rest, m, rs);
      ArgNext(ts, argv, rs, rs + first, m);
      ArgsComplete(ws[1..], more, m, rest, argv + [ws[0]], rs + first);
      assert argv + [ws[0]] + ws[1..] == argv + ws && rs + first + more == rs + qs;
    }
  }

  lemma SimpleSound(ts: Tokens)
    requires !Next(ts, '(') && GExec(ts).Ok?
    ensures IsSimple(GExec(ts).cmd, ts, GExec(ts).rest) && After(GExec(ts).rest)
  {
    var m := GRedirs(ts, []);
    var first := RedirsSound(ts, []);
    var ws, qs := ArgsSound(m.rest, [], m.rs);
    ItemsAfter(first, ts, m.rest, ws, qs, GExec(ts).rest);
    assert [] + first == first && [] + ws == ws;
    WrapParts(Exec(ws), first + qs);
    assert [] + (first + qs) == first + qs;
  }

  lemma NoParenthesis(rs: seq<Redirect<string>>, ts: Tokens, mid: Tokens)
    requires IsRedirs(rs, ts, mid) && !Next(mid, '(')
    ensures !Next(ts, '(')
  {
    if rs != [] {
      assert Angle(ts);
    }
  }

  lemma SimpleComplete(t: Tree, ts: Tokens, rest: Tokens)
    requires IsSimple(t, ts, rest) && After(rest)
    ensures GExec(ts) == Ok(t, rest)
  {
    ItemsParse(Base(t).argv, Redirects(t), ts, rest);
    BaseWrap(t);
  }

  /** Words and redirections in any order are a command with those words, inside those
      redirections. */
  lemma ItemsParse(ws: seq<string>, rs: seq<Redirect<string>>, ts: Tokens, rest: Tokens)
    requires IsItems(ws, rs, ts, rest) && After(rest) && |ws| < MAXARGS
    ensures GExec(ts) == Ok(Wrap(Exec(ws), rs), rest)
  {
    var first, mid, more := ItemsSplit(ws, rs, ts, rest);
    NoParenthesis(first, ts, mid);
    RedirsComplete(first, ts, mid, []);
    assert [] + first == first;
    ArgsFirst(ts, first, mid);
    ArgsComplete(ws, more, mid, rest, [], first);
    assert [] + ws == ws;
  }

  lemma ArgsFirst(ts: Tokens, first: seq<Redirect<string>>, mid: Tokens)
    requires !Next(ts, '(') && GRedirs(ts, []) == ROk(first, mid)
    ensures GExec(ts) == GArgs(mid, [], first)
  {
  }

  // ----- soundness ----------------------------------------------------------

  lemma {:induction false} BlockSound(ts: Tokens)
    requires Next(ts, '(') && GBlock(ts).Ok?
    ensures IsBlock(GBlock(ts).cmd, ts, GBlock(ts).rest) && !Angle(GBlock(ts).rest)
    decreases Size(ts), 0
  {
    LineSound(ts.rest);
    var c := GLine(ts.rest);
    var rs := RedirsSound(c.rest.rest, []);
    assert [] + rs == rs;
    assert IsLine(c.cmd, ts.rest, c.rest) && IsRedirs(rs, c.rest.rest, GBlock(ts).rest);
  }

  lemma {:induction false} ExecSound(ts: Tokens)
    requires GExec(ts).Ok?
    ensures IsExec(GExec(ts).cmd, ts, GExec(ts).rest)
    decreases Size(ts), 1
  {
    if Next(ts, '(') {
      BlockSound(ts);
    } else {
      SimpleSound(ts);
    }
  }

  lemma {:induction false} PipeSound(ts: Tokens)
    requires GPipe(ts).Ok?
    ensures IsPipe(GPipe(ts).cmd, ts, GPipe(ts).rest)
    decreases Size(ts), 2
  {
    ExecSound(ts);
    var c := GExec(ts);
    if Next(c.rest, '|') {
      PipeSound(c.rest.rest);
      assert IsExec(c.cmd, ts, c.rest);
    }
  }

  lemma {:induction false} HeadSound(ts: Tokens, cmd: Tree, us: Tokens)
    requires IsHead(cmd, ts, us)
    ensures IsHead(GBacks(us, cmd).cmd, ts, GBacks(us, cmd).rest) && !Next(GBacks(us, cmd).rest, '&')
    decreases us
  {
    if Next(us, '&') {
      assert IsHead(Back(cmd), ts, us.rest);
      HeadSound(ts, Back(cmd), us.rest);
    }
  }

  lemma {:induction false} LineSound(ts: Tokens)
    requires GLine(ts).Ok?
    ensures IsLine(GLine(ts).cmd, ts, GLine(ts).rest)
    decreases Size(ts), 3
  {
    PipeSound(ts);
    var c := GPipe(ts);
    HeadSound(ts, c.cmd, c.rest);
    var b := GBacks(c.rest, c.cmd);
    if Next(b.rest, ';') {
      LineSound(b.rest.rest);
      assert IsHead(b.cmd, ts, b.rest);
    }
  }

  // ----- completeness -------------------------------------------------------

  lemma {:induction false} BlockComplete(t: Tree, ts: Tokens, rest: Tokens)
    requires IsBlock(t, ts, rest) && !Angle(rest)
    ensures GExec(ts) == Ok(t, rest)
    decreases Size(ts), 0, t
  {
    var c, close, rs :| IsLine(c, ts.rest, close) && Next(close, ')') && IsRedirs(rs, close.rest, rest) && t == Wrap(c, rs);
    LineComplete(c, ts.rest, close);
    RedirsComplete(rs, close.rest, rest, []);
    assert [] + rs == rs;
  }

  lemma {:induction false} ExecComplete(t: Tree, ts: Tokens, rest: Tokens)
    requires IsExec(t, ts, rest) && After(rest)
    ensures GExec(ts) == Ok(t, rest)
    decreases Size(ts), 1, t
  {
    if IsSimple(t, ts, rest) {
      SimpleComplete(t, ts, rest);
    } else {
      BlockComplete(t, ts, rest);
    }
  }

  lemma {:induction false} PipeComplete(t: Tree, ts: Tokens, rest: Tokens)
    requires IsPipe(t, ts, rest) && AfterPipe(rest)
    ensures GPipe(ts) == Ok(t, rest)
    decreases Size(ts), 2, t
  {
    if IsExec(t, ts, rest) {
      ExecComplete(t, ts, rest);
    } else {
      var bar :| Size(bar) <= Size(ts) && Next(bar, '|') && IsExec(t.left, ts, bar) && IsPipe(t.right, bar.rest, rest);
      ExecComplete(t.left, ts, bar);
      PipeComplete(t.right, bar.rest, rest);
    }
  }

  /** A head is a pipe and as many '&' as it has Backs. */
  lemma {:induction false} HeadComplete(t: Tree, ts: Tokens, rest: Tokens)
    requires IsHead(t, ts, rest) && AfterPipe(rest)
    ensures GPipe(ts).Ok? && GBacks(GPipe(ts).rest, GPipe(ts).cmd) == GBacks(rest, t)
    decreases Size(ts), 3, t
  {
    if IsPipe(t, ts, rest) {
      PipeComplete(t, ts, rest);
    } else {
      var amp :| Next(amp, '&') && amp.rest == rest && IsHead(t.cmd, ts, amp);
      HeadComplete(t.cmd, ts, amp);
    }
  }

  lemma {:induction false} LineComplete(t: Tree, ts: Tokens, rest: Tokens)
    requires IsLine(t, ts, rest) && AfterLine(rest)
    ensures GLine(ts) == Ok(t, rest)
    decreases Size(ts), 4, t
  {
    if IsHead(t, ts, rest) {
      HeadComplete(t, ts, rest);
      assert GBacks(rest, t) == Ok(t, rest);
    } else {
      var semi :| Size(semi) <= Size(ts) && Next(semi, ';') && IsHead(t.left, ts, semi) && IsLine(t.right, semi.rest, rest);
      HeadComplete(t.left, ts, semi);
      assert GBacks(semi, t.left) == Ok(t.left, semi);
      LineComplete(t.right, semi.rest, rest);
    }
  }

  /** parsecmd accepts a line exactly when its tokens derive from the grammar, and then
      returns the tree they derive, which is the only one. */
  lemma AcceptsIff(s: string, t: Tree)
    ensures GCmd(s).Ok? && Text(s, GCmd(s).cmd) == t <==> IsLine(t, TokText(s, Lex(s, 0)), Nil)
  {
    var ts := TokText(s, Lex(s, 0));
    LineCommute(s, Lex(s, 0));
    if GCmd(s).Ok? && Text(s, GCmd(s).cmd) == t {
      LineSound(ts);
    }
    if IsLine(t, ts, Nil) {
      LineComplete(t, ts, Nil);
    }
  }
}
