/** Command trees over their words, how they print, and what parsing the printed form
    gives. */
module ShellText {
  import opened ShellSpec

  type Tree = Cmd<string>

  // ----- reading a parse back as words --------------------------------------

  function Sub(s: string, p: Span): string {
    if p.q <= p.eq <= |s| then s[p.q..p.eq] else ""
  }

  function Words(s: string, ps: seq<Span>): (r: seq<string>)
    ensures |r| == |ps| && forall k :: 0 <= k < |ps| ==> r[k] == Sub(s, ps[k])
  {
    seq(|ps|, k requires 0 <= k < |ps| => Sub(s, ps[k]))
  }

  function RedirText(s: string, r: Redirect<Span>): Redirect<string> {
    Redirect(Sub(s, r.file), r.input)
  }

  function RedirTexts(s: string, rs: seq<Redirect<Span>>): (r: seq<Redirect<string>>)
    ensures |r| == |rs| && forall k :: 0 <= k < |rs| ==> r[k] == RedirText(s, rs[k])
  {
    seq(|rs|, k requires 0 <= k < |rs| => RedirText(s, rs[k]))
  }

  /** The tree over the words of line s. */
  function Text(s: string, c: Cmd<Span>): Tree {
    match c
    case Exec(argv) => Exec(Words(s, argv))
    case Redir(cmd, file, input) => Redir(Text(s, cmd), Sub(s, file), input)
    case Pipe(l, r) => Pipe(Text(s, l), Text(s, r))
    case List(l, r) => List(Text(s, l), Text(s, r))
    case Back(cmd) => Back(Text(s, cmd))
  }

  function TokText(s: string, ts: Toks<Span>): Toks<string> {
    if ts.Nil? then Nil else Cons(ts.kind, Sub(s, ts.word), TokText(s, ts.rest))
  }

  function ResText(s: string, r: Res<Span>): Res<string> {
    if r.Fail? then Fail else Ok(Text(s, r.cmd), TokText(s, r.rest))
  }

  function RedirsText(s: string, r: Redirs<Span>): Redirs<string> {
    if r.RFail? then RFail else ROk(RedirTexts(s, r.rs), TokText(s, r.rest))
  }

  // The grammar looks only at token kinds, so it parses places and words alike.

  lemma {:induction false} SizeText(s: string, ts: Toks<Span>)
    ensures Size(TokText(s, ts)) == Size(ts)
  {
    if ts.Cons? { SizeText(s, ts.rest); }
  }

  lemma {:induction false} RedirsCommute(s: string, ts: Toks<Span>, rs: seq<Redirect<Span>>)
    ensures GRedirs(TokText(s, ts), RedirTexts(s, rs)) == RedirsText(s, GRedirs(ts, rs))
    decreases ts
  {
    if Angle(ts) && Next(ts.rest, 'a') {
      var r := Redirect(ts.rest.word, ts.kind == '<');
      RedirsCommute(s, ts.rest.rest, rs + [r]);
      assert RedirTexts(s, rs + [r]) == RedirTexts(s, rs) + [RedirText(s, r)];
    }
  }

  lemma {:induction false} WrapCommute(s: string, c: Cmd<Span>, rs: seq<Redirect<Span>>)
    ensures Wrap(Text(s, c), RedirTexts(s, rs)) == Text(s, Wrap(c, rs))
    decreases |rs|
  {
    if rs != [] {
      WrapCommute(s, c, rs[..|rs| - 1]);
      var t := RedirTexts(s, rs);
      assert t[..|t| - 1] == RedirTexts(s, rs[..|rs| - 1]);
    }
  }

  lemma {:induction false} ArgsCommute(s: string, ts: Toks<Span>, argv: seq<Span>, rs: seq<Redirect<Span>>)
    ensures GArgs(TokText(s, ts), Words(s, argv), RedirTexts(s, rs)) == ResText(s, GArgs(ts, argv, rs))
    decreases Size(ts)
  {
    if ts.Nil? || EndsArgs(ts) {
      WrapCommute(s, Exec(argv), rs);
    } else if ts.kind == 'a' && |argv| + 1 < MAXARGS {
      RedirsCommute(s, ts.rest, rs);
      var m := GRedirs(ts.rest, rs);
      if m.ROk? {
        ArgsCommute(s, m.rest, argv + [ts.word], m.rs);
        assert Words(s, argv + [ts.word]) == Words(s, argv) + [Sub(s, ts.word)];
      }
    }
  }

  lemma {:induction false} ExecCommute(s: string, ts: Toks<Span>)
    ensures GExec(TokText(s, ts)) == ResText(s, GExec(ts))
    decreases Size(ts), 1
  {
    if Next(ts, '(') {
      BlockCommute(s, ts);
    } else {
      RedirsCommute(s, ts, []);
      assert RedirTexts(s, []) == [] && Words(s, []) == [];
      var m := GRedirs(ts, []);
      if m.ROk? { ArgsCommute(s, m.rest, [], m.rs); }
    }
  }

  lemma {:induction false} BlockCommute(s: string, ts: Toks<Span>)
    requires Next(ts, '(')
    ensures GBlock(TokText(s, ts)) == ResText(s, GBlock(ts))
    decreases Size(ts), 0
  {
    LineCommute(s, ts.rest);
    var c := GLine(ts.rest);
    if c.Ok? && Next(c.rest, ')') {
      RedirsCommute(s, c.rest.rest, []);
      assert RedirTexts(s, []) == [];
      var m := GRedirs(c.rest.rest, []);
      if m.ROk? { WrapCommute(s, c.cmd, m.rs); }
    }
  }

  lemma {:induction false} PipeCommute(s: string, ts: Toks<Span>)
    ensures GPipe(TokText(s, ts)) == ResText(s, GPipe(ts))
    decreases Size(ts), 2
  {
    ExecCommute(s, ts);
    var c := GExec(ts);
    if c.Ok? && Next(c.rest, '|') { PipeCommute(s, c.rest.rest); }
  }

  lemma {:induction false} BacksCommute(s: string, ts: Toks<Span>, c: Cmd<Span>)
    ensures GBacks(TokText(s, ts), Text(s, c)) == ResText(s, GBacks(ts, c))
    decreases ts
  {
    if Next(ts, '&') { BacksCommute(s, ts.rest, Back(c)); }
  }

  lemma {:induction false} LineCommute(s: string, ts: Toks<Span>)
    ensures GLine(TokText(s, ts)) == ResText(s, GLine(ts))
    decreases Size(ts), 3
  {
    PipeCommute(s, ts);
    var c := GPipe(ts);
    if c.Ok? {
      BacksCommute(s, c.rest, c.cmd);
      var b := GBacks(c.rest, c.cmd);
      if Next(b.rest, ';') { LineCommute(s, b.rest.rest); }
    }
  }

  // ----- printing -----------------------------------------------------------

  predicate Word(w: string) {
    |w| > 0 && forall k :: 0 <= k < |w| ==> WordChar(w[k])
  }

  /** Trees the shell can represent: at most MAXARGS - 1 arguments, real words. */
  predicate Valid(t: Tree) {
    match t
    case Exec(argv) => |argv| < MAXARGS && forall k :: 0 <= k < |argv| ==> Word(argv[k])
    case Redir(c, file, input) => Valid(c) && Word(file)
    case Pipe(l, r) => Valid(l) && Valid(r)
    case List(l, r) => Valid(l) && Valid(r)
    case Back(c) => Valid(c)
  }

  /** Words, each followed by a space. */
  function Spaced(ws: seq<string>): string {
    if ws == [] then "" else ws[0] + " " + Spaced(ws[1..])
  }

  function Angled(input: bool): char {
    if input then '<' else '>'
  }

  /** Fully parenthesised. */
  function Print(t: Tree): string {
    match t
    case Exec(argv) => "(" + Spaced(argv) + ")"
    case Redir(c, file, input) => Print(c) + [Angled(input)] + file
    case Pipe(l, r) => "(" + Print(l) + "|" + Print(r) + ")"
    case List(l, r) => "(" + Print(l) + ";" + Print(r) + ")"
    case Back(c) => "(" + Print(c) + "&" + ")"
  }

  function Sym(c: char, rest: Toks<string>): Toks<string> {
    Cons(c, [c], rest)
  }

  function WordToks(ws: seq<string>, rest: Toks<string>): Toks<string> {
    if ws == [] then rest else Cons('a', ws[0], WordToks(ws[1..], rest))
  }

  /** The tokens of t as printed, then `rest`. */
  function TreeToks(t: Tree, rest: Toks<string>): Toks<string> {
    match t
    case Exec(argv) => Sym('(', WordToks(argv, Sym(')', rest)))
    case Redir(c, file, input) => TreeToks(c, Sym(Angled(input), Cons('a', file, rest)))
    case Pipe(l, r) => Sym('(', TreeToks(l, Sym('|', TreeToks(r, Sym(')', rest)))))
    case List(l, r) => Sym('(', TreeToks(l, Sym(';', TreeToks(r, Sym(')', rest)))))
    case Back(c) => Sym('(', TreeToks(c, Sym('&', Sym(')', rest))))
  }

  // ----- the grammar on those tokens ----------------------------------------

  /** t without its outermost redirections, and those. */
  function Base(t: Tree): Tree {
    if t.Redir? then Base(t.cmd) else t
  }

  function Redirects(t: Tree): seq<Redirect<string>> {
    if t.Redir? then Redirects(t.cmd) + [Redirect(t.file, t.input)] else []
  }

  lemma {:induction false} BaseWrap(t: Tree)
    ensures Wrap(Base(t), Redirects(t)) == t
  {
    if t.Redir? {
      BaseWrap(t.cmd);
      var rs := Redirects(t);
      assert rs[..|rs| - 1] == Redirects(t.cmd);
    }
  }

  function Finish(c: Tree, m: Redirs<string>): Res<string> {
    if m.RFail? then Fail else Ok(Wrap(c, m.rs), m.rest)
  }

  lemma {:induction false} ArgsParse(ws: seq<string>, argv: seq<string>, rest: Toks<string>)
    requires |argv| + |ws| < MAXARGS && Next(rest, ')')
    ensures GArgs(WordToks(ws, rest), argv, []) == Ok(Exec(argv + ws), rest)
    decreases |ws|
  {
    if ws == [] {
      assert argv + ws == argv;
    } else {
      ArgStep(ws[0], WordToks(ws[1..], rest), argv);
      ArgsParse(ws[1..], argv + [ws[0]], rest);
      assert argv + [ws[0]] + ws[1..] == argv + ws;
    }
  }

  lemma ArgStep(w: string, more: Toks<string>, argv: seq<string>)
    requires |argv| + 1 < MAXARGS && !Angle(more)
    ensures GArgs(Cons('a', w, more), argv, []) == GArgs(more, argv + [w], [])
  {
    assert GRedirs(more, []) == ROk([], more);
  }

  /** A line in parentheses, then redirections. */
  lemma BlockParse(ts: Toks<string>, c: Tree, rest: Toks<string>)
    requires GLine(ts) == Ok(c, Sym(')', rest))
    ensures GExec(Sym('(', ts)) == Finish(c, GRedirs(rest, []))
  {
  }

  /** A command followed by ')' is a whole line. */
  lemma LineParse(ts: Toks<string>, c: Tree, rest: Toks<string>)
    requires GExec(ts) == Ok(c, rest) && Next(rest, ')')
    ensures GPipe(ts) == Ok(c, rest) && GLine(ts) == Ok(c, rest)
  {
  }

  lemma PipeParse(ts: Toks<string>, l: Tree, us: Toks<string>, r: Tree, rest: Toks<string>)
    requires GExec(ts) == Ok(l, Sym('|', us)) && GExec(us) == Ok(r, Sym(')', rest))
    ensures GExec(Sym('(', ts)) == Finish(Pipe(l, r), GRedirs(rest, []))
  {
    LineParse(us, r, Sym(')', rest));
    assert GLine(ts) == Ok(Pipe(l, r), Sym(')', rest));
    BlockParse(ts, Pipe(l, r), rest);
  }

  lemma ListParse(ts: Toks<string>, l: Tree, us: Toks<string>, r: Tree, rest: Toks<string>)
    requires GExec(ts) == Ok(l, Sym(';', us)) && GExec(us) == Ok(r, Sym(')', rest))
    ensures GExec(Sym('(', ts)) == Finish(List(l, r), GRedirs(rest, []))
  {
    LineParse(us, r, Sym(')', rest));
    assert GPipe(ts) == Ok(l, Sym(';', us));
    assert GBacks(Sym(';', us), l) == Ok(l, Sym(';', us));
    BlockParse(ts, List(l, r), rest);
  }

  lemma BackParse(ts: Toks<string>, c: Tree, rest: Toks<string>)
    requires GExec(ts) == Ok(c, Sym('&', Sym(')', rest)))
    ensures GExec(Sym('(', ts)) == Finish(Back(c), GRedirs(rest, []))
  {
    var close := Sym(')', rest);
    assert GPipe(ts) == Ok(c, Sym('&', close));
    assert GBacks(Sym('&', close), c) == GBacks(close, Back(c)) == Ok(Back(c), close);
    BlockParse(ts, Back(c), rest);
  }

  lemma ExecParse(argv: seq<string>, rest: Toks<string>)
    requires |argv| < MAXARGS
    ensures GExec(Sym('(', WordToks(argv, Sym(')', rest)))) == Finish(Exec(argv), GRedirs(rest, []))
  {
    var ts := WordToks(argv, Sym(')', rest));
    ArgsParse(argv, [], Sym(')', rest));
    assert [] + argv == argv;
    assert GRedirs(ts, []) == ROk([], ts);
    LineParse(ts, Exec(argv), Sym(')', rest));
    BlockParse(ts, Exec(argv), rest);
  }

  /** The tokens of a printed tree parse to its base, with its own redirections read
      and more possible. */
  lemma {:induction false} TreeParse(t: Tree, rest: Toks<string>)
    requires Valid(t)
    ensures GExec(TreeToks(t, rest)) == Finish(Base(t), GRedirs(rest, Redirects(t)))
    decreases t, 0
  {
    match t
    case Exec(argv) => ExecParse(argv, rest);
    case Redir(c, file, input) => TreeParse(c, Sym(Angled(input), Cons('a', file, rest)));
    case Pipe(l, r) =>
      TreeInside(r, Sym(')', rest));
      TreeInside(l, Sym('|', TreeToks(r, Sym(')', rest))));
      PipeParse(TreeToks(l, Sym('|', TreeToks(r, Sym(')', rest)))), l, TreeToks(r, Sym(')', rest)), r, rest);
    case List(l, r) =>
      TreeInside(r, Sym(')', rest));
      TreeInside(l, Sym(';', TreeToks(r, Sym(')', rest))));
      ListParse(TreeToks(l, Sym(';', TreeToks(r, Sym(')', rest)))), l, TreeToks(r, Sym(')', rest)), r, rest);
    case Back(c) =>
      TreeInside(c, Sym('&', Sym(')', rest)));
      BackParse(TreeToks(c, Sym('&', Sym(')', rest))), c, rest);
  }

  lemma {:induction false} TreeInside(t: Tree, rest: Toks<string>)
    requires Valid(t) && !Angle(rest)
    ensures GExec(TreeToks(t, rest)) == Ok(t, rest)
    decreases t, 1
  {
    TreeParse(t, rest);
    BaseWrap(t);
  }
}
