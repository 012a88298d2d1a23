/** The shell's tokens and grammar.  The grammar is a function of the tokens still to
    come, following sh.c's recursive descent call by call. */
module ShellSpec {

  const MAXARGS: nat := 10
  const NUL: char := '\0'

  predicate Space(c: char) {
    c == ' ' || c == '\t' || c == '\r' || c == '\n' || c == '\U{0B}'
  }

  predicate Symbol(c: char) {
    c == '<' || c == '|' || c == '>' || c == '&' || c == ';' || c == '(' || c == ')'
  }

  predicate WordChar(c: char) {
    !Space(c) && !Symbol(c) && c != NUL
  }

  /** A token's place in the line: from q up to eq. */
  datatype Span = Span(q: nat, eq: nat)

  /** A word is a place in the line while parsing; W is what stands for it. */
  datatype Redirect<W> = Redirect(file: W, input: bool)

  datatype Cmd<W> =
    | Exec(argv: seq<W>)
    | Redir(cmd: Cmd<W>, file: W, input: bool)
    | Pipe(left: Cmd<W>, right: Cmd<W>)
    | List(left: Cmd<W>, right: Cmd<W>)
    | Back(cmd: Cmd<W>)

  // ----- tokens -------------------------------------------------------------

  function Skip(s: string, i: nat): (j: nat)
    requires i <= |s|
    ensures i <= j <= |s|
    decreases |s| - i
  {
    if i < |s| && Space(s[i]) then Skip(s, i + 1) else i
  }

  function WordEnd(s: string, i: nat): (j: nat)
    requires i <= |s|
    ensures i <= j <= |s|
    decreases |s| - i
  {
    if i < |s| && WordChar(s[i]) then WordEnd(s, i + 1) else i
  }

  function CharAt(s: string, i: nat): char {
    if i < |s| then s[i] else NUL
  }

  datatype Token = Token(kind: char, span: Span, next: nat)

  /** gettoken: NUL at the end, a symbol, '+' for ">>", 'a' for a word. */
  function Tok(s: string, i: nat): (t: Token)
    requires i <= |s|
    ensures i <= t.span.q <= t.span.eq <= t.next <= |s| && (t.kind != NUL ==> i < t.next)
  {
    var b := Skip(s, i);
    var c := CharAt(s, b);
    var e := TokEnd(s, b);
    Token(if c == '>' && e == b + 2 then '+' else if WordChar(c) then 'a' else c, Span(b, e), Skip(s, e))
  }

  /** Where the token that begins at b ends. */
  function TokEnd(s: string, b: nat): (e: nat)
    requires b <= |s|
    ensures b <= e <= |s| && (CharAt(s, b) != NUL && !Space(CharAt(s, b)) ==> b < e)
  {
    var c := CharAt(s, b);
    if c == '>' && CharAt(s, b + 1) == '>' then b + 2
    else if Symbol(c) then b + 1
    else if WordChar(c) then WordEnd(s, b + 1)
    else b
  }

  /** The tokens still to come. */
  datatype Toks<W> = Nil | Cons(kind: char, word: W, rest: Toks<W>)

  function Lex(s: string, i: nat): Toks<Span>
    requires i <= |s|
    decreases |s| - i
  {
    var t := Tok(s, i);
    if t.kind == NUL then Nil else Cons(t.kind, t.span, Lex(s, t.next))
  }

  // ----- the grammar --------------------------------------------------------

  /** A parse: where the code calls panic it fails, else a tree and what is left. */
  datatype Res<W> = Fail | Ok(cmd: Cmd<W>, rest: Toks<W>)

  datatype Redirs<W> = RFail | ROk(rs: seq<Redirect<W>>, rest: Toks<W>)

  function Size<W>(ts: Toks<W>): nat {
    if ts.Nil? then 0 else Size(ts.rest) + 1
  }

  predicate Next<W>(ts: Toks<W>, kind: char) {
    ts.Cons? && ts.kind == kind
  }

  predicate Angle<W>(ts: Toks<W>) {
    ts.Cons? && (ts.kind == '<' || ts.kind == '>' || ts.kind == '+')
  }

  predicate EndsArgs<W>(ts: Toks<W>) {
    ts.Cons? && (ts.kind == '|' || ts.kind == ')' || ts.kind == '&' || ts.kind == ';')
  }

  /** parseredirs: more redirections after rs. */
  function GRedirs<W>(ts: Toks<W>, rs: seq<Redirect<W>>): (r: Redirs<W>)
    ensures r.ROk? ==> Size(r.rest) <= Size(ts)
    decreases ts
  {
    if !Angle(ts) then ROk(rs, ts)
    else if !Next(ts.rest, 'a') then RFail
    else GRedirs(ts.rest.rest, rs + [Redirect(ts.rest.word, ts.kind == '<')])
  }

  /** redircmd around cmd, first redirection innermost. */
  function Wrap<W>(cmd: Cmd<W>, rs: seq<Redirect<W>>): Cmd<W> {
    if rs == [] then cmd else Redir(Wrap(cmd, rs[..|rs| - 1]), rs[|rs| - 1].file, rs[|rs| - 1].input)
  }

  /** parseexec's loop: arguments, with redirections in between. */
  function GArgs<W>(ts: Toks<W>, argv: seq<W>, rs: seq<Redirect<W>>): (r: Res<W>)
    ensures r.Ok? ==> Size(r.rest) <= Size(ts)
    decreases Size(ts)
  {
    if ts.Nil? || EndsArgs(ts) then Ok(Wrap(Exec(argv), rs), ts)
    else if ts.kind != 'a' || |argv| + 1 >= MAXARGS then Fail
    else
      var m := GRedirs(ts.rest, rs);
      if m.RFail? then Fail else GArgs(m.rest, argv + [ts.word], m.rs)
  }

  function GExec<W>(ts: Toks<W>): (r: Res<W>)
    ensures r.Ok? ==> Size(r.rest) <= Size(ts)
    decreases Size(ts), 1
  {
    if Next(ts, '(') then GBlock(ts)
    else
      var m := GRedirs(ts, []);
      if m.RFail? then Fail else GArgs(m.rest, [], m.rs)
  }

  function GBlock<W>(ts: Toks<W>): (r: Res<W>)
    requires Next(ts, '(')
    ensures r.Ok? ==> Size(r.rest) <= Size(ts)
    decreases Size(ts), 0
  {
    var c := GLine(ts.rest);
    if c.Fail? || !Next(c.rest, ')') then Fail
    else
      var m := GRedirs(c.rest.rest, []);
      if m.RFail? then Fail else Ok(Wrap(c.cmd, m.rs), m.rest)
  }

  function GPipe<W>(ts: Toks<W>): (r: Res<W>)
    ensures r.Ok? ==> Size(r.rest) <= Size(ts)
    decreases Size(ts), 2
  {
    var c := GExec(ts);
    if c.Fail? || !Next(c.rest, '|') then c
    else
      var d := GPipe(c.rest.rest);
      if d.Fail? then Fail else Ok(Pipe(c.cmd, d.cmd), d.rest)
  }

  /** parseline's loop. */
  function GBacks<W>(ts: Toks<W>, cmd: Cmd<W>): (r: Res<W>)
    ensures r.Ok? && Size(r.rest) <= Size(ts)
  {
    if Next(ts, '&') then GBacks(ts.rest, Back(cmd)) else Ok(cmd, ts)
  }

  function GLine<W>(ts: Toks<W>): (r: Res<W>)
    ensures r.Ok? ==> Size(r.rest) <= Size(ts)
    decreases Size(ts), 3
  {
    var c := GPipe(ts);
    if c.Fail? then Fail
    else
      var b := GBacks(c.rest, c.cmd);
      if !Next(b.rest, ';') then b
      else
        var d := GLine(b.rest.rest);
        if d.Fail? then Fail else Ok(List(b.cmd, d.cmd), d.rest)
  }

  /** parsecmd: a whole line, nothing left over. */
  function GCmd(s: string): Res<Span> {
    var c := GLine(Lex(s, 0));
    if c.Fail? || c.rest.Cons? then Fail else c
  }
}
