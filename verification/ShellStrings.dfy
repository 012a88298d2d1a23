/** nulterminate: every word a parse has recorded becomes a C string, and no byte of a
    word is overwritten. */
module ShellStrings {
  import opened ShellSpec
  import opened ShellText
  import opened ShellRound

  /** The places a command records. */
  function Spans(c: Cmd<Span>): set<Span> {
    match c
    case Exec(argv) => set p | p in argv
    case Redir(cmd, file, input) => Spans(cmd) + {file}
    case Pipe(l, r) => Spans(l) + Spans(r)
    case List(l, r) => Spans(l) + Spans(r)
    case Back(cmd) => Spans(cmd)
  }

  /** A maximal run of word characters. */
  predicate WordAt(s: string, p: Span) {
    && p.q < p.eq <= |s| && (forall k :: p.q <= k < p.eq ==> WordChar(s[k]))
    && (p.eq < |s| ==> !WordChar(s[p.eq]))
  }

  ghost predicate AllWords(s: string, c: Cmd<Span>) {
    forall p :: p in Spans(c) ==> WordAt(s, p)
  }

  /** No command has more arguments than argv has room for. */
  predicate FewArgs(c: Cmd<Span>) {
    match c
    case Exec(argv) => |argv| < MAXARGS
    case Redir(cmd, file, input) => FewArgs(cmd)
    case Pipe(l, r) => FewArgs(l) && FewArgs(r)
    case List(l, r) => FewArgs(l) && FewArgs(r)
    case Back(cmd) => FewArgs(cmd)
  }

  ghost predicate Recorded(s: string, c: Cmd<Span>) {
    FewArgs(c) && AllWords(s, c)
  }

  // ----- the parser records words only --------------------------------------

  predicate ToksOk(s: string, ts: Toks<Span>) {
    ts.Nil? || ((ts.kind == 'a' ==> WordAt(s, ts.word)) && ToksOk(s, ts.rest))
  }

  ghost predicate RedirsOk(s: string, rs: seq<Redirect<Span>>) {
    forall k :: 0 <= k < |rs| ==> WordAt(s, rs[k].file)
  }

  ghost predicate ArgsOk(s: string, argv: seq<Span>) {
    |argv| < MAXARGS && forall k :: 0 <= k < |argv| ==> WordAt(s, argv[k])
  }

  lemma {:induction false} WordEndAt(s: string, i: nat)
    requires i <= |s|
    ensures var e := WordEnd(s, i); (e < |s| ==> !WordChar(s[e])) && forall k :: i <= k < e ==> WordChar(s[k])
    decreases |s| - i
  {
    if i < |s| && WordChar(s[i]) { WordEndAt(s, i + 1); }
  }

  lemma {:induction false} LexOk(s: string, i: nat)
    requires i <= |s|
    ensures ToksOk(s, Lex(s, i))
    decreases |s| - i
  {
    var t := Tok(s, i);
    if t.kind != NUL {
      LexOk(s, t.next);
      if t.kind == 'a' { WordEndAt(s, t.span.q + 1); }
    }
  }

  lemma {:induction false} RedirsWords(s: string, ts: Toks<Span>, rs: seq<Redirect<Span>>)
    requires ToksOk(s, ts) && RedirsOk(s, rs)
    ensures var r := GRedirs(ts, rs); r.ROk? ==> ToksOk(s, r.rest) && RedirsOk(s, r.rs)
    decreases ts
  {
    if Angle(ts) && Next(ts.rest, 'a') {
      RedirsWords(s, ts.rest.rest, rs + [Redirect(ts.rest.word, ts.kind == '<')]);
    }
  }

  lemma {:induction false} WrapWords(s: string, c: Cmd<Span>, rs: seq<Redirect<Span>>)
    requires Recorded(s, c) && RedirsOk(s, rs)
    ensures Recorded(s, Wrap(c, rs))
    decreases |rs|
  {
    if rs != [] { WrapWords(s, c, rs[..|rs| - 1]); }
  }

  lemma {:induction false} ArgsWords(s: string, ts: Toks<Span>, argv: seq<Span>, rs: seq<Redirect<Span>>)
    requires ToksOk(s, ts) && ArgsOk(s, argv) && RedirsOk(s, rs)
    ensures var r := GArgs(ts, argv, rs); r.Ok? ==> ToksOk(s, r.rest) && Recorded(s, r.cmd)
    decreases Size(ts)
  {
    if ts.Nil? || EndsArgs(ts) {
      WrapWords(s, Exec(argv), rs);
    } else if ts.kind == 'a' && |argv| + 1 < MAXARGS {
      RedirsWords(s, ts.rest, rs);
      var m := GRedirs(ts.rest, rs);
      if m.ROk? { ArgsWords(s, m.rest, argv + [ts.word], m.rs); }
    }
  }

  lemma {:induction false} ExecWords(s: string, ts: Toks<Span>)
    requires ToksOk(s, ts)
    ensures var r := GExec(ts); r.Ok? ==> ToksOk(s, r.rest) && Recorded(s, r.cmd)
    decreases Size(ts), 1
  {
    if Next(ts, '(') {
      BlockWords(s, ts);
    } else {
      RedirsWords(s, ts, []);
      var m := GRedirs(ts, []);
      if m.ROk? { ArgsWords(s, m.rest, [], m.rs); }
    }
  }

  lemma {:induction false} BlockWords(s: string, ts: Toks<Span>)
    requires ToksOk(s, ts) && Next(ts, '(')
    ensures var r := GBlock(ts); r.Ok? ==> ToksOk(s, r.rest) && Recorded(s, r.cmd)
    decreases Size(ts), 0
  {
    LineWords(s, ts.rest);
    var c := GLine(ts.rest);
    if c.Ok? && Next(c.rest, ')') {
      RedirsWords(s, c.rest.rest, []);
      var m := GRedirs(c.rest.rest, []);
      if m.ROk? { WrapWords(s, c.cmd, m.rs); }
    }
  }

  lemma {:induction false} PipeWords(s: string, ts: Toks<Span>)
    requires ToksOk(s, ts)
    ensures var r := GPipe(ts); r.Ok? ==> ToksOk(s, r.rest) && Recorded(s, r.cmd)
    decreases Size(ts), 2
  {
    ExecWords(s, ts);
    var c := GExec(ts);
    if c.Ok? && Next(c.rest, '|') { PipeWords(s, c.rest.rest); }
  }

  lemma {:induction false} BacksWords(s: string, ts: Toks<Span>, c: Cmd<Span>)
    requires ToksOk(s, ts) && Recorded(s, c)
    ensures var r := GBacks(ts, c); ToksOk(s, r.rest) && Recorded(s, r.cmd)
    decreases ts
  {
    if Next(ts, '&') { BacksWords(s, ts.rest, Back(c)); }
  }

  lemma {:induction false} LineWords(s: string, ts: Toks<Span>)
    requires ToksOk(s, ts)
    ensures var r := GLine(ts); r.Ok? ==> ToksOk(s, r.rest) && Recorded(s, r.cmd)
    decreases Size(ts), 3
  {
    PipeWords(s, ts);
    var c := GPipe(ts);
    if c.Ok? {
      BacksWords(s, c.rest, c.cmd);
      var b := GBacks(c.rest, c.cmd);
      if Next(b.rest, ';') { LineWords(s, b.rest.rest); }
    }
  }

  /** Whatever the line, each place a parse records is a whole word of it. */
  lemma CmdWords(s: string)
    ensures GCmd(s).Ok? ==> Recorded(s, GCmd(s).cmd)
  {
    LexOk(s, 0);
    LineWords(s, Lex(s, 0));
  }

  lemma SubWord(s: string, p: Span)
    requires WordAt(s, p)
    ensures Word(Sub(s, p))
  {
    var w := s[p.q..p.eq];
    forall k | 0 <= k < |w|
      ensures WordChar(w[k])
    {
      assert w[k] == s[p.q + k];
    }
  }

  lemma {:induction false} TextValid(s: string, c: Cmd<Span>)
    requires Recorded(s, c)
    ensures Valid(Text(s, c))
  {
    match c
    case Exec(argv) =>
      forall k | 0 <= k < |argv|
        ensures Word(Words(s, argv)[k])
      {
        assert argv[k] in Spans(c);
        SubWord(s, argv[k]);
      }
    case Redir(cmd, file, input) =>
      assert Spans(cmd) <= Spans(c) && file in Spans(c);
      SubWord(s, file);
      TextValid(s, cmd);
    case Pipe(l, r) =>
      assert Spans(l) <= Spans(c) && Spans(r) <= Spans(c);
      TextValid(s, l);
      TextValid(s, r);
    case List(l, r) =>
      assert Spans(l) <= Spans(c) && Spans(r) <= Spans(c);
      TextValid(s, l);
      TextValid(s, r);
    case Back(cmd) => TextValid(s, cmd);
  }

  /** Whatever the line, the tree it parses to is one that prints; and parsing what is
      printed gives the tree again. */
  lemma Reprints(s: string)
    requires GCmd(s).Ok?
    ensures var t := Text(s, GCmd(s).cmd);
            Valid(t) && GCmd(Print(t)).Ok? && Text(Print(t), GCmd(Print(t)).cmd) == t
  {
    CmdWords(s);
    TextValid(s, GCmd(s).cmd);
    RoundTrip(Text(s, GCmd(s).cmd));
  }

  // ----- nulterminate -------------------------------------------------------

  /** Where the words end. */
  function Ends(c: Cmd<Span>): set<nat> {
    set p | p in Spans(c) :: p.eq
  }

  /** nulterminate stores NUL at every word's end and nowhere else. */
  method NulTerminate(buf: array<char>, c: Cmd<Span>)
    requires forall p :: p in Spans(c) ==> p.eq < buf.Length
    modifies buf
    ensures forall k :: 0 <= k < buf.Length ==> buf[k] == if k in Ends(c) then NUL else old(buf[k])
    decreases c
  {
    match c {
      case Exec(argv) =>
        var i := 0;
        while i < |argv|
          invariant 0 <= i <= |argv|
          invariant forall k :: 0 <= k < buf.Length ==> buf[k] == if EndAmong(argv, i, k) then NUL else old(buf[k])
        {
          assert argv[i] in Spans(c);
          buf[argv[i].eq] := NUL;
          i := i + 1;
        }
        forall k | 0 <= k < buf.Length
          ensures EndAmong(argv, |argv|, k) <==> k in Ends(c)
        {
          if k in Ends(c) {
            var p :| p in Spans(c) && p.eq == k;
            var j :| 0 <= j < |argv| && argv[j] == p;
          }
        }
      case Redir(cmd, file, input) =>
        NulTerminate(buf, cmd);
        buf[file.eq] := NUL;
      case Pipe(l, r) =>
        NulTerminate(buf, l);
        NulTerminate(buf, r);
      case List(l, r) =>
        NulTerminate(buf, l);
        NulTerminate(buf, r);
      case Back(cmd) =>
        NulTerminate(buf, cmd);
    }
  }

  predicate EndAmong(argv: seq<Span>, n: nat, k: nat)
    requires n <= |argv|
  {
    exists j :: 0 <= j < n && argv[j].eq == k
  }

  /** After nulterminate each recorded word is a C string equal to its token. */
  lemma CStrings(s: string, c: Cmd<Span>, before: seq<char>, after: seq<char>, p: Span)
    requires AllWords(s, c) && before == s + [NUL] && |after| == |before| && p in Spans(c)
    requires forall k :: 0 <= k < |after| ==> after[k] == if k in Ends(c) then NUL else before[k]
    ensures p.q < p.eq < |after| && after[p.q..p.eq] == s[p.q..p.eq] && after[p.eq] == NUL
    ensures forall k :: p.q <= k < p.eq ==> after[k] != NUL
  {
    forall o | o in Spans(c)
      ensures !(p.q <= o.eq < p.eq)
    {
      assert WordAt(s, o) && WordAt(s, p);
    }
    assert p.eq in Ends(c);
  }
}
