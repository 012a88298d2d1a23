/** The shell's parser, with its cursor into the line. */
module Shell {
  import opened ShellSpec
  import opened ShellRound

  // ----- what the parser sees at the cursor ---------------------------------

  lemma LexSkip(s: string, i: nat)
    requires i <= |s|
    ensures Lex(s, Skip(s, i)) == Lex(s, i)
  {
    SkipTwice(s, i);
  }

  /** The character peek looks at decides the kind of the next token. */
  lemma Peeks(s: string, i: nat)
    requires i <= |s|
    ensures var c, ts := CharAt(s, Skip(s, i)), Lex(s, i);
            && (Next(ts, '(') <==> c == '(') && (Next(ts, ')') <==> c == ')') && (Next(ts, '|') <==> c == '|')
            && (Next(ts, '&') <==> c == '&') && (Next(ts, ';') <==> c == ';')
            && (Angle(ts) <==> c == '<' || c == '>') && (EndsArgs(ts) <==> c == '|' || c == ')' || c == '&' || c == ';')
  {
    SkipStops(s, i);
  }

  class Parser {
    const s: string      // the line, without its closing NUL
    var ps: nat          // the cursor

    constructor (s: string)
      ensures this.s == s && ps == 0
    {
      this.s, ps := s, 0;
    }

    method SkipSpaces(from: nat) returns (i: nat)
      requires from <= |s|
      ensures i == Skip(s, from)
    {
      i := from;
      while i < |s| && Space(s[i])
        invariant from <= i <= |s| && Skip(s, i) == Skip(s, from)
      {
        i := i + 1;
      }
    }

    /** gettoken */
    method GetToken() returns (kind: char, q: nat, eq: nat)
      requires ps <= |s|
      modifies this
      ensures Tok(s, old(ps)) == Token(kind, Span(q, eq), ps)
      ensures old(ps) <= ps <= |s| && (kind != NUL ==> old(ps) < ps)
      ensures Lex(s, old(ps)) == if kind == NUL then Nil else Cons(kind, Span(q, eq), Lex(s, ps))
    {
      q := SkipSpaces(ps);
      SkipStops(s, ps);
      var c := CharAt(s, q);
      kind := c;
      eq := q;
      if c == '|' || c == '(' || c == ')' || c == ';' || c == '&' || c == '<' {
        eq := q + 1;
      } else if c == '>' {
        eq := q + 1;
        if CharAt(s, eq) == '>' {
          kind, eq := '+', q + 2;
        }
      } else if c != NUL {
        kind := 'a';
        eq := q + 1;
        while eq < |s| && WordChar(s[eq])
          invariant q + 1 <= eq <= |s| && WordEnd(s, eq) == WordEnd(s, q + 1)
        {
          eq := eq + 1;
        }
      }
      ps := SkipSpaces(eq);
    }

    /** peek */
    method Peek(toks: string) returns (yes: bool)
      requires ps <= |s|
      modifies this
      ensures ps == Skip(s, old(ps)) && (yes <==> CharAt(s, ps) != NUL && CharAt(s, ps) in toks)
      ensures Lex(s, ps) == Lex(s, old(ps))
    {
      LexSkip(s, ps);
      ps := SkipSpaces(ps);
      yes := CharAt(s, ps) != NUL && CharAt(s, ps) in toks;
    }

    /** peek for one symbol other than '>'. */
    method PeekSym(c: char) returns (yes: bool)
      requires ps <= |s| && (c == '(' || c == ')' || c == '|' || c == '&' || c == ';')
      modifies this
      ensures old(ps) <= ps <= |s| && Lex(s, ps) == Lex(s, old(ps)) && (yes <==> Next(Lex(s, ps), c))
    {
      Peeks(s, ps);
      yes := Peek([c]);
    }

    method PeekAngle() returns (yes: bool)
      requires ps <= |s|
      modifies this
      ensures old(ps) <= ps <= |s| && Lex(s, ps) == Lex(s, old(ps)) && (yes <==> Angle(Lex(s, ps)))
    {
      Peeks(s, ps);
      yes := Peek("<>");
    }

    method PeekEnd() returns (yes: bool)
      requires ps <= |s|
      modifies this
      ensures old(ps) <= ps <= |s| && Lex(s, ps) == Lex(s, old(ps)) && (yes <==> EndsArgs(Lex(s, ps)))
    {
      Peeks(s, ps);
      yes := Peek("|)&;");
    }

    /** parseredirs: `before` are the redirections read so far. */
    method ParseRedirs(before: seq<Redirect<Span>>) returns (ok: bool, rs: seq<Redirect<Span>>)
      requires ps <= |s|
      modifies this
      ensures old(ps) <= ps <= |s|
      ensures GRedirs(Lex(s, old(ps)), before) == if ok then ROk(rs, Lex(s, ps)) else RFail
    {
      ghost var from := ps;
      rs, ok := before, true;
      var more := PeekAngle();
      while more
        invariant from <= ps <= |s| && (more <==> Angle(Lex(s, ps)))
        invariant GRedirs(Lex(s, ps), rs) == GRedirs(Lex(s, from), before)
        decreases |s| - ps
      {
        var tok, q, eq := GetToken();
        var kind;
        kind, q, eq := GetToken();
        if kind != 'a' {
          return false, rs;
        }
        rs := rs + [Redirect(Span(q, eq), tok == '<')];
        more := PeekAngle();
      }
    }

    /** What a parse from `from` gave, with the cursor where it is now. */
    ghost function Gave(ok: bool, cmd: Cmd<Span>): Res<Span>
      requires ps <= |s|
      reads this
    {
      if ok then Ok(cmd, Lex(s, ps)) else Fail
    }

    /** parseexec.  False where the code panics. */
    method ParseExec() returns (ok: bool, cmd: Cmd<Span>)
      requires ps <= |s|
      modifies this
      ensures old(ps) <= ps <= |s| && GExec(Lex(s, old(ps))) == Gave(ok, cmd)
      decreases |s| - ps, 1
    {
      var block := PeekSym('(');
      if block {
        ok, cmd := ParseBlock();
        return;
      }
      var rs;
      ok, rs := ParseRedirs([]);
      if !ok {
        return false, Exec([]);
      }
      ok, cmd := ParseArgs(rs);
    }

    /** parseexec's loop, with the redirections before the first argument. */
    method ParseArgs(before: seq<Redirect<Span>>) returns (ok: bool, cmd: Cmd<Span>)
      requires ps <= |s|
      modifies this
      ensures old(ps) <= ps <= |s| && GArgs(Lex(s, old(ps)), [], before) == Gave(ok, cmd)
    {
      ghost var from := ps;
      var argv, rs := [], before;
      cmd := Exec([]);
      var end := PeekEnd();
      while !end
        invariant from <= ps <= |s| && (end <==> EndsArgs(Lex(s, ps)))
        invariant GArgs(Lex(s, ps), argv, rs) == GArgs(Lex(s, from), [], before)
        decreases |s| - ps
      {
        var tok, q, eq := GetToken();
        if tok == NUL {
          break;
        }
        if tok != 'a' {
          return false, cmd;
        }
        if |argv| + 1 >= MAXARGS {
          return false, cmd;
        }
        ok, rs := ParseRedirs(rs);
        if !ok {
          return false, cmd;
        }
        argv := argv + [Span(q, eq)];
        end := PeekEnd();
      }
      ok, cmd := true, Wrap(Exec(argv), rs);
    }

    /** parseblock */
    method ParseBlock() returns (ok: bool, cmd: Cmd<Span>)
      requires ps <= |s| && Next(Lex(s, ps), '(')
      modifies this
      ensures old(ps) <= ps <= |s| && GBlock(Lex(s, old(ps))) == Gave(ok, cmd)
      decreases |s| - ps, 0
    {
      var tok, q, eq := GetToken();
      ok, cmd := ParseLine();
      if !ok {
        return;
      }
      var close := PeekSym(')');
      if !close {
        return false, cmd;
      }
      tok, q, eq := GetToken();
      var rs;
      ok, rs := ParseRedirs([]);
      if ok {
        cmd := Wrap(cmd, rs);
      }
    }

    /** parsepipe */
    method ParsePipe() returns (ok: bool, cmd: Cmd<Span>)
      requires ps <= |s|
      modifies this
      ensures old(ps) <= ps <= |s| && GPipe(Lex(s, old(ps))) == Gave(ok, cmd)
      decreases |s| - ps, 2
    {
      ok, cmd := ParseExec();
      if !ok {
        return;
      }
      var bar := PeekSym('|');
      if bar {
        var tok, q, eq := GetToken();
        var right;
        ok, right := ParsePipe();
        cmd := Pipe(cmd, right);
      }
    }

    /** parseline */
    method ParseLine() returns (ok: bool, cmd: Cmd<Span>)
      requires ps <= |s|
      modifies this
      ensures old(ps) <= ps <= |s| && GLine(Lex(s, old(ps))) == Gave(ok, cmd)
      decreases |s| - ps, 3
    {
      ok, cmd := ParsePipe();
      if !ok {
        return;
      }
      cmd := ParseBacks(cmd);
      var semi := PeekSym(';');
      if semi {
        var tok, q, eq := GetToken();
        var right;
        ok, right := ParseLine();
        cmd := List(cmd, right);
      }
    }

    /** parseline's loop */
    method ParseBacks(first: Cmd<Span>) returns (cmd: Cmd<Span>)
      requires ps <= |s|
      modifies this
      ensures old(ps) <= ps <= |s| && GBacks(Lex(s, old(ps)), first) == Ok(cmd, Lex(s, ps))
    {
      ghost var from := ps;
      cmd := first;
      var amp := PeekSym('&');
      while amp
        invariant from <= ps <= |s| && (amp <==> Next(Lex(s, ps), '&'))
        invariant GBacks(Lex(s, ps), cmd) == GBacks(Lex(s, from), first)
        decreases |s| - ps
      {
        var tok, q, eq := GetToken();
        cmd := Back(cmd);
        amp := PeekSym('&');
      }
    }

    /** parsecmd, up to nulterminate. */
    method ParseCmd() returns (ok: bool, cmd: Cmd<Span>)
      requires ps == 0 && forall k :: 0 <= k < |s| ==> s[k] != NUL
      modifies this
      ensures GCmd(s) == if ok then Ok(cmd, Nil) else Fail
    {
      ok, cmd := ParseLine();
      if ok {
        var yes := Peek("");
        ok := ps == |s|;
        AtEnd(s, ps);
      }
    }
  }

  /** After peek, the cursor is at the end exactly when no token is left. */
  lemma AtEnd(s: string, i: nat)
    requires i <= |s| && Skip(s, i) == i && forall k :: 0 <= k < |s| ==> s[k] != NUL
    ensures i == |s| <==> Lex(s, i) == Nil
  {
    SkipStops(s, i);
  }
}
