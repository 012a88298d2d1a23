/** Runs in which link and create enter a name in a directory that has just lost its
    own: the link counts are wrong from then on. */
module DirLoss {
  import opened DirSpec
  import opened DirRuns
  import opened DirLinks

  // ----- create, run alone --------------------------------------------------

  ghost predicate CanCreate(s: State, t: nat, name: string, ip: nat) {
    && Runs(s, t) && s.ops[t].Parent? && Unlocked(s, t, s.ops[t].dp) && IsDir(s.dirs, s.ops[t].dp)
    && Lookup(s.dirs.ents[s.ops[t].dp], name) == |s.dirs.ents[s.ops[t].dp]| && IsIno(s.dirs, ip) && s.dirs.kind[ip] == Free
  }

  ghost predicate InMkdir(s: State, t: nat, stage: nat) {
    Inv(s) && Exact(s) && t < |s.ops| && s.ops[t].Creating? && s.ops[t].dir && s.ops[t].stage == stage && OpOk(s.dirs, s.ops[t])
  }

  /** ialloc, and the count of the new inode. */
  lemma Start(s: State, t: nat, name: string, dir: bool, ip: nat) returns (n: State)
    requires Inv(s) && Exact(s) && CanCreate(s, t, name, ip)
    ensures DoCreateStart(s, n, t, name, dir, ip) && Inv(n) && Exact(n) && n.ops[t] == Creating(s.ops[t].dp, ip, name, dir, 0)
  {
    n := State(Dirs(s.dirs.kind[ip := if dir then Dir else File], s.dirs.ents[ip := []], s.dirs.joined),
               s.nlink[ip := 1], s.ops[t := Creating(s.ops[t].dp, ip, name, dir, 0)]);
    ExactTidy(s);
    StartTidy(s, n, t, name, dir, ip);
    TidyExact(n);
  }

  lemma Count(s: State, t: nat) returns (n: State)
    requires InMkdir(s, t, 0)
    ensures Next(s, n, MkdirCount(t)) && InMkdir(n, t, 1)
  {
    InvRuns(s, t);
    n := CountUp(s, t);
    CountExact(s, n, t);
    InvOps(n, t);
  }

  lemma InvRuns(s: State, t: nat)
    requires Inv(s) && t < |s.ops|
    ensures Runs(s, t)
  {
  }

  lemma CountUp(s: State, t: nat) returns (n: State)
    requires Runs(s, t) && s.ops[t].Creating? && s.ops[t].dir && s.ops[t].stage == 0 && OpOk(s.dirs, s.ops[t])
    ensures DoMkdirCount(s, n, t) && n.ops == s.ops[t := s.ops[t].(stage := 1)]
  {
    n := State(s.dirs, s.nlink[s.ops[t].dp := s.nlink[s.ops[t].dp] + 1], s.ops[t := s.ops[t].(stage := 1)]);
  }

  lemma CountExact(s: State, n: State, t: nat)
    requires Inv(s) && Exact(s) && DoMkdirCount(s, n, t)
    ensures Inv(n) && Exact(n)
  {
    ExactTidy(s);
    MkdirCountKeeps(s, n, t);
    SameTidy(s, n);
    TidyExact(n);
  }

  lemma Dots(s: State, t: nat) returns (n: State)
    requires InMkdir(s, t, 1) || InMkdir(s, t, 2)
    ensures Next(s, n, MkdirDots(t)) && InMkdir(n, t, s.ops[t].stage + 1)
  {
    InvRuns(s, t);
    n := DotsPut(s, t);
    DotsExact(s, n, t);
    InvOps(n, t);
  }

  lemma DotsPut(s: State, t: nat) returns (n: State)
    requires Runs(s, t) && s.ops[t].Creating? && s.ops[t].dir && 1 <= s.ops[t].stage <= 2 && OpOk(s.dirs, s.ops[t])
    ensures DoMkdirDots(s, n, t) && n.ops == s.ops[t := s.ops[t].(stage := s.ops[t].stage + 1)]
  {
    var op := s.ops[t];
    var ents := if op.stage == 1 then WithEntry(s.dirs, op.ip, op.ip, DOT) else WithEntry(s.dirs, op.ip, op.dp, DOTDOT);
    n := State(s.dirs.(ents := ents), s.nlink, s.ops[t := op.(stage := op.stage + 1)]);
  }

  lemma DotsExact(s: State, n: State, t: nat)
    requires Inv(s) && Exact(s) && DoMkdirDots(s, n, t)
    ensures Inv(n) && Exact(n)
  {
    ExactTidy(s);
    MkdirDotsTidy(s, n, t);
    TidyExact(n);
  }

  lemma Enter(s: State, t: nat) returns (n: State)
    requires Inv(s) && t < |s.ops| && s.ops[t].Creating? && s.ops[t].stage == if s.ops[t].dir then 3 else 0
    ensures DoCreateEnter(s, n, t)
  {
    var op := s.ops[t];
    assert OpOk(s.dirs, op);
    n := State(Dirs(s.dirs.kind, WithEntry(s.dirs, op.dp, op.ip, op.name),
                    if op.dir then s.dirs.joined + {op.ip as int} else s.dirs.joined), s.nlink, s.ops[t := Idle]);
  }

  lemma Stepped(s: State, n: State, step: Step)
    requires Next(s, n, step)
    ensures Steps(s, n)
  {
  }

  /** create with nothing in between, of a file or of a directory: it leaves exact
      counts exactly when the parent has a link. */
  lemma CreateAlone(s: State, t: nat, name: string, dir: bool, ip: nat) returns (ss: seq<State>)
    requires Inv(s) && Exact(s) && CanCreate(s, t, name, ip)
    ensures Run(ss) && ss[0] == s && s.ops[t].dp < |s.nlink| && |ss| >= 3 && DoCreateStart(s, ss[1], t, name, dir, ip)
    ensures DoCreateEnter(ss[|ss| - 2], ss[|ss| - 1], t)
    ensures Exact(ss[|ss| - 1]) <==> s.nlink[s.ops[t].dp] > 0
  {
    var a := Start(s, t, name, dir, ip);
    Stepped(s, a, CreateStart(t, name, dir, ip));
    if dir {
      InvOps(a, t);
      ss := CreateDir(s, a, t, name, ip);
    } else {
      ss := CreateFile(s, a, t, name, ip);
    }
  }

  lemma InvOps(a: State, t: nat)
    requires Inv(a) && t < |a.ops|
    ensures OpOk(a.dirs, a.ops[t])
  {
  }

  lemma CreateFile(s: State, a: State, t: nat, name: string, ip: nat) returns (ss: seq<State>)
    requires Inv(s) && Inv(a) && Exact(a) && DoCreateStart(s, a, t, name, false, ip) && Steps(s, a)
    ensures Run(ss) && ss[0] == s && s.ops[t].dp < |s.nlink| && |ss| >= 3 && DoCreateStart(s, ss[1], t, name, false, ip)
    ensures DoCreateEnter(ss[|ss| - 2], ss[|ss| - 1], t)
    ensures Exact(ss[|ss| - 1]) <==> s.nlink[s.ops[t].dp] > 0
  {
    var e := Enter(a, t);
    Stepped(a, e, CreateEnter(t));
    ss := [s, a, e];
    CreateCall(ss, t, name, false, ip, 2);
  }

  lemma CreateDir(s: State, a: State, t: nat, name: string, ip: nat) returns (ss: seq<State>)
    requires Inv(s) && InMkdir(a, t, 0) && DoCreateStart(s, a, t, name, true, ip) && Steps(s, a)
    ensures Run(ss) && ss[0] == s && s.ops[t].dp < |s.nlink| && |ss| >= 3 && DoCreateStart(s, ss[1], t, name, true, ip)
    ensures DoCreateEnter(ss[|ss| - 2], ss[|ss| - 1], t)
    ensures Exact(ss[|ss| - 1]) <==> s.nlink[s.ops[t].dp] > 0
  {
    var b, c, d, e := RestOfMkdir(a, t);
    ss := RunOf(s, a, b, c, d, e);
    Follow(s, a, b, c, d, e, t, name, ip);
  }

  lemma Follow(s: State, a: State, b: State, c: State, d: State, e: State, t: nat, name: string, ip: nat)
    requires Inv(s) && DoCreateStart(s, a, t, name, true, ip) && Steps(a, b) && Steps(b, c) && Steps(c, d)
    requires t < |b.ops| && t < |c.ops| && t < |d.ops| && b.ops[t].Creating? && c.ops[t].Creating? && d.ops[t].Creating?
    requires Exact(d) && DoCreateEnter(d, e, t)
    ensures s.ops[t].dp < |s.nlink| && (Exact(e) <==> s.nlink[s.ops[t].dp] > 0)
  {
    var dp := s.ops[t].dp;
    CreateStartKeeps(s, a, t, name, true, ip);
    var c0 := s.nlink[dp];
    Onward(a, b, t, dp, c0);
    Onward(b, c, t, dp, c0);
    Onward(c, d, t, dp, c0);
    CreateNeedsLinkedParent(d, e, t);
  }

  lemma Onward(s: State, n: State, t: nat, dp: nat, c: int)
    requires Inv(s) && Steps(s, n) && InCreate(s, t, dp, true, c) && t < |n.ops| && n.ops[t].Creating?
    ensures Inv(n) && InCreate(n, t, dp, true, c)
  {
    StepsKeepInv(s, n);
    CreateStep(s, n, t, dp, true, c);
  }

  lemma RunOf(s: State, a: State, b: State, c: State, d: State, e: State) returns (ss: seq<State>)
    requires Steps(s, a) && Steps(a, b) && Steps(b, c) && Steps(c, d) && Steps(d, e)
    ensures Run(ss) && |ss| == 6 && ss[0] == s && ss[1] == a && ss[4] == d && ss[5] == e
  {
    ss := [s, a, b, c, d, e];
    forall k | 0 <= k < |ss| - 1
      ensures Steps(ss[k], ss[k + 1])
    {
    }
  }

  lemma RestOfMkdir(a: State, t: nat) returns (b: State, c: State, d: State, e: State)
    requires InMkdir(a, t, 0)
    ensures Steps(a, b) && Steps(b, c) && Steps(c, d) && Steps(d, e) && DoCreateEnter(d, e, t) && Exact(d)
    ensures t < |b.ops| && t < |c.ops| && t < |d.ops| && b.ops[t].Creating? && c.ops[t].Creating? && d.ops[t].Creating?
  {
    b := Count(a, t);
    Stepped(a, b, MkdirCount(t));
    c := Dots(b, t);
    Stepped(b, c, MkdirDots(t));
    d := Dots(c, t);
    Stepped(c, d, MkdirDots(t));
    e := Enter(d, t);
    Stepped(d, e, CreateEnter(t));
  }

  // ----- a directory that loses its name ------------------------------------

  /** The end of a run in which every parent so far had a link. */
  ghost predicate Reached(s: State) {
    exists ss, names :: CheckedRun(ss) && Init(ss[0], names) && ss[|ss| - 1] == s
  }

  lemma ReachedInv(s: State)
    requires Reached(s)
    ensures Inv(s) && Exact(s)
  {
    var ss, names :| CheckedRun(ss) && Init(ss[0], names) && ss[|ss| - 1] == s;
    CheckedRunInv(ss, names, |ss| - 1);
    TidyExact(s);
  }

  lemma ReachStep(s: State, n: State, step: Step)
    requires Reached(s) && Next(s, n, step) && Checks(s, step)
    ensures Reached(n)
  {
    var ss, names :| CheckedRun(ss) && Init(ss[0], names) && ss[|ss| - 1] == s;
    var all := ss + [n];
    assert CheckedSteps(s, n);
    forall k | 0 <= k < |all| - 1
      ensures CheckedSteps(all[k], all[k + 1])
    {
      if k < |ss| - 1 { assert CheckedSteps(ss[k], ss[k + 1]); }
    }
    assert CheckedRun(all) && Init(all[0], names) && all[|all| - 1] == n;
  }

  function RootDir(last: seq<Entry>): seq<Entry> {
    [Entry(1, DOT), Entry(1, DOTDOT), Entry(2, "a")] + last
  }

  /** Three threads; a root directory with one file "a", which is inode 2; inode 3 is
      of kind `kind` with entries `e`, inode 4 is free. */
  function World(kind: Kind, last: seq<Entry>, e: seq<Entry>, joined: set<int>, nlink: seq<int>, ops: seq<Op>): State {
    State(Dirs([Free, Dir, File, kind, Free], [[], RootDir(last), [], e, []], joined), nlink, ops)
  }

  function Dots3(): seq<Entry> {
    [Entry(3, DOT), Entry(1, DOTDOT)]
  }

  lemma Fresh()
    ensures Reached(World(Free, [], [], {1}, [0, 1, 1, 0, 0], [Idle, Idle, Idle]))
  {
    var s := World(Free, [], [], {1}, [0, 1, 1, 0, 0], [Idle, Idle, Idle]);
    assert seq(1, k requires 0 <= k < 1 => Entry(k + 2, ["a"][k])) == [Entry(2, "a")];
    assert Init(s, ["a"]);
    assert CheckedRun([s]) && [s][0] == s;
  }

  lemma SetWorld(last: seq<Entry>, e: seq<Entry>, x: seq<Entry>)
    ensures [[], RootDir(last), [], e, []][3 := x] == [[], RootDir(last), [], x, []]
    ensures forall l :: RootDir(l) == x ==> [[], RootDir(last), [], e, []][1 := x] == [[], RootDir(l), [], e, []]
  {
  }

  /** Thread 1 makes the directory "d", inode 3. */
  lemma Mkdir()
    ensures Reached(World(Dir, [Entry(3, "d")], Dots3(), {1, 3}, [0, 2, 1, 1, 0], [Idle, Idle, Idle]))
  {
    Fresh();
    var s0 := World(Free, [], [], {1}, [0, 1, 1, 0, 0], [Idle, Idle, Idle]);
    var s1 := World(Free, [], [], {1}, [0, 1, 1, 0, 0], [Idle, Parent(1), Idle]);
    ReachStep(s0, s1, FindParent(1, 1));
    Mkdir1(s1);
    Mkdir2();
    Mkdir3();
    Mkdir4();
  }

  lemma Mkdir1(s: State)
    requires s == World(Free, [], [], {1}, [0, 1, 1, 0, 0], [Idle, Parent(1), Idle]) && Reached(s)
    ensures Reached(World(Dir, [], [], {1}, [0, 2, 1, 1, 0], [Idle, Creating(1, 3, "d", true, 1), Idle]))
  {
    var n := World(Dir, [], [], {1}, [0, 1, 1, 1, 0], [Idle, Creating(1, 3, "d", true, 0), Idle]);
    NoD();
    SetWorld([], [], []);
    assert DoCreateStart(s, n, 1, "d", true, 3);
    ReachStep(s, n, CreateStart(1, "d", true, 3));
    var m := World(Dir, [], [], {1}, [0, 2, 1, 1, 0], [Idle, Creating(1, 3, "d", true, 1), Idle]);
    ReachStep(n, m, MkdirCount(1));
  }

  lemma NoD()
    ensures Lookup(RootDir([]), "d") == 3 && Hole(RootDir([])) == 3 && Put(RootDir([]), 3, Entry(3, "d")) == RootDir([Entry(3, "d")])
  {
  }

  lemma Mkdir2()
    requires Reached(World(Dir, [], [], {1}, [0, 2, 1, 1, 0], [Idle, Creating(1, 3, "d", true, 1), Idle]))
    ensures Reached(World(Dir, [], [Entry(3, DOT)], {1}, [0, 2, 1, 1, 0], [Idle, Creating(1, 3, "d", true, 2), Idle]))
  {
    var s := World(Dir, [], [], {1}, [0, 2, 1, 1, 0], [Idle, Creating(1, 3, "d", true, 1), Idle]);
    var n := World(Dir, [], [Entry(3, DOT)], {1}, [0, 2, 1, 1, 0], [Idle, Creating(1, 3, "d", true, 2), Idle]);
    NextDots(1, 3, 1);
    SetWorld([], [], [Entry(3, DOT)]);
    assert DoMkdirDots(s, n, 1);
    ReachStep(s, n, MkdirDots(1));
  }

  lemma Mkdir3()
    requires Reached(World(Dir, [], [Entry(3, DOT)], {1}, [0, 2, 1, 1, 0], [Idle, Creating(1, 3, "d", true, 2), Idle]))
    ensures Reached(World(Dir, [], Dots3(), {1}, [0, 2, 1, 1, 0], [Idle, Creating(1, 3, "d", true, 3), Idle]))
  {
    var s := World(Dir, [], [Entry(3, DOT)], {1}, [0, 2, 1, 1, 0], [Idle, Creating(1, 3, "d", true, 2), Idle]);
    var n := World(Dir, [], Dots3(), {1}, [0, 2, 1, 1, 0], [Idle, Creating(1, 3, "d", true, 3), Idle]);
    NextDots(1, 3, 2);
    SetWorld([], [Entry(3, DOT)], Dots3());
    assert DoMkdirDots(s, n, 1);
    ReachStep(s, n, MkdirDots(1));
  }

  lemma Mkdir4()
    requires Reached(World(Dir, [], Dots3(), {1}, [0, 2, 1, 1, 0], [Idle, Creating(1, 3, "d", true, 3), Idle]))
    ensures Reached(World(Dir, [Entry(3, "d")], Dots3(), {1, 3}, [0, 2, 1, 1, 0], [Idle, Idle, Idle]))
  {
    var s := World(Dir, [], Dots3(), {1}, [0, 2, 1, 1, 0], [Idle, Creating(1, 3, "d", true, 3), Idle]);
    var n := World(Dir, [Entry(3, "d")], Dots3(), {1, 3}, [0, 2, 1, 1, 0], [Idle, Idle, Idle]);
    NoD();
    SetWorld([], Dots3(), RootDir([Entry(3, "d")]));
    assert DoCreateEnter(s, n, 1);
    ReachStep(s, n, CreateEnter(1));
  }

  /** link of "a" has found directory "d"; so has a create; then "d" is unlinked. */
  function Orphan(): State {
    World(Dir, [Entry(0, "")], Dots3(), {1}, [0, 1, 2, 0, 0], [LinkTo(2, 3), Idle, Parent(3)])
  }

  lemma OrphanReached()
    ensures Reached(Orphan())
  {
    Mkdir();
    var s0 := World(Dir, [Entry(3, "d")], Dots3(), {1, 3}, [0, 2, 1, 1, 0], [Idle, Idle, Idle]);
    var s1 := World(Dir, [Entry(3, "d")], Dots3(), {1, 3}, [0, 2, 2, 1, 0], [LinkUp(2), Idle, Idle]);
    ReachStep(s0, s1, LinkStart(0, 2));
    var s2 := World(Dir, [Entry(3, "d")], Dots3(), {1, 3}, [0, 2, 2, 1, 0], [LinkTo(2, 3), Idle, Idle]);
    ReachStep(s1, s2, LinkParent(0, 3));
    var s3 := World(Dir, [Entry(3, "d")], Dots3(), {1, 3}, [0, 2, 2, 1, 0], [LinkTo(2, 3), Idle, Parent(3)]);
    ReachStep(s2, s3, FindParent(2, 3));
    FindRoot();
    Rmdir();
  }

  lemma FindRoot()
    requires Reached(World(Dir, [Entry(3, "d")], Dots3(), {1, 3}, [0, 2, 2, 1, 0], [LinkTo(2, 3), Idle, Parent(3)]))
    ensures Reached(World(Dir, [Entry(3, "d")], Dots3(), {1, 3}, [0, 2, 2, 1, 0], [LinkTo(2, 3), Parent(1), Parent(3)]))
  {
    var s3 := World(Dir, [Entry(3, "d")], Dots3(), {1, 3}, [0, 2, 2, 1, 0], [LinkTo(2, 3), Idle, Parent(3)]);
    var s4 := World(Dir, [Entry(3, "d")], Dots3(), {1, 3}, [0, 2, 2, 1, 0], [LinkTo(2, 3), Parent(1), Parent(3)]);
    ReachStep(s3, s4, FindParent(1, 1));
  }

  lemma Rmdir()
    requires Reached(World(Dir, [Entry(3, "d")], Dots3(), {1, 3}, [0, 2, 2, 1, 0], [LinkTo(2, 3), Parent(1), Parent(3)]))
    ensures Reached(Orphan())
  {
    var s4 := World(Dir, [Entry(3, "d")], Dots3(), {1, 3}, [0, 2, 2, 1, 0], [LinkTo(2, 3), Parent(1), Parent(3)]);
    var s5 := World(Dir, [Entry(0, "")], Dots3(), {1}, [0, 1, 2, 1, 0], [LinkTo(2, 3), UnlinkDown(3), Parent(3)]);
    FindD();
    assert DoUnlink(s4, s5, 1, "d");
    ReachStep(s4, s5, Unlink(1, "d"));
    LastLink(s5);
  }

  lemma LastLink(s: State)
    requires s == World(Dir, [Entry(0, "")], Dots3(), {1}, [0, 1, 2, 1, 0], [LinkTo(2, 3), UnlinkDown(3), Parent(3)]) && Reached(s)
    ensures Reached(Orphan())
  {
    ReachStep(s, Orphan(), UnlinkFinish(1));
  }

  lemma FindD()
    ensures Lookup(RootDir([Entry(3, "d")]), "d") == 3 && RootDir([Entry(3, "d")])[3 := Entry(0, "")] == RootDir([Entry(0, "")])
  {
    assert !Used(Entry(2, "a"), "d");
  }

  /** The link goes on: the counts are wrong. */
  lemma LinkLoses()
    ensures exists s, n, name :: Reached(s) && Next(s, n, LinkEnter(0, name)) && !Exact(n)
  {
    OrphanReached();
    var s := Orphan();
    ReachedInv(s);
    var n := OrphanLinks(s);
    LinkNeedsLinkedParent(s, n, 0, "x");
    assert Next(s, n, LinkEnter(0, "x"));
  }

  lemma OrphanLinks(s: State) returns (n: State)
    requires s == Orphan()
    ensures DoLinkEnter(s, n, 0, "x") && s.ops[0].dp == 3 && s.nlink[3] == 0
  {
    n := State(s.dirs.(ents := WithEntry(s.dirs, 3, 2, "x")), s.nlink, s.ops[0 := Idle]);
    assert Lookup(Dots3(), "x") == 2;
  }

  /** A run that goes on from a reachable state with all of one create. */
  ghost predicate Created(ss: seq<State>, t: nat, name: string, dir: bool, ip: nat) {
    && Run(ss) && |ss| >= 3 && Reached(ss[0])
    && DoCreateStart(ss[0], ss[1], t, name, dir, ip) && DoCreateEnter(ss[|ss| - 2], ss[|ss| - 1], t)
  }

  /** The create goes on, of a file or of a directory: the counts are wrong. */
  lemma CreateLoses(dir: bool)
    ensures exists ss, t, name, ip :: Created(ss, t, name, dir, ip) && !Exact(ss[|ss| - 1])
  {
    OrphanReached();
    var s := Orphan();
    ReachedInv(s);
    assert CanCreate(s, 2, "x", 4) by {
      assert Lookup(Dots3(), "x") == 2;
    }
    var ss := CreateAlone(s, 2, "x", dir, 4);
    assert Created(ss, 2, "x", dir, 4);
  }
}
