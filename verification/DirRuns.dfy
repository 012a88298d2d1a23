/** sys_link, sys_unlink and create as interleaved steps, and the invariant over
    every run of them.  The parent directory may lose its own name at any time
    before it is locked: link and create do not look. */
module DirRuns {
  import opened DirSpec
  import opened DirTree

  /** No thread but t holds i's lock. */
  ghost predicate Unlocked(s: State, t: int, i: int) {
    forall u :: 0 <= u < |s.ops| && u != t ==> i !in Held(s.ops[u])
  }

  datatype Step =
    | LinkStart(t: nat, ip: nat)
    | LinkParent(t: nat, dp: nat)
    | LinkFail(t: nat)
    | LinkEnter(t: nat, name: string)
    | LinkUndo(t: nat)
    | FindParent(t: nat, dp: nat)
    | GiveUp(t: nat)
    | Unlink(t: nat, name: string)
    | UnlinkFinish(t: nat)
    | CreateStart(t: nat, name: string, dir: bool, ip: nat)
    | MkdirCount(t: nat)
    | MkdirDots(t: nat)
    | CreateEnter(t: nat)
    | Reclaim(i: nat)

  ghost predicate Runs(s: State, t: nat) {
    t < |s.ops| && |s.nlink| == |s.dirs.kind| == |s.dirs.ents|
  }

  /** sys_link: the inode is locked, is no directory, and its count goes up. */
  ghost predicate DoLinkStart(s: State, n: State, t: nat, ip: nat) {
    && Runs(s, t) && s.ops[t] == Idle && IsFile(s.dirs, ip) && Unlocked(s, t, ip)
    && n == State(s.dirs, s.nlink[ip := s.nlink[ip] + 1], s.ops[t := LinkUp(ip)])
  }

  /** Steps that change no inode: finding the parent directory, and failing. */
  ghost predicate DoMove(s: State, n: State, t: nat, op: Op) {
    && Runs(s, t) && n == s.(ops := s.ops[t := op])
    && match s.ops[t]
       case LinkUp(ip) => op == LinkBad(ip) || (op.LinkTo? && op.ip == ip && IsDir(s.dirs, op.dp))
       case LinkTo(ip, dp) => op == LinkBad(ip)
       case Idle => op.Parent? && IsDir(s.dirs, op.dp)
       case Parent(dp) => op == Idle
       case _ => false
  }

  /** sys_link: dirlink in the locked parent. */
  ghost predicate DoLinkEnter(s: State, n: State, t: nat, name: string) {
    && Runs(s, t) && s.ops[t].LinkTo? && Unlocked(s, t, s.ops[t].dp)
    && var ip, dp := s.ops[t].ip, s.ops[t].dp;
    && IsDir(s.dirs, dp) && Lookup(s.dirs.ents[dp], name) == |s.dirs.ents[dp]|
    && n == State(s.dirs.(ents := WithEntry(s.dirs, dp, ip, name)), s.nlink, s.ops[t := Idle])
  }

  function WithEntry(s: Dirs, dp: nat, ip: nat, name: string): seq<seq<Entry>>
    requires dp < |s.ents|
  {
    s.ents[dp := Put(s.ents[dp], Hole(s.ents[dp]), Entry(ip, name))]
  }

  /** Lowering the count: sys_link's bad exit, and the end of sys_unlink. */
  ghost predicate DoDown(s: State, n: State, t: nat) {
    && Runs(s, t)
    && match s.ops[t]
       case LinkBad(ip) => Unlocked(s, t, ip) && Lowered(s, n, t, ip)
       case UnlinkDown(ip) => Lowered(s, n, t, ip)
       case _ => false
  }

  ghost predicate Lowered(s: State, n: State, t: nat, ip: nat)
    requires Runs(s, t)
  {
    ip < |s.nlink| && n == State(s.dirs, s.nlink[ip := s.nlink[ip] - 1], s.ops[t := Idle])
  }

  /** sys_unlink, both inodes locked: the entry is cleared, and a directory's ".."
      no longer counts. */
  ghost predicate DoUnlink(s: State, n: State, t: nat, name: string) {
    && Runs(s, t) && s.ops[t].Parent? && Unlocked(s, t, s.ops[t].dp) && !DotName(name)
    && var dp := s.ops[t].dp;
    && IsDir(s.dirs, dp) && Lookup(s.dirs.ents[dp], name) < |s.dirs.ents[dp]|
    && var off := Lookup(s.dirs.ents[dp], name);
    var ip := s.dirs.ents[dp][off].inum;
    && ip < |s.dirs.kind| && Unlocked(s, t, ip) && ip != dp
    && (s.dirs.kind[ip] == Dir ==> EmptyDir(s.dirs.ents[ip]))
    && n == State(Dirs(s.dirs.kind, s.dirs.ents[dp := s.dirs.ents[dp][off := Entry(0, "")]],
                       if s.dirs.kind[ip] == Dir then s.dirs.joined - {ip as int} else s.dirs.joined),
                  if s.dirs.kind[ip] == Dir then s.nlink[dp := s.nlink[dp] - 1] else s.nlink,
                  s.ops[t := UnlinkDown(ip)])
  }

  /** create: the name is not there; ialloc gives a free inode, whose count is set. */
  ghost predicate DoCreateStart(s: State, n: State, t: nat, name: string, dir: bool, ip: nat) {
    && Runs(s, t) && s.ops[t].Parent? && Unlocked(s, t, s.ops[t].dp)
    && var dp := s.ops[t].dp;
    && IsDir(s.dirs, dp) && Lookup(s.dirs.ents[dp], name) == |s.dirs.ents[dp]|
    && IsIno(s.dirs, ip) && s.dirs.kind[ip] == Free
    && n == State(Dirs(s.dirs.kind[ip := if dir then Dir else File], s.dirs.ents[ip := []], s.dirs.joined),
                  s.nlink[ip := 1], s.ops[t := Creating(dp, ip, name, dir, 0)])
  }

  /** create of a directory: the parent's count goes up for "..". */
  ghost predicate DoMkdirCount(s: State, n: State, t: nat) {
    && Runs(s, t) && s.ops[t].Creating? && s.ops[t].dir && s.ops[t].stage == 0 && s.ops[t].dp < |s.nlink|
    && n == State(s.dirs, s.nlink[s.ops[t].dp := s.nlink[s.ops[t].dp] + 1], s.ops[t := s.ops[t].(stage := 1)])
  }

  /** create of a directory: dirlink of ".", then of "..". */
  ghost predicate DoMkdirDots(s: State, n: State, t: nat) {
    && Runs(s, t) && s.ops[t].Creating? && s.ops[t].dir && 1 <= s.ops[t].stage <= 2 && s.ops[t].ip < |s.dirs.ents|
    && var op := s.ops[t];
    var ents := if op.stage == 1 then WithEntry(s.dirs, op.ip, op.ip, DOT) else WithEntry(s.dirs, op.ip, op.dp, DOTDOT);
    n == State(s.dirs.(ents := ents), s.nlink, s.ops[t := op.(stage := op.stage + 1)])
  }

  /** create: dirlink of the new inode in the parent. */
  ghost predicate DoCreateEnter(s: State, n: State, t: nat) {
    && Runs(s, t) && s.ops[t].Creating? && s.ops[t].stage == (if s.ops[t].dir then 3 else 0) && s.ops[t].dp < |s.dirs.ents|
    && var op := s.ops[t];
    n == State(Dirs(s.dirs.kind, WithEntry(s.dirs, op.dp, op.ip, op.name),
                    if op.dir then s.dirs.joined + {op.ip as int} else s.dirs.joined), s.nlink, s.ops[t := Idle])
  }

  /** iput of the last reference to an inode without links frees it. */
  ghost predicate DoReclaim(s: State, n: State, i: nat) {
    && |s.nlink| == |s.dirs.kind| && IsIno(s.dirs, i) && s.dirs.kind[i] != Free && s.nlink[i] == 0
    && (forall t :: 0 <= t < |s.ops| ==> i !in Refers(s.ops[t]))
    && n == s.(dirs := Dirs(s.dirs.kind[i := Free], s.dirs.ents[i := []], s.dirs.joined))
  }

  ghost predicate Next(s: State, n: State, step: Step) {
    match step
    case LinkStart(t, ip) => DoLinkStart(s, n, t, ip)
    case LinkParent(t, dp) => t < |s.ops| && s.ops[t].LinkUp? && DoMove(s, n, t, LinkTo(s.ops[t].ip, dp))
    case LinkFail(t) => t < |s.ops| && (s.ops[t].LinkUp? || s.ops[t].LinkTo?) && DoMove(s, n, t, LinkBad(s.ops[t].ip))
    case LinkEnter(t, name) => DoLinkEnter(s, n, t, name)
    case LinkUndo(t) => t < |s.ops| && s.ops[t].LinkBad? && DoDown(s, n, t)
    case FindParent(t, dp) => DoMove(s, n, t, Parent(dp))
    case GiveUp(t) => DoMove(s, n, t, Idle)
    case Unlink(t, name) => DoUnlink(s, n, t, name)
    case UnlinkFinish(t) => t < |s.ops| && s.ops[t].UnlinkDown? && DoDown(s, n, t)
    case CreateStart(t, name, dir, ip) => DoCreateStart(s, n, t, name, dir, ip)
    case MkdirCount(t) => DoMkdirCount(s, n, t)
    case MkdirDots(t) => DoMkdirDots(s, n, t)
    case CreateEnter(t) => DoCreateEnter(s, n, t)
    case Reclaim(i) => DoReclaim(s, n, i)
  }

  // ----- pieces -------------------------------------------------------------

  lemma {:induction false} OwedSet(ops: seq<Op>, t: nat, op: Op, i: int)
    requires t < |ops|
    ensures Owed(ops[t := op], i) + One(Owes(ops[t], i)) == Owed(ops, i) + One(Owes(op, i))
  {
    if t > 0 {
      OwedSet(ops[1..], t - 1, op, i);
      assert ops[t := op][1..] == ops[1..][t - 1 := op];
    } else {
      assert ops[t := op][1..] == ops[1..];
    }
  }

  lemma {:induction false} OwedSome(ops: seq<Op>, t: nat, i: int)
    requires t < |ops| && Owes(ops[t], i)
    ensures Owed(ops, i) >= 1
  {
    if t > 0 {
      OwedSome(ops[1..], t - 1, i);
    }
  }

  lemma LocksSet(s: State, n: State, t: nat, op: Op)
    requires LocksOk(s) && t < |s.ops| && n.ops == s.ops[t := op]
    requires forall i :: i in Held(op) ==> Unlocked(s, t, i)
    ensures LocksOk(n)
  {
    forall a, b | 0 <= a < |n.ops| && 0 <= b < |n.ops| && a != b
      ensures Held(n.ops[a]) !! Held(n.ops[b])
    {
      assert a != t && b != t ==> Held(s.ops[a]) !! Held(s.ops[b]);
    }
  }

  lemma HeldUnlocked(s: State, t: nat, i: int)
    requires LocksOk(s) && t < |s.ops| && i in Held(s.ops[t])
    ensures Unlocked(s, t, i)
  {
    forall u | 0 <= u < |s.ops| && u != t
      ensures i !in Held(s.ops[u])
    {
      assert Held(s.ops[t]) !! Held(s.ops[u]);
    }
  }

  /** Each count has as much beyond its entries and the links in flight as before. */
  ghost predicate Kept(s: State, n: State) {
    && |s.nlink| == |n.nlink| == |s.dirs.kind| == |n.dirs.kind| == |s.dirs.ents| == |n.dirs.ents|
    && forall i :: IsIno(s.dirs, i) ==> Slack(n, i) == Slack(s, i)
  }

  lemma KeptCounts(s: State, n: State)
    requires Counts(s) && Kept(s, n)
    ensures Counts(n)
  {
    forall i | IsIno(n.dirs, i)
      ensures Slack(n, i) >= 0
    {
      assert IsIno(s.dirs, i);
    }
  }

  /** A directory that is still without both dots is still being made. */
  lemma DotsStep(s: State, n: State, t: nat, op: Op)
    requires DotsOk(s) && t < |s.ops| && n.ops == s.ops[t := op]
    requires forall d :: IsDir(n.dirs, d) ==>
               |n.dirs.ents[d]| >= 2 || Makes(n, t, d) || (IsDir(s.dirs, d) && |n.dirs.ents[d]| >= |s.dirs.ents[d]| && !Makes(s, t, d))
    ensures DotsOk(n)
  {
    forall d | IsDir(n.dirs, d) && |n.dirs.ents[d]| < 2
      ensures exists u :: Makes(n, u, d)
    {
      if !Makes(n, t, d) {
        var u :| Makes(s, u, d);
        assert Makes(n, u, d);
      }
    }
  }

  /** A step of thread t that changes only the count of x. */
  lemma CountStep(s: State, n: State, t: nat, op: Op, x: nat, delta: int)
    requires Inv(s) && t < |s.ops| && IsIno(s.dirs, x) && |s.nlink| == |s.dirs.kind|
    requires n == State(s.dirs, s.nlink[x := s.nlink[x] + delta], s.ops[t := op])
    requires s.dirs.kind[x] != Free && OpOk(s.dirs, op) && (s.ops[t].Creating? ==> op.Creating? && op.ip == s.ops[t].ip)
    requires forall i :: i in Held(op) ==> Unlocked(s, t, i)
    requires forall i :: One(Owes(op, i)) - One(Owes(s.ops[t], i)) == if i == x then delta else 0
    ensures Inv(n) && Kept(s, n)
  {
    LocksSet(s, n, t, op);
    DotsStep(s, n, t, op);
    forall i | IsIno(s.dirs, i)
      ensures Slack(n, i) == Slack(s, i)
    {
      OwedSet(s.ops, t, op, i);
    }
    KeptCounts(s, n);
  }

  /** A thread's own facts survive changes to inodes it does not hold. */
  lemma OpEntered(s: Dirs, n: Dirs, dp: int, k: nat, i: nat, name: string, op: Op)
    requires Entered(s, n, dp, k, i, name) && OpOk(s, op) && dp !in Held(op) && (s.kind[i] == Dir ==> i !in Held(op))
    ensures OpOk(n, op)
  {
  }

  lemma OpRemoved(s: Dirs, n: Dirs, dp: int, k: int, i: int, op: Op)
    requires Removed(s, n, dp, k, i) && OpOk(s, op) && dp !in Held(op) && i !in Held(op)
    ensures OpOk(n, op)
  {
  }

  lemma OpOff(s: Dirs, n: Dirs, i: nat, kind: Kind, e: seq<Entry>, op: Op)
    requires OffTree(s, n, i, kind, e) && OpOk(s, op)
    requires (kind == s.kind[i] && i !in Held(op)) || s.kind[i] == Free || i !in Refers(op)
    ensures OpOk(n, op)
  {
  }

  // ----- each step keeps the invariant --------------------------------------

  lemma LinkStartKeeps(s: State, n: State, t: nat, ip: nat)
    requires Inv(s) && DoLinkStart(s, n, t, ip)
    ensures Inv(n) && Kept(s, n)
  {
    CountStep(s, n, t, LinkUp(ip), ip, 1);
  }

  lemma MoveKeeps(s: State, n: State, t: nat, op: Op)
    requires Inv(s) && DoMove(s, n, t, op)
    ensures Inv(n) && Kept(s, n)
  {
    MoveOk(s, n, t, op);
    LocksSet(s, n, t, op);
    DotsStep(s, n, t, op);
    forall i | IsIno(s.dirs, i)
      ensures Slack(n, i) == Slack(s, i)
    {
      OwedSet(s.ops, t, op, i);
    }
    KeptCounts(s, n);
  }

  lemma MoveOk(s: State, n: State, t: nat, op: Op)
    requires OpsOk(s) && DoMove(s, n, t, op)
    ensures Held(op) == {} && OpOk(s.dirs, op) && OpsOk(n)
    ensures forall i :: Owes(op, i) <==> Owes(s.ops[t], i)
  {
    assert OpOk(s.dirs, s.ops[t]);
  }

  lemma DownKeeps(s: State, n: State, t: nat)
    requires Inv(s) && DoDown(s, n, t)
    ensures Inv(n) && Kept(s, n)
  {
    assert OpOk(s.dirs, s.ops[t]);
    CountStep(s, n, t, Idle, s.ops[t].ip, -1);
  }

  lemma MkdirCountKeeps(s: State, n: State, t: nat)
    requires Inv(s) && DoMkdirCount(s, n, t)
    ensures Inv(n) && Kept(s, n)
  {
    var op := s.ops[t];
    assert OpOk(s.dirs, op);
    HeldUnlocked(s, t, op.dp);
    HeldUnlocked(s, t, op.ip);
    CountStep(s, n, t, op.(stage := 1), op.dp, 1);
  }

  /** Both dots are taken. */
  lemma NotDot(s: Dirs, dp: int, name: string)
    requires DirsOk(s) && IsDir(s, dp) && |s.ents[dp]| >= 2 && Lookup(s.ents[dp], name) == |s.ents[dp]|
    ensures !DotName(name)
  {
    assert HasEntry(s, dp, 1) && HasEntry(s, dp, 0);
    assert EntryOk(s, dp, 0) && EntryOk(s, dp, 1);
    assert !Used(s.ents[dp][0], name) && !Used(s.ents[dp][1], name);
  }

  /** A directory no thread has locked has both its dots. */
  lemma DotsThere(s: State, t: nat, d: int)
    requires DotsOk(s) && t < |s.ops| && !s.ops[t].Creating? && Unlocked(s, t, d) && IsDir(s.dirs, d)
    ensures |s.dirs.ents[d]| >= 2
  {
    forall u
      ensures !Makes(s, u, d)
    {
      assert Makes(s, u, d) ==> d in Held(s.ops[u]);
    }
  }

  /** A step of thread t that enters i in dp. */
  lemma EnterStep(s: State, n: State, t: nat, dp: int, i: nat, name: string)
    requires Inv(s) && t < |s.ops| && IsDir(s.dirs, dp)
    requires Entered(s.dirs, n.dirs, dp, Hole(s.dirs.ents[dp]), i, name)
    requires n.nlink == s.nlink && n.ops == s.ops[t := Idle] && Unlocked(s, t, dp) && (s.ops[t].Creating? ==> s.ops[t].ip == i)
    requires s.dirs.kind[i] == Dir ==> Unlocked(s, t, i)
    requires forall c :: One(Owes(s.ops[t], c)) == One(c == i) + One(s.dirs.kind[i] == Dir && c == dp)
    ensures Inv(n) && Kept(s, n)
  {
    var k := Hole(s.dirs.ents[dp]);
    EnteredStruct(s.dirs, n.dirs, dp, k, i, name);
    LocksSet(s, n, t, Idle);
    DotsStep(s, n, t, Idle);
    forall u | 0 <= u < |n.ops|
      ensures OpOk(n.dirs, n.ops[u])
    {
      if u != t { OpEntered(s.dirs, n.dirs, dp, k, i, name, s.ops[u]); }
    }
    forall c | IsIno(s.dirs, c)
      ensures Slack(n, c) == Slack(s, c)
    {
      OwedSet(s.ops, t, Idle, c);
      EnteredRefs(s.dirs, n.dirs, dp, k, i, name, c);
    }
    KeptCounts(s, n);
  }

  lemma LinkEnterKeeps(s: State, n: State, t: nat, name: string)
    requires Inv(s) && DoLinkEnter(s, n, t, name)
    ensures Inv(n) && Kept(s, n)
  {
    LinkEnters(s, n, t, name);
    EnterStep(s, n, t, s.ops[t].dp, s.ops[t].ip, name);
  }

  lemma LinkEnters(s: State, n: State, t: nat, name: string)
    requires Inv(s) && DoLinkEnter(s, n, t, name)
    ensures OpOk(s.dirs, s.ops[t]) && Entered(s.dirs, n.dirs, s.ops[t].dp, Hole(s.dirs.ents[s.ops[t].dp]), s.ops[t].ip, name)
  {
    assert OpOk(s.dirs, s.ops[t]);
    DotsThere(s, t, s.ops[t].dp);
    NotDot(s.dirs, s.ops[t].dp, name);
  }

  lemma CreateEnterKeeps(s: State, n: State, t: nat)
    requires Inv(s) && DoCreateEnter(s, n, t)
    ensures Inv(n) && Kept(s, n)
  {
    var op := s.ops[t];
    CreateEnters(s, n, t);
    HeldUnlocked(s, t, op.dp);
    HeldUnlocked(s, t, op.ip);
    EnterStep(s, n, t, op.dp, op.ip, op.name);
  }

  lemma CreateEnters(s: State, n: State, t: nat)
    requires Inv(s) && DoCreateEnter(s, n, t)
    ensures OpOk(s.dirs, s.ops[t])
    ensures Entered(s.dirs, n.dirs, s.ops[t].dp, Hole(s.dirs.ents[s.ops[t].dp]), s.ops[t].ip, s.ops[t].name)
  {
    assert OpOk(s.dirs, s.ops[t]);
  }

  /** The entry unlink found names an allocated inode that has a link.  ("unlink: nlink < 1" and "ilock: no type" cannot happen.) */
  lemma UnlinkFinds(s: State, dp: nat, name: string)
    requires Inv(s) && IsDir(s.dirs, dp) && !DotName(name) && Lookup(s.dirs.ents[dp], name) < |s.dirs.ents[dp]|
    ensures var k := Lookup(s.dirs.ents[dp], name);
            var ip := s.dirs.ents[dp][k].inum;
            Child(s.dirs, dp, k, ip) && ChildOk(s.dirs, dp, ip) && ip != dp && s.nlink[ip] >= 1
  {
    var k := Lookup(s.dirs.ents[dp], name);
    assert HasEntry(s.dirs, dp, k) && EntryOk(s.dirs, dp, k);
    assert k == 0 ==> DotName(name);
    var ip := s.dirs.ents[dp][k].inum;
    assert Child(s.dirs, dp, k, ip) && ChildOk(s.dirs, dp, ip);
    ChildApart(s.dirs, dp, k, ip);
    assert (dp as int, k as int) in Refs(s.dirs, ip);
    assert IsIno(s.dirs, ip);
  }

  lemma UnlinkKeeps(s: State, n: State, t: nat, name: string)
    requires Inv(s) && DoUnlink(s, n, t, name)
    ensures Inv(n) && Kept(s, n)
  {
    var dp := s.ops[t].dp;
    var k := Lookup(s.dirs.ents[dp], name);
    var ip := s.dirs.ents[dp][k].inum;
    UnlinkFinds(s, dp, name);
    RemovedStruct(s.dirs, n.dirs, dp, k, ip);
    LocksSet(s, n, t, UnlinkDown(ip));
    DotsStep(s, n, t, UnlinkDown(ip));
    forall u | 0 <= u < |n.ops|
      ensures OpOk(n.dirs, n.ops[u])
    {
      if u != t { OpRemoved(s.dirs, n.dirs, dp, k, ip, s.ops[u]); } else { OffIfFile(s.dirs, ip); }
    }
    forall c | IsIno(s.dirs, c)
      ensures Slack(n, c) == Slack(s, c)
    {
      OwedSet(s.ops, t, UnlinkDown(ip), c);
      RemovedRefs(s.dirs, n.dirs, dp, k, ip, c);
    }
    KeptCounts(s, n);
  }

  lemma OffIfFile(s: Dirs, i: int)
    requires JoinedOk(s) && IsIno(s, i)
    ensures s.kind[i] != Dir ==> i !in s.joined
  {
    assert i in s.joined ==> HasEntry(s, i, 1);
  }

  /** A step of thread t on an inode outside the tree. */
  lemma OffStep(s: State, n: State, t: nat, op: Op, i: nat, kind: Kind, e: seq<Entry>)
    requires Inv(s) && t < |s.ops| && OffTree(s.dirs, n.dirs, i, kind, e) && n.ops == s.ops[t := op] && OpOk(n.dirs, op)
    requires forall u :: 0 <= u < |s.ops| && u != t ==>
               (kind == s.dirs.kind[i] && i !in Held(s.ops[u])) || s.dirs.kind[i] == Free || i !in Refers(s.ops[u])
    requires forall x :: x in Held(op) ==> Unlocked(s, t, x)
    requires |n.nlink| == |s.nlink| && forall c :: 0 <= c < |s.nlink| ==> n.nlink[c] - s.nlink[c] == One(Owes(op, c)) - One(Owes(s.ops[t], c))
    requires kind != Free && (forall k, c :: !Child(s.dirs, i, k, c))
    requires op.Creating? && op.ip == i && (s.ops[t].Creating? ==> s.ops[t].ip == i)
    ensures Inv(n) && Kept(s, n)
  {
    OffStruct(s.dirs, n.dirs, i, kind, e);
    LocksSet(s, n, t, op);
    DotsStep(s, n, t, op);
    forall u | 0 <= u < |n.ops|
      ensures OpOk(n.dirs, n.ops[u])
    {
      if u != t { OpOff(s.dirs, n.dirs, i, kind, e, s.ops[u]); }
    }
    forall c | IsIno(s.dirs, c)
      ensures Slack(n, c) == Slack(s, c)
    {
      OwedSet(s.ops, t, op, c);
      OffRefs(s.dirs, n.dirs, i, kind, e, c);
    }
    KeptCounts(s, n);
  }

  lemma NoChild(s: Dirs, i: int)
    requires ChildrenOk(s) && IsIno(s, i) && (s.kind[i] == Free || (s.kind[i] == Dir && i !in s.joined))
    ensures forall p, k :: !Child(s, p, k, i)
  {
    forall p, k
      ensures !Child(s, p, k, i)
    {
      assert Child(s, p, k, i) ==> ChildOk(s, p, i);
    }
  }

  lemma CreateStartKeeps(s: State, n: State, t: nat, name: string, dir: bool, ip: nat)
    requires Inv(s) && DoCreateStart(s, n, t, name, dir, ip)
    ensures Inv(n) && Kept(s, n)
  {
    var dp := s.ops[t].dp;
    NoChild(s.dirs, ip);
    DotsThere(s, t, dp);
    NotDot(s.dirs, dp, name);
    OffIfFile(s.dirs, ip);
    assert forall d :: d in s.dirs.joined ==> IsDir(s.dirs, Par(s.dirs, d));
    FreeUnheld(s, t, ip);
    OffStep(s, n, t, Creating(dp, ip, name, dir, 0), ip, if dir then Dir else File, []);
  }

  lemma FreeUnheld(s: State, t: nat, i: int)
    requires OpsOk(s) && IsIno(s.dirs, i) && s.dirs.kind[i] == Free
    ensures Unlocked(s, t, i)
  {
    forall u | 0 <= u < |s.ops| && u != t
      ensures i !in Held(s.ops[u])
    {
      assert OpOk(s.dirs, s.ops[u]);
    }
  }

  lemma MkdirDotsKeeps(s: State, n: State, t: nat)
    requires Inv(s) && DoMkdirDots(s, n, t)
    ensures Inv(n) && Kept(s, n)
  {
    var op := s.ops[t];
    assert OpOk(s.dirs, op);
    HeldUnlocked(s, t, op.dp);
    HeldUnlocked(s, t, op.ip);
    NoChild(s.dirs, op.ip);
    assert forall k, c :: !Child(s.dirs, op.ip, k, c);
    forall d | d in s.dirs.joined
      ensures Par(s.dirs, d) != op.ip
    {
      Childless(s.dirs, op.ip, d);
    }
    NextDots(op.dp, op.ip, op.stage);
    OffStep(s, n, t, op.(stage := op.stage + 1), op.ip, Dir, Started(op.dp, op.ip, op.stage + 1));
  }

  lemma NextDots(dp: nat, ip: nat, stage: nat)
    requires 1 <= stage <= 2 && ip != 0
    ensures var e := Started(dp, ip, stage);
            Put(e, Hole(e), if stage == 1 then Entry(ip, DOT) else Entry(dp, DOTDOT)) == Started(dp, ip, stage + 1)
  {
  }

  /** No entry stands for an inode without links, and it is no joined directory. */
  lemma Unreferenced(s: State, i: int)
    requires Inv(s) && IsIno(s.dirs, i) && s.nlink[i] == 0
    ensures i !in s.dirs.joined && (forall p, k :: !Child(s.dirs, p, k, i)) && (forall d :: d in s.dirs.joined ==> Par(s.dirs, d) != i)
  {
    assert Slack(s, i) >= 0;
    forall p, k
      ensures !Names(s.dirs, p, k, i)
    {
      assert (p, k) !in Refs(s.dirs, i);
    }
    forall p, k
      ensures !Child(s.dirs, p, k, i)
    {
      assert !Names(s.dirs, p, k, i);
    }
    forall d | d in s.dirs.joined
      ensures Par(s.dirs, d) != i
    {
      assert !Names(s.dirs, d, 1, i);
    }
    if i in s.dirs.joined {
      JoinedReferred(s.dirs, i);
    }
  }

  lemma JoinedReferred(s: Dirs, d: int)
    requires Struct(s) && d in s.joined
    ensures |Refs(s, d)| >= 1
  {
    if d == ROOT {
      assert HasEntry(s, ROOT, 1);
      assert (ROOT as int, 1) in Refs(s, ROOT);
    } else {
      assert Named(s, d);
      var k :| Child(s, Par(s, d), k, d);
      assert (Par(s, d), k) in Refs(s, d);
    }
  }

  lemma ReclaimKeeps(s: State, n: State, i: nat)
    requires Inv(s) && DoReclaim(s, n, i)
    ensures Inv(n)
    ensures (forall k, c :: !Child(s.dirs, i, k, c)) ==> Kept(s, n)
  {
    Unreferenced(s, i);
    OffStruct(s.dirs, n.dirs, i, Free, []);
    forall u | 0 <= u < |n.ops|
      ensures OpOk(n.dirs, n.ops[u])
    {
      OpOff(s.dirs, n.dirs, i, Free, [], s.ops[u]);
    }
    forall c | IsIno(s.dirs, c)
      ensures Slack(n, c) >= Slack(s, c)
      ensures (forall k, x :: !Child(s.dirs, i, k, x)) ==> Slack(n, c) == Slack(s, c)
    {
      OffRefs(s.dirs, n.dirs, i, Free, [], c);
    }
    assert forall c :: IsIno(n.dirs, c) ==> IsIno(s.dirs, c);
    assert forall t, d :: Makes(s, t, d) ==> Makes(n, t, d);
  }

  /** Every step keeps the invariant. */
  lemma StepKeepsInv(s: State, n: State, step: Step)
    requires Inv(s) && Next(s, n, step)
    ensures Inv(n)
  {
    match step
    case LinkStart(t, ip) => LinkStartKeeps(s, n, t, ip);
    case LinkParent(t, dp) => MoveKeeps(s, n, t, LinkTo(s.ops[t].ip, dp));
    case LinkFail(t) => MoveKeeps(s, n, t, LinkBad(s.ops[t].ip));
    case LinkEnter(t, name) => LinkEnterKeeps(s, n, t, name);
    case LinkUndo(t) => DownKeeps(s, n, t);
    case FindParent(t, dp) => MoveKeeps(s, n, t, Parent(dp));
    case GiveUp(t) => MoveKeeps(s, n, t, Idle);
    case Unlink(t, name) => UnlinkKeeps(s, n, t, name);
    case UnlinkFinish(t) => DownKeeps(s, n, t);
    case CreateStart(t, name, dir, ip) => CreateStartKeeps(s, n, t, name, dir, ip);
    case MkdirCount(t) => MkdirCountKeeps(s, n, t);
    case MkdirDots(t) => MkdirDotsKeeps(s, n, t);
    case CreateEnter(t) => CreateEnterKeeps(s, n, t);
    case Reclaim(i) => ReclaimKeeps(s, n, i);
  }

  // ----- whole runs ---------------------------------------------------------

  /** What mkfs makes: a root directory holding `names`, one file each, at rest. */
  ghost predicate Init(s: State, names: seq<string>) {
    && |s.dirs.kind| == |s.dirs.ents| == |s.nlink| >= |names| + 2
    && s.dirs.joined == {ROOT as int} && s.dirs.kind[ROOT] == Dir && s.nlink[ROOT] == 1
    && s.dirs.ents[ROOT] == [Entry(ROOT, DOT), Entry(ROOT, DOTDOT)] + seq(|names|, k requires 0 <= k < |names| => Entry(k + 2, names[k]))
    && (forall k :: 0 <= k < |names| ==> !DotName(names[k]))
    && (forall i :: 2 <= i < |s.nlink| ==>
          s.dirs.ents[i] == [] && if i < |names| + 2 then s.dirs.kind[i] == File && s.nlink[i] == 1 else s.dirs.kind[i] == Free && s.nlink[i] == 0)
    && (forall t :: 0 <= t < |s.ops| ==> s.ops[t] == Idle)
  }

  lemma {:induction false} NothingOwed(ops: seq<Op>, i: int)
    requires forall t :: 0 <= t < |ops| ==> ops[t] == Idle
    ensures Owed(ops, i) == 0
  {
    if ops != [] {
      NothingOwed(ops[1..], i);
    }
  }

  lemma InitStruct(s: State, names: seq<string>)
    requires Init(s, names)
    ensures Struct(s.dirs)
  {
    assert Climbs(s.dirs, ROOT, 0);
  }

  lemma InitInv(s: State, names: seq<string>)
    requires Init(s, names)
    ensures Inv(s) && forall i :: IsIno(s.dirs, i) ==> Slack(s, i) == 0
  {
    InitStruct(s, names);
    forall i | IsIno(s.dirs, i)
      ensures Slack(s, i) == 0
    {
      NothingOwed(s.ops, i);
      var r: set<(int, int)> := if i < |names| + 2 then {(ROOT as int, i)} else {};
      if i == ROOT {
        assert Refs(s.dirs, i) == {(ROOT as int, 1)};
      } else {
        assert Refs(s.dirs, i) == r;
      }
    }
  }

  ghost predicate Run(ss: seq<State>) {
    |ss| > 0 && forall k :: 0 <= k < |ss| - 1 ==> Steps(ss[k], ss[k + 1])
  }

  ghost predicate Steps(s: State, n: State) {
    exists step :: Next(s, n, step)
  }

  lemma StepsKeepInv(s: State, n: State)
    requires Inv(s) && Steps(s, n)
    ensures Inv(n)
  {
    var step :| Next(s, n, step);
    StepKeepsInv(s, n, step);
  }

  /** The invariant holds in every state of every run from an mkfs image. */
  lemma {:induction false} RunInv(ss: seq<State>, names: seq<string>, k: nat)
    requires Run(ss) && Init(ss[0], names) && k < |ss|
    ensures Inv(ss[k])
  {
    if k == 0 {
      InitInv(ss[0], names);
    } else {
      RunInv(ss, names, k - 1);
      assert Steps(ss[k - 1], ss[k - 1 + 1]);
      StepsKeepInv(ss[k - 1], ss[k]);
    }
  }
}
