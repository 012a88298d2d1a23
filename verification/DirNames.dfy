/** What names find, before and after each step: in every run a name is in a directory
    at most once, and link, unlink and create change what one name finds and no more. */
module DirNames {
  import opened DirSpec
  import opened DirRuns

  /** What dirlookup finds, 0 when the name is not there. */
  function FindIn(ents: seq<Entry>, name: string): nat {
    var k := Lookup(ents, name);
    if k < |ents| then ents[k].inum else 0
  }

  function Finds(s: Dirs, d: int, name: string): nat {
    if IsDir(s, d) then FindIn(s.ents[d], name) else 0
  }

  /** No name is used twice. */
  predicate Once(ents: seq<Entry>) {
    forall j, k :: 0 <= j < k < |ents| && ents[j].inum != 0 && ents[k].inum != 0 ==> ents[j].name != ents[k].name
  }

  ghost predicate AllOnce(s: Dirs) {
    forall d :: IsDir(s, d) ==> Once(s.ents[d])
  }

  /** Then the entries say what is found. */
  lemma FoundIff(ents: seq<Entry>, name: string, i: nat)
    requires Once(ents) && i != 0
    ensures FindIn(ents, name) == i <==> Entry(i, name) in ents
  {
    var k := Lookup(ents, name);
    if Entry(i, name) in ents {
      var j :| 0 <= j < |ents| && ents[j] == Entry(i, name);
      assert Used(ents[j], name);
      assert k <= j;
    }
  }

  // ----- one directory ------------------------------------------------------

  lemma PutFinds(ents: seq<Entry>, i: nat, name: string, x: string)
    requires i != 0 && Lookup(ents, name) == |ents|
    ensures FindIn(Put(ents, Hole(ents), Entry(i, name)), x) == if x == name then i else FindIn(ents, x)
  {
    var h, r := Hole(ents), Put(ents, Hole(ents), Entry(i, name));
    forall k | 0 <= k < |ents| && k != h
      ensures Used(r[k], x) <==> Used(ents[k], x)
    {
    }
    assert Used(r[h], x) <==> x == name;
    var a, b := Lookup(ents, x), Lookup(r, x);
    if x == name {
      assert forall k :: 0 <= k < |ents| ==> !Used(ents[k], name);
      assert b == h;
    } else {
      assert h < |ents| ==> !Used(ents[h], x);
      assert a < |ents| ==> b == a;
    }
  }

  lemma PutOnce(ents: seq<Entry>, i: nat, name: string)
    requires Once(ents) && i != 0 && Lookup(ents, name) == |ents|
    ensures Once(Put(ents, Hole(ents), Entry(i, name)))
  {
    assert forall k :: 0 <= k < |ents| ==> !Used(ents[k], name);
  }

  lemma ClearFinds(ents: seq<Entry>, name: string, x: string)
    requires Once(ents) && Lookup(ents, name) < |ents|
    ensures FindIn(ents[Lookup(ents, name) := Entry(0, "")], x) == if x == name then 0 else FindIn(ents, x)
  {
    var h := Lookup(ents, name);
    var r := ents[h := Entry(0, "")];
    forall k | 0 <= k < |ents| && k != h
      ensures Used(r[k], x) <==> Used(ents[k], x)
    {
    }
    assert !Used(r[h], x) && Used(ents[h], name);
    var a, b := Lookup(ents, x), Lookup(r, x);
    if x == name {
      assert forall k :: 0 <= k < |ents| && k != h ==> !Used(ents[k], name);
      assert b == |r|;
    } else {
      assert !Used(ents[h], x);
      assert a < |ents| ==> b == a;
    }
  }

  // ----- the steps ----------------------------------------------------------

  /** From s to n the name finds i in directory d; every other name in every directory
      finds what it did. */
  ghost predicate OneName(s: Dirs, n: Dirs, d: int, name: string, i: nat) {
    forall e, x :: Finds(n, e, x) == if e == d && x == name then i else Finds(s, e, x)
  }

  /** Nothing is found that was not, and nothing else. */
  ghost predicate SameNames(s: Dirs, n: Dirs) {
    forall e, x :: Finds(n, e, x) == Finds(s, e, x)
  }

  /** unlink: the name is gone, and the inode it found is the one that loses a link. */
  lemma UnlinkRemoves(s: State, n: State, t: nat, name: string)
    requires Inv(s) && AllOnce(s.dirs) && DoUnlink(s, n, t, name)
    ensures OneName(s.dirs, n.dirs, s.ops[t].dp, name, 0) && Finds(s.dirs, s.ops[t].dp, name) != 0
    ensures n.ops[t] == UnlinkDown(Finds(s.dirs, s.ops[t].dp, name)) && AllOnce(n.dirs)
  {
    var dp := s.ops[t].dp;
    forall e, x
      ensures Finds(n.dirs, e, x) == if e == dp && x == name then 0 else Finds(s.dirs, e, x)
    {
      if e == dp {
        ClearFinds(s.dirs.ents[dp], name, x);
      }
    }
    forall d | IsDir(n.dirs, d)
      ensures Once(n.dirs.ents[d])
    {
      assert IsDir(s.dirs, d) && Once(s.dirs.ents[d]);
    }
  }

  /** One name entered, in a directory where it was not. */
  lemma EnterNames(s: Dirs, n: Dirs, dp: nat, ip: nat, name: string)
    requires IsDir(s, dp) && ip != 0 && Lookup(s.ents[dp], name) == |s.ents[dp]|
    requires n.kind == s.kind && n.ents == WithEntry(s, dp, ip, name)
    ensures OneName(s, n, dp, name, ip) && (AllOnce(s) ==> AllOnce(n))
  {
    forall e, x
      ensures Finds(n, e, x) == if e == dp && x == name then ip else Finds(s, e, x)
    {
      if e == dp {
        PutFinds(s.ents[dp], ip, name, x);
      }
    }
    if AllOnce(s) {
      forall d | IsDir(n, d)
        ensures Once(n.ents[d])
      {
        assert IsDir(s, d) && Once(s.ents[d]);
        if d == dp {
          PutOnce(s.ents[dp], ip, name);
        }
      }
    }
  }

  /** link: the new name finds the old inode. */
  lemma LinkEnters(s: State, n: State, t: nat, name: string)
    requires Inv(s) && DoLinkEnter(s, n, t, name)
    ensures OneName(s.dirs, n.dirs, s.ops[t].dp, name, s.ops[t].ip) && Finds(s.dirs, s.ops[t].dp, name) == 0
    ensures AllOnce(s.dirs) ==> AllOnce(n.dirs)
  {
    assert OpOk(s.dirs, s.ops[t]);
    EnterNames(s.dirs, n.dirs, s.ops[t].dp, s.ops[t].ip, name);
  }

  /** create, last step: the name finds the new inode. */
  lemma CreateEnters(s: State, n: State, t: nat)
    requires Inv(s) && DoCreateEnter(s, n, t)
    ensures var op := s.ops[t]; OneName(s.dirs, n.dirs, op.dp, op.name, op.ip) && Finds(s.dirs, op.dp, op.name) == 0
    ensures AllOnce(s.dirs) ==> AllOnce(n.dirs)
  {
    var op := s.ops[t];
    assert OpOk(s.dirs, op);
    EnterNames(s.dirs, n.dirs, op.dp, op.ip, op.name);
  }

  /** mkdir: "." finds the new directory, then ".." the parent. */
  lemma DotsEnter(s: State, n: State, t: nat)
    requires Inv(s) && DoMkdirDots(s, n, t)
    ensures var op := s.ops[t];
            if op.stage == 1 then OneName(s.dirs, n.dirs, op.ip, DOT, op.ip) else OneName(s.dirs, n.dirs, op.ip, DOTDOT, op.dp)
    ensures AllOnce(s.dirs) ==> AllOnce(n.dirs)
  {
    var op := s.ops[t];
    assert OpOk(s.dirs, op);
    assert IsDir(s.dirs, op.dp) && op.dp != 0;
    var e := s.dirs.ents[op.ip];
    assert e == Started(op.dp, op.ip, op.stage);
    if op.stage == 1 {
      assert Lookup(e, DOT) == |e|;
      EnterNames(s.dirs, n.dirs, op.ip, op.ip, DOT);
    } else {
      assert e == [Entry(op.ip, DOT)];
      assert !Used(e[0], DOTDOT);
      assert Lookup(e, DOTDOT) == |e|;
      EnterNames(s.dirs, n.dirs, op.ip, op.dp, DOTDOT);
    }
  }

  /** create, first step: the inode is new, of the kind asked for, and empty; no name
      changes what it finds. */
  lemma CreateAllocates(s: State, n: State, t: nat, name: string, dir: bool, ip: nat)
    requires Inv(s) && DoCreateStart(s, n, t, name, dir, ip)
    ensures SameNames(s.dirs, n.dirs) && s.dirs.kind[ip] == Free && n.dirs.kind[ip] == (if dir then Dir else File) && n.dirs.ents[ip] == []
    ensures AllOnce(s.dirs) ==> AllOnce(n.dirs)
  {
    forall e, x
      ensures Finds(n.dirs, e, x) == Finds(s.dirs, e, x)
    {
    }
    if AllOnce(s.dirs) {
      forall d | IsDir(n.dirs, d)
        ensures Once(n.dirs.ents[d])
      {
        assert d != ip ==> IsDir(s.dirs, d) && Once(s.dirs.ents[d]);
      }
    }
  }

  /** iput frees an inode: names in it are gone, and no other changes. */
  lemma ReclaimFrees(s: State, n: State, i: nat)
    requires Inv(s) && DoReclaim(s, n, i)
    ensures forall e, x :: Finds(n.dirs, e, x) == if e == i then 0 else Finds(s.dirs, e, x)
    ensures AllOnce(s.dirs) ==> AllOnce(n.dirs)
  {
    if AllOnce(s.dirs) {
      forall d | IsDir(n.dirs, d)
        ensures Once(n.dirs.ents[d])
      {
        assert IsDir(s.dirs, d) && Once(s.dirs.ents[d]);
      }
    }
  }

  lemma StepOnce(s: State, n: State, step: Step)
    requires Inv(s) && AllOnce(s.dirs) && Next(s, n, step)
    ensures AllOnce(n.dirs)
  {
    match step
    case LinkEnter(t, name) => LinkEnters(s, n, t, name);
    case Unlink(t, name) => UnlinkRemoves(s, n, t, name);
    case CreateStart(t, name, dir, ip) => CreateAllocates(s, n, t, name, dir, ip);
    case MkdirDots(t) => DotsEnter(s, n, t);
    case CreateEnter(t) => CreateEnters(s, n, t);
    case Reclaim(i) => ReclaimFrees(s, n, i);
    case _ =>
  }

  // ----- whole runs ---------------------------------------------------------

  /** In every state of every run from an image whose files have different names, a
      name is in a directory at most once. */
  lemma {:induction false} NamesOnce(ss: seq<State>, names: seq<string>, k: nat)
    requires Run(ss) && Init(ss[0], names) && k < |ss| && forall a, b :: 0 <= a < b < |names| ==> names[a] != names[b]
    ensures Inv(ss[k]) && AllOnce(ss[k].dirs)
  {
    RunInv(ss, names, k);
    if k == 0 {
      InitOnce(ss[0], names);
    } else {
      NamesOnce(ss, names, k - 1);
      assert Steps(ss[k - 1], ss[k - 1 + 1]);
      var step :| Next(ss[k - 1], ss[k], step);
      StepOnce(ss[k - 1], ss[k], step);
    }
  }

  lemma InitOnce(s: State, names: seq<string>)
    requires Init(s, names) && forall a, b :: 0 <= a < b < |names| ==> names[a] != names[b]
    ensures AllOnce(s.dirs)
  {
    forall d | IsDir(s.dirs, d)
      ensures Once(s.dirs.ents[d])
    {
      assert d == ROOT;
      RootOnce(s.dirs.ents[ROOT], names);
    }
  }

  lemma RootOnce(ents: seq<Entry>, names: seq<string>)
    requires ents == [Entry(ROOT, DOT), Entry(ROOT, DOTDOT)] + seq(|names|, k requires 0 <= k < |names| => Entry(k + 2, names[k]))
    requires (forall a, b :: 0 <= a < b < |names| ==> names[a] != names[b]) && forall a :: 0 <= a < |names| ==> !DotName(names[a])
    ensures Once(ents)
  {
    assert DOT != DOTDOT;
    forall j, k | 0 <= j < k < |ents|
      ensures ents[j].name != ents[k].name
    {
      assert k >= 2 ==> ents[k].name == names[k - 2];
      assert j >= 2 ==> ents[j].name == names[j - 2];
    }
  }

  // ----- whole calls --------------------------------------------------------

  ghost predicate AtRest(s: State) {
    forall t :: 0 <= t < |s.ops| ==> s.ops[t] == Idle
  }

  lemma RunOf(ss: seq<State>, steps: seq<Step>)
    requires |ss| == |steps| + 1 && forall k :: 0 <= k < |steps| ==> Next(ss[k], ss[k + 1], steps[k])
    ensures Run(ss)
  {
    forall k | 0 <= k < |ss| - 1
      ensures Steps(ss[k], ss[k + 1])
    {
      assert Next(ss[k], ss[k + 1], steps[k]);
    }
  }

  /** link up to its parent directory. */
  lemma LinkBegins(s: State, t: nat, ip: nat, dp: nat) returns (a: State, b: State)
    requires Inv(s) && AtRest(s) && t < |s.ops| && IsFile(s.dirs, ip) && IsDir(s.dirs, dp)
    ensures Next(s, a, LinkStart(t, ip)) && Next(a, b, LinkParent(t, dp))
    ensures ip < |s.nlink| && b == State(s.dirs, s.nlink[ip := s.nlink[ip] + 1], s.ops[t := LinkTo(ip, dp)])
  {
    a := State(s.dirs, s.nlink[ip := s.nlink[ip] + 1], s.ops[t := LinkUp(ip)]);
    b := a.(ops := a.ops[t := LinkTo(ip, dp)]);
    assert b.ops == s.ops[t := LinkTo(ip, dp)];
  }

  lemma LinkFails(s: State, b: State, t: nat, ip: nat, dp: nat) returns (c: State, d: State)
    requires Inv(s) && AtRest(s) && t < |s.ops| && IsFile(s.dirs, ip) && ip < |s.nlink|
    requires b == State(s.dirs, s.nlink[ip := s.nlink[ip] + 1], s.ops[t := LinkTo(ip, dp)])
    ensures Next(b, c, LinkFail(t)) && Next(c, d, LinkUndo(t)) && d == s
  {
    c := b.(ops := b.ops[t := LinkBad(ip)]);
    d := State(s.dirs, c.nlink[ip := c.nlink[ip] - 1], c.ops[t := Idle]);
    assert d.nlink == s.nlink && d.ops == s.ops;
  }

  lemma LinkWorks(s: State, b: State, t: nat, ip: nat, dp: nat, name: string) returns (c: State)
    requires Inv(s) && AtRest(s) && t < |s.ops| && IsFile(s.dirs, ip) && IsDir(s.dirs, dp) && Finds(s.dirs, dp, name) == 0 && ip < |s.nlink|
    requires b == State(s.dirs, s.nlink[ip := s.nlink[ip] + 1], s.ops[t := LinkTo(ip, dp)])
    ensures Next(b, c, LinkEnter(t, name)) && OneName(s.dirs, c.dirs, dp, name, ip) && c.nlink == b.nlink && c.ops == s.ops
  {
    c := State(s.dirs.(ents := WithEntry(s.dirs, dp, ip, name)), b.nlink, b.ops[t := Idle]);
    EnterNames(s.dirs, c.dirs, dp, ip, name);
    assert c.ops == s.ops;
  }

  /** link with nothing in between: a new name for the file and one link more; where the
      name is taken, everything as it was. */
  lemma LinkAlone(s: State, t: nat, ip: nat, dp: nat, name: string) returns (ss: seq<State>)
    requires Inv(s) && AtRest(s) && t < |s.ops| && IsFile(s.dirs, ip) && IsDir(s.dirs, dp)
    ensures Run(ss) && ss[0] == s && ip < |s.nlink|
    ensures var e := ss[|ss| - 1];
            if Finds(s.dirs, dp, name) == 0
            then OneName(s.dirs, e.dirs, dp, name, ip) && e.nlink == s.nlink[ip := s.nlink[ip] + 1] && e.ops == s.ops
            else e == s
  {
    var a, b := LinkBegins(s, t, ip, dp);
    if Finds(s.dirs, dp, name) == 0 {
      var c := LinkWorks(s, b, t, ip, dp, name);
      ss := [s, a, b, c];
      RunOf(ss, [LinkStart(t, ip), LinkParent(t, dp), LinkEnter(t, name)]);
    } else {
      var c, d := LinkFails(s, b, t, ip, dp);
      ss := [s, a, b, c, d];
      RunOf(ss, [LinkStart(t, ip), LinkParent(t, dp), LinkFail(t), LinkUndo(t)]);
    }
  }

  lemma UnlinkWorks(s: State, t: nat, dp: nat, name: string, ip: nat) returns (b: State)
    requires Inv(s) && AllOnce(s.dirs) && t < |s.ops| && s.ops[t] == Parent(dp) && IsDir(s.dirs, dp) && !DotName(name)
    requires ip == Finds(s.dirs, dp, name) != 0 && (forall u :: 0 <= u < |s.ops| && u != t ==> s.ops[u] == Idle)
    requires IsDir(s.dirs, ip) ==> EmptyDir(s.dirs.ents[ip])
    ensures Next(s, b, Unlink(t, name)) && OneName(s.dirs, b.dirs, dp, name, 0) && b.ops == s.ops[t := UnlinkDown(ip)]
    ensures IsIno(s.dirs, ip) && ip != dp && |s.nlink| == |s.dirs.kind| && b.nlink == s.nlink[dp := s.nlink[dp] - One(IsDir(s.dirs, ip))]
  {
    UnlinkFinds(s, dp, name);
    var off := Lookup(s.dirs.ents[dp], name);
    var dir := s.dirs.kind[ip] == Dir;
    b := State(Dirs(s.dirs.kind, s.dirs.ents[dp := s.dirs.ents[dp][off := Entry(0, "")]],
                    if dir then s.dirs.joined - {ip as int} else s.dirs.joined),
               if dir then s.nlink[dp := s.nlink[dp] - 1] else s.nlink, s.ops[t := UnlinkDown(ip)]);
    AloneUnlocked(s, t);
    assert DoUnlink(s, b, t, name);
    UnlinkRemoves(s, b, t, name);
  }

  lemma AloneUnlocked(s: State, t: nat)
    requires forall u :: 0 <= u < |s.ops| && u != t ==> s.ops[u] == Idle
    ensures forall i :: Unlocked(s, t, i)
  {
  }

  /** unlink with nothing in between: the name is gone and what it found has one link
      less, and for a directory so has the parent. */
  lemma UnlinkAlone(s: State, t: nat, dp: nat, name: string, ip: nat) returns (ss: seq<State>)
    requires Inv(s) && AllOnce(s.dirs) && AtRest(s) && t < |s.ops| && IsDir(s.dirs, dp) && !DotName(name)
    requires ip == Finds(s.dirs, dp, name) != 0 && (IsDir(s.dirs, ip) ==> EmptyDir(s.dirs.ents[ip]))
    ensures Run(ss) && ss[0] == s
    ensures var e := ss[|ss| - 1];
            && OneName(s.dirs, e.dirs, dp, name, 0) && e.ops == s.ops && IsIno(s.dirs, ip) && ip != dp && |s.nlink| == |s.dirs.kind|
            && e.nlink == s.nlink[dp := s.nlink[dp] - One(IsDir(s.dirs, ip))][ip := s.nlink[ip] - 1]
  {
    var a := s.(ops := s.ops[t := Parent(dp)]);
    MoveKeeps(s, a, t, Parent(dp));
    var b := UnlinkWorks(a, t, dp, name, ip);
    var c := State(b.dirs, b.nlink[ip := b.nlink[ip] - 1], b.ops[t := Idle]);
    assert c.ops == s.ops;
    ss := [s, a, b, c];
    RunOf(ss, [FindParent(t, dp), Unlink(t, name), UnlinkFinish(t)]);
  }
}
