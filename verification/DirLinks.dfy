/** What the invariant means: link counts against the entries of linked directories,
    the directory tree, and the check on the parent that link and create leave out. */
module DirLinks {
  import opened DirSpec
  import opened DirTree
  import opened DirRuns

  // ----- linked directories -------------------------------------------------

  lemma PathJoined(s: Dirs, d: int, n: nat)
    requires Struct(s) && IsDir(s, d) && Path(s, d, n)
    ensures d in s.joined
  {
    if n > 0 {
      var p, k :| Child(s, p, k, d) && Path(s, p, n - 1);
      assert ChildOk(s, p, d);
    }
  }

  lemma LinkedJoined(s: Dirs, d: int)
    requires Struct(s) && Linked(s, d)
    ensures d in s.joined
  {
    var n: nat :| Path(s, d, n);
    PathJoined(s, d, n);
  }

  lemma LinkedNamesNames(s: Dirs, d: int, k: int, i: int)
    requires Struct(s) && LinkedNames(s, d, k, i)
    ensures Names(s, d, k, i)
  {
    LinkedJoined(s, d);
    assert EntryOk(s, d, k);
  }

  /** The entries in linked directories are among those that stand for links. */
  lemma LinkedRefsRefs(s: Dirs, i: int)
    requires Struct(s)
    ensures LinkedRefs(s, i) <= Refs(s, i) && |LinkedRefs(s, i)| <= |Refs(s, i)|
  {
    forall x | x in LinkedRefs(s, i)
      ensures x in Refs(s, i)
    {
      assert x == (x.0, x.1);
      LinkedNamesNames(s, x.0, x.1, i);
    }
    assert Refs(s, i) == LinkedRefs(s, i) + (Refs(s, i) - LinkedRefs(s, i));
  }

  function Up(s: Dirs, d: int, n: nat): int
    decreases n
  {
    if n == 0 then d else Up(s, Par(s, d), n - 1)
  }

  /** A path of n names down to d is undone by going up n times. */
  lemma {:induction false} UpPath(s: Dirs, d: int, n: nat)
    requires Struct(s) && IsDir(s, d) && Path(s, d, n)
    ensures Up(s, d, n) == ROOT
    decreases n
  {
    if n > 0 {
      var p, k :| Child(s, p, k, d) && Path(s, p, n - 1);
      assert ChildOk(s, p, d);
      UpPath(s, p, n - 1);
    }
  }

  lemma ParentLinked(s: Dirs, d: int)
    requires Struct(s) && Linked(s, d) && d != ROOT
    ensures Linked(s, Par(s, d)) && exists k :: Child(s, Par(s, d), k, d)
  {
    var n: nat :| Path(s, d, n);
    var p, k :| Child(s, p, k, d) && Path(s, p, n - 1);
    assert ChildOk(s, p, d);
  }

  // ----- every run ----------------------------------------------------------

  /** In every state of every run no count is below the number of entries other than
      "." that name the inode in linked directories. */
  lemma LinkCounts(ss: seq<State>, names: seq<string>, k: nat, i: int)
    requires Run(ss) && Init(ss[0], names) && k < |ss| && IsIno(ss[k].dirs, i)
    ensures i < |ss[k].nlink| && ss[k].nlink[i] >= |LinkedRefs(ss[k].dirs, i)| + Owed(ss[k].ops, i)
  {
    RunInv(ss, names, k);
    LinkedRefsRefs(ss[k].dirs, i);
    assert Slack(ss[k], i) >= 0;
  }

  /** In every state of every run the linked directories form a tree: exactly one
      entry names each of them but the root, in the directory its ".." names, which is
      linked too, and going up ends at the root. */
  lemma DirectoryTree(ss: seq<State>, names: seq<string>, k: nat, d: int)
    requires Run(ss) && Init(ss[0], names) && k < |ss| && Linked(ss[k].dirs, d)
    ensures exists n: nat :: Up(ss[k].dirs, d, n) == ROOT
    ensures d == ROOT ==> forall p, j :: !Child(ss[k].dirs, p, j, d)
    ensures d != ROOT ==> Linked(ss[k].dirs, Par(ss[k].dirs, d)) && exists j :: Child(ss[k].dirs, Par(ss[k].dirs, d), j, d)
    ensures forall p, j, q, h :: Child(ss[k].dirs, p, j, d) && Child(ss[k].dirs, q, h, d) ==> p == q && j == h
  {
    RunInv(ss, names, k);
    var s := ss[k].dirs;
    var n: nat :| Path(s, d, n);
    UpPath(s, d, n);
    if d != ROOT {
      ParentLinked(s, d);
    }
    forall p, j | Child(s, p, j, d)
      ensures d != ROOT && p == Par(s, d)
    {
      assert ChildOk(s, p, d);
    }
  }

  // ----- exact counts -------------------------------------------------------

  /** Names are in joined directories only. */
  ghost predicate Attached(s: Dirs) {
    forall p, k, i :: Child(s, p, k, i) ==> p in s.joined
  }

  ghost predicate Tidy(s: State) {
    && |s.nlink| == |s.dirs.kind| && Attached(s.dirs)
    && forall i :: IsIno(s.dirs, i) ==> Slack(s, i) == 0
  }

  lemma {:induction false} AttachedPath(s: Dirs, d: int, n: nat) returns (m: nat)
    requires Struct(s) && Attached(s) && d in s.joined && Climbs(s, d, n)
    ensures Path(s, d, m)
    decreases n
  {
    if d == ROOT {
      m := 0;
    } else {
      assert Named(s, d);
      var p := Par(s, d);
      var k :| Child(s, p, k, d);
      var h := AttachedPath(s, p, n - 1);
      m := h + 1;
      assert Child(s, p, k, d) && Path(s, p, m - 1);
    }
  }

  lemma AttachedLinked(s: Dirs, d: int)
    requires Struct(s) && Attached(s) && d in s.joined
    ensures Linked(s, d)
  {
    assert Ends(s, d);
    var n: nat :| Climbs(s, d, n);
    var m := AttachedPath(s, d, n);
    assert HasEntry(s, d, 1);
  }

  lemma TidyNames(s: Dirs, d: int, k: int, i: int)
    requires Struct(s) && Attached(s) && i > 0 && Names(s, d, k, i)
    ensures LinkedNames(s, d, k, i)
  {
    assert k >= 2 ==> Child(s, d, k, i);
    AttachedLinked(s, d);
    assert EntryOk(s, d, k);
  }

  lemma TidyExact(s: State)
    requires Inv(s) && Tidy(s)
    ensures Exact(s)
  {
    forall i | IsIno(s.dirs, i)
      ensures s.nlink[i] == |LinkedRefs(s.dirs, i)| + Owed(s.ops, i)
    {
      LinkedRefsRefs(s.dirs, i);
      forall x | x in Refs(s.dirs, i)
        ensures x in LinkedRefs(s.dirs, i)
      {
        assert x == (x.0, x.1);
        TidyNames(s.dirs, x.0, x.1, i);
      }
      assert LinkedRefs(s.dirs, i) == Refs(s.dirs, i);
      assert Slack(s, i) == 0;
    }
  }

  lemma SameSize(a: set<(int, int)>, b: set<(int, int)>)
    requires a <= b && |a| >= |b|
    ensures a == b
  {
    assert b == a + (b - a);
    assert |b - a| == 0;
  }

  lemma ExactRefs(s: State, i: int)
    requires Inv(s) && Exact(s) && IsIno(s.dirs, i)
    ensures LinkedRefs(s.dirs, i) == Refs(s.dirs, i) && Slack(s, i) == 0
  {
    LinkedRefsRefs(s.dirs, i);
    assert Slack(s, i) >= 0;
    SameSize(LinkedRefs(s.dirs, i), Refs(s.dirs, i));
  }

  /** The counts are exact exactly when every name is in a joined directory and no
      count has anything over. */
  lemma ExactTidy(s: State)
    requires Inv(s) && Exact(s)
    ensures Tidy(s)
  {
    forall i | IsIno(s.dirs, i)
      ensures Slack(s, i) == 0
    {
      ExactRefs(s, i);
    }
    forall p, k, i | Child(s.dirs, p, k, i)
      ensures p in s.dirs.joined
    {
      assert ChildOk(s.dirs, p, i);
      ExactRefs(s, i);
      assert (p, k) in Refs(s.dirs, i);
      LinkedJoined(s.dirs, p);
    }
  }

  /** With exact counts a directory is linked exactly when its count is more than the
      links to it in flight. */
  lemma LinkedIff(s: State, d: int)
    requires Inv(s) && Exact(s) && IsDir(s.dirs, d)
    ensures d < |s.nlink| && (Linked(s.dirs, d) <==> s.nlink[d] > Owed(s.ops, d))
  {
    ExactTidy(s);
    ExactRefs(s, d);
    if Linked(s.dirs, d) {
      LinkedJoined(s.dirs, d);
      JoinedReferred(s.dirs, d);
    } else if s.nlink[d] > Owed(s.ops, d) {
      assert |Refs(s.dirs, d)| > 0;
      var x :| x in Refs(s.dirs, d);
      assert x == (x.0, x.1);
      RefJoined(s.dirs, x.0, x.1, d);
      AttachedLinked(s.dirs, d);
    }
  }

  /** What an entry stands for is joined, if it is a directory. */
  lemma RefJoined(s: Dirs, p: int, k: int, d: int)
    requires Struct(s) && Attached(s) && IsDir(s, d) && Names(s, p, k, d)
    ensures d in s.joined
  {
    if k >= 2 {
      assert Child(s, p, k, d);
      assert ChildOk(s, p, d);
    } else if p != ROOT {
      assert Named(s, p);
    }
  }

  lemma {:induction false} OwedNone(ops: seq<Op>, i: int)
    requires forall u :: 0 <= u < |ops| ==> !Owes(ops[u], i)
    ensures Owed(ops, i) == 0
  {
    if ops != [] {
      OwedNone(ops[1..], i);
    }
  }

  /** Links to a directory are in flight only while it is locked. */
  lemma OwedHeld(s: State, t: nat, d: int)
    requires Inv(s) && t < |s.ops| && IsDir(s.dirs, d) && Unlocked(s, t, d)
    ensures Owed(s.ops, d) == One(Owes(s.ops[t], d))
  {
    var rest := s.ops[t := Idle];
    forall u | 0 <= u < |rest|
      ensures !Owes(rest[u], d)
    {
      if u != t {
        assert OpOk(s.dirs, s.ops[u]);
        assert d !in Held(s.ops[u]);
      }
    }
    OwedNone(rest, d);
    OwedSet(s.ops, t, Idle, d);
  }

  // ----- the missing check --------------------------------------------------

  /** Entering a name keeps exact counts exactly in a linked directory. */
  lemma EnterExactIff(s: State, n: State, dp: int, k: nat, i: nat, name: string)
    requires Inv(s) && Exact(s) && Inv(n) && Kept(s, n) && Entered(s.dirs, n.dirs, dp, k, i, name)
    ensures Exact(n) <==> Linked(s.dirs, dp)
  {
    ExactTidy(s);
    ExactIff(n);
    if Linked(s.dirs, dp) {
      LinkedJoined(s.dirs, dp);
      EnterTidy(s, n, dp, k, i, name);
    } else {
      if dp in s.dirs.joined {
        AttachedLinked(s.dirs, dp);
      }
      EnterLoose(s.dirs, n.dirs, dp, k, i, name);
    }
  }

  lemma ExactIff(s: State)
    requires Inv(s)
    ensures Exact(s) <==> Tidy(s)
  {
    if Exact(s) {
      ExactTidy(s);
    } else if Tidy(s) {
      TidyExact(s);
    }
  }

  lemma EnterLoose(s: Dirs, n: Dirs, dp: int, k: nat, i: nat, name: string)
    requires DirsOk(s) && JoinedOk(s) && Entered(s, n, dp, k, i, name) && dp !in s.joined
    ensures !Attached(n)
  {
    EnteredChild(s, n, dp, k, i, name, dp, k, i);
    assert Child(n, dp, k, i) && dp !in n.joined;
  }

  lemma EnterTidy(s: State, n: State, dp: int, k: nat, i: nat, name: string)
    requires Inv(s) && Tidy(s) && Kept(s, n) && Entered(s.dirs, n.dirs, dp, k, i, name) && dp in s.dirs.joined
    ensures Tidy(n)
  {
    KeptSlack(s, n);
    forall p, j, c | Child(n.dirs, p, j, c)
      ensures p in n.dirs.joined
    {
      EnteredChild(s.dirs, n.dirs, dp, k, i, name, p, j, c);
    }
  }

  lemma KeptSlack(s: State, n: State)
    requires Tidy(s) && Kept(s, n)
    ensures |n.nlink| == |n.dirs.kind| && forall i :: IsIno(n.dirs, i) ==> Slack(n, i) == 0
  {
    forall i | IsIno(n.dirs, i)
      ensures Slack(n, i) == 0
    {
      assert IsIno(s.dirs, i);
    }
  }

  /** link leaves exact counts exactly when its parent directory still has a link, a
      test the code could make once it has locked the directory and does not. */
  lemma LinkNeedsLinkedParent(s: State, n: State, t: nat, name: string)
    requires Inv(s) && Exact(s) && DoLinkEnter(s, n, t, name)
    ensures s.ops[t].dp < |s.nlink| && (Linked(s.dirs, s.ops[t].dp) <==> s.nlink[s.ops[t].dp] > 0)
    ensures Exact(n) <==> s.nlink[s.ops[t].dp] > 0
  {
    var dp := s.ops[t].dp;
    LinkEnterKeeps(s, n, t, name);
    LinkEnters(s, n, t, name);
    EnterExactIff(s, n, dp, Hole(s.dirs.ents[dp]), s.ops[t].ip, name);
    LinkedIff(s, dp);
    OwedHeld(s, t, dp);
  }

  /** The same for the end of create, of a file and of a directory, whose ".." has
      already been counted. */
  lemma CreateNeedsLinkedParent(s: State, n: State, t: nat)
    requires Inv(s) && Exact(s) && DoCreateEnter(s, n, t)
    ensures s.ops[t].dp < |s.nlink|
    ensures Exact(n) <==> s.nlink[s.ops[t].dp] > One(s.ops[t].dir)
  {
    var op := s.ops[t];
    CreateEnterKeeps(s, n, t);
    CreateEnters(s, n, t);
    EnterExactIff(s, n, op.dp, Hole(s.dirs.ents[op.dp]), op.ip, op.name);
    LinkedIff(s, op.dp);
    HeldUnlocked(s, t, op.dp);
    OwedHeld(s, t, op.dp);
  }

  // ----- a whole call of create ---------------------------------------------

  /** Thread t is in create, with parent dp whose count was c. */
  ghost predicate InCreate(s: State, t: nat, dp: nat, dir: bool, c: int) {
    && t < |s.ops| && s.ops[t].Creating? && s.ops[t].dp == dp && s.ops[t].dir == dir && dp < |s.nlink|
    && s.nlink[dp] == c + One(dir && s.ops[t].stage >= 1)
  }

  ghost function Thread(s: State, step: Step): int {
    if step.Reclaim? then -1 else step.t
  }

  /** Nobody else changes the count of a locked directory. */
  lemma HeldSteady(s: State, n: State, step: Step, t: nat, i: nat)
    requires Inv(s) && Next(s, n, step) && t < |s.ops| && i in Held(s.ops[t]) && Thread(s, step) != t
    ensures |n.ops| == |s.ops| && n.ops[t] == s.ops[t] && i < |s.nlink| == |n.nlink| && n.nlink[i] == s.nlink[i]
  {
    assert OpOk(s.dirs, s.ops[t]);
    if !step.Reclaim? {
      var u := step.t;
      assert OpOk(s.dirs, s.ops[u]);
      assert Held(s.ops[u]) !! Held(s.ops[t]);
    }
  }

  lemma OwnStep(s: State, n: State, step: Step, t: nat, dp: nat, dir: bool, c: int)
    requires Inv(s) && Next(s, n, step) && InCreate(s, t, dp, dir, c) && Thread(s, step) == t && n.ops[t].Creating?
    ensures InCreate(n, t, dp, dir, c)
  {
    assert OpOk(s.dirs, s.ops[t]);
  }

  lemma CreateStep(s: State, n: State, t: nat, dp: nat, dir: bool, c: int)
    requires Inv(s) && Steps(s, n) && InCreate(s, t, dp, dir, c) && t < |n.ops| && n.ops[t].Creating?
    ensures InCreate(n, t, dp, dir, c)
  {
    var step :| Next(s, n, step);
    if Thread(s, step) == t {
      OwnStep(s, n, step, t, dp, dir, c);
    } else {
      HeldSteady(s, n, step, t, dp);
    }
  }

  /** create as a whole, whatever the other threads do meanwhile: it starts with the
      step from ss[0] to ss[1] and ends with the one from ss[m - 1] to ss[m].  If the
      counts are exact when its entry goes in, they are exact afterwards exactly when
      the parent had a link at the start. */
  lemma CreateCall(ss: seq<State>, t: nat, name: string, dir: bool, ip: nat, m: nat)
    requires Run(ss) && Inv(ss[0]) && 2 <= m < |ss|
    requires DoCreateStart(ss[0], ss[1], t, name, dir, ip) && DoCreateEnter(ss[m - 1], ss[m], t)
    requires forall k :: 1 <= k < m ==> t < |ss[k].ops| && ss[k].ops[t].Creating?
    requires Exact(ss[m - 1])
    ensures ss[0].ops[t].dp < |ss[0].nlink|
    ensures Exact(ss[m]) <==> ss[0].nlink[ss[0].ops[t].dp] > 0
  {
    var dp := ss[0].ops[t].dp;
    var c := ss[0].nlink[dp];
    CreateStartKeeps(ss[0], ss[1], t, name, dir, ip);
    CreateSteps(ss, t, dp, dir, c, m - 1);
    CreateNeedsLinkedParent(ss[m - 1], ss[m], t);
  }

  lemma {:induction false} CreateSteps(ss: seq<State>, t: nat, dp: nat, dir: bool, c: int, k: nat)
    requires Run(ss) && 1 <= k < |ss| && Inv(ss[1]) && InCreate(ss[1], t, dp, dir, c)
    requires forall j :: 1 <= j <= k ==> t < |ss[j].ops| && ss[j].ops[t].Creating?
    ensures Inv(ss[k]) && InCreate(ss[k], t, dp, dir, c)
  {
    if k > 1 {
      CreateSteps(ss, t, dp, dir, c, k - 1);
      assert Steps(ss[k - 1], ss[k - 1 + 1]);
      StepsKeepInv(ss[k - 1], ss[k]);
      CreateStep(ss[k - 1], ss[k], t, dp, dir, c);
    }
  }

  // ----- runs that make the check -------------------------------------------

  /** The step does not enter a name in a directory without links. */
  ghost predicate Checks(s: State, step: Step) {
    match step
    case LinkEnter(t, name) => t < |s.ops| && s.ops[t].LinkTo? && s.ops[t].dp < |s.nlink| && s.nlink[s.ops[t].dp] > 0
    case CreateStart(t, name, dir, ip) => t < |s.ops| && s.ops[t].Parent? && s.ops[t].dp < |s.nlink| && s.nlink[s.ops[t].dp] > 0
    case _ => true
  }

  ghost predicate CheckedSteps(s: State, n: State) {
    exists step :: Next(s, n, step) && Checks(s, step)
  }

  ghost predicate CheckedRun(ss: seq<State>) {
    |ss| > 0 && forall k :: 0 <= k < |ss| - 1 ==> CheckedSteps(ss[k], ss[k + 1])
  }

  /** A directory something is being created in is joined. */
  ghost predicate CreatesJoined(s: State) {
    forall t :: 0 <= t < |s.ops| && s.ops[t].Creating? ==> s.ops[t].dp in s.dirs.joined
  }

  ghost predicate CheckedInv(s: State) {
    Inv(s) && Tidy(s) && CreatesJoined(s)
  }

  /** With a link, a directory no other thread has locked is joined. */
  lemma CheckedJoined(s: State, t: nat, d: int)
    requires Inv(s) && Tidy(s) && t < |s.ops| && IsDir(s.dirs, d) && Unlocked(s, t, d) && !Owes(s.ops[t], d)
    requires d < |s.nlink| && s.nlink[d] > 0
    ensures d in s.dirs.joined
  {
    TidyExact(s);
    LinkedIff(s, d);
    OwedHeld(s, t, d);
    LinkedJoined(s.dirs, d);
  }

  lemma SameTidy(s: State, n: State)
    requires Tidy(s) && Kept(s, n) && s.dirs.joined <= n.dirs.joined
    requires forall p, k, i :: Child(n.dirs, p, k, i) ==> Child(s.dirs, p, k, i)
    ensures Tidy(n)
  {
    KeptSlack(s, n);
  }

  lemma UnlinkTidy(s: State, n: State, t: nat, name: string)
    requires CheckedInv(s) && DoUnlink(s, n, t, name)
    ensures CheckedInv(n)
  {
    var dp := s.ops[t].dp;
    var k := Lookup(s.dirs.ents[dp], name);
    var ip := s.dirs.ents[dp][k].inum;
    UnlinkFinds(s, dp, name);
    UnlinkKeeps(s, n, t, name);
    KeptSlack(s, n);
    RemovedAttached(s.dirs, n.dirs, dp, k, ip);
    UnlinkCreates(s, n, t, ip);
  }

  lemma RemovedAttached(s: Dirs, n: Dirs, dp: int, k: int, i: int)
    requires Attached(s) && Removed(s, n, dp, k, i)
    ensures Attached(n)
  {
    forall p, j, c | Child(n, p, j, c)
      ensures p in n.joined
    {
      RemovedChild(s, n, dp, k, i, p, j, c);
    }
  }

  /** The directory that was unlocked until now is nobody's parent in create. */
  lemma UnlinkCreates(s: State, n: State, t: nat, ip: nat)
    requires CreatesJoined(s) && t < |s.ops| && n.ops == s.ops[t := UnlinkDown(ip)] && Unlocked(s, t, ip)
    requires s.dirs.joined - {ip as int} <= n.dirs.joined
    ensures CreatesJoined(n)
  {
    forall u | 0 <= u < |n.ops| && n.ops[u].Creating?
      ensures n.ops[u].dp in n.dirs.joined
    {
      assert u != t && ip !in Held(s.ops[u]);
    }
  }

  lemma LinkEnterTidy(s: State, n: State, t: nat, name: string)
    requires CheckedInv(s) && DoLinkEnter(s, n, t, name) && Checks(s, LinkEnter(t, name))
    ensures CheckedInv(n)
  {
    LinkEnterKeeps(s, n, t, name);
    LinkEnters(s, n, t, name);
    CheckedJoined(s, t, s.ops[t].dp);
    EnterTidy(s, n, s.ops[t].dp, Hole(s.dirs.ents[s.ops[t].dp]), s.ops[t].ip, name);
  }

  lemma CreateEnterTidy(s: State, n: State, t: nat)
    requires CheckedInv(s) && DoCreateEnter(s, n, t)
    ensures CheckedInv(n)
  {
    var op := s.ops[t];
    CreateEnterKeeps(s, n, t);
    CreateEnters(s, n, t);
    EnterTidy(s, n, op.dp, Hole(s.dirs.ents[op.dp]), op.ip, op.name);
  }

  lemma CreateStartTidy(s: State, n: State, t: nat, name: string, dir: bool, ip: nat)
    requires CheckedInv(s) && DoCreateStart(s, n, t, name, dir, ip) && Checks(s, CreateStart(t, name, dir, ip))
    ensures CheckedInv(n)
  {
    CheckedJoined(s, t, s.ops[t].dp);
    StartTidy(s, n, t, name, dir, ip);
  }

  lemma StartTidy(s: State, n: State, t: nat, name: string, dir: bool, ip: nat)
    requires Inv(s) && Tidy(s) && DoCreateStart(s, n, t, name, dir, ip)
    ensures Inv(n) && Tidy(n)
  {
    CreateStartKeeps(s, n, t, name, dir, ip);
    StartChildren(s, n, t, name, dir, ip);
    SameTidy(s, n);
  }

  lemma StartChildren(s: State, n: State, t: nat, name: string, dir: bool, ip: nat)
    requires DoCreateStart(s, n, t, name, dir, ip)
    ensures forall p, k, i :: Child(n.dirs, p, k, i) ==> Child(s.dirs, p, k, i)
  {
  }

  lemma MkdirDotsTidy(s: State, n: State, t: nat)
    requires Inv(s) && Tidy(s) && DoMkdirDots(s, n, t)
    ensures Inv(n) && Tidy(n) && (CreatesJoined(s) ==> CreatesJoined(n))
  {
    var op := s.ops[t];
    assert OpOk(s.dirs, op);
    MkdirDotsKeeps(s, n, t);
    DotsChildren(s, n, t);
    SameTidy(s, n);
  }

  /** A dot entry is no name. */
  lemma DotsChildren(s: State, n: State, t: nat)
    requires DoMkdirDots(s, n, t) && OpOk(s.dirs, s.ops[t])
    ensures forall p, k, i :: Child(n.dirs, p, k, i) ==> Child(s.dirs, p, k, i)
  {
    var op := s.ops[t];
    NextDots(op.dp, op.ip, op.stage);
    assert |n.dirs.ents[op.ip]| <= 2;
    forall p, k, i | Child(n.dirs, p, k, i)
      ensures Child(s.dirs, p, k, i)
    {
      assert p != op.ip;
    }
  }

  lemma ReclaimTidy(s: State, n: State, i: nat)
    requires CheckedInv(s) && DoReclaim(s, n, i)
    ensures CheckedInv(n)
  {
    Unreferenced(s, i);
    assert forall k, c :: !Child(s.dirs, i, k, c);
    ReclaimKeeps(s, n, i);
    SameTidy(s, n);
  }

  /** A step that leaves the directories alone. */
  lemma SameDirsTidy(s: State, n: State)
    requires CheckedInv(s) && Inv(n) && Kept(s, n) && n.dirs == s.dirs && |n.ops| == |s.ops|
    requires forall t :: 0 <= t < |n.ops| && n.ops[t].Creating? ==> s.ops[t].Creating? && n.ops[t].dp == s.ops[t].dp
    ensures CheckedInv(n)
  {
    SameTidy(s, n);
  }

  lemma MoveTidy(s: State, n: State, t: nat, op: Op)
    requires CheckedInv(s) && DoMove(s, n, t, op)
    ensures CheckedInv(n)
  {
    MoveKeeps(s, n, t, op);
    assert !op.Creating?;
    SameDirsTidy(s, n);
  }

  lemma CountTidy(s: State, n: State, step: Step)
    requires CheckedInv(s) && Next(s, n, step) && (step.LinkStart? || step.LinkUndo? || step.UnlinkFinish? || step.MkdirCount?)
    ensures CheckedInv(n)
  {
    if step.LinkStart? {
      LinkStartKeeps(s, n, step.t, step.ip);
    } else if step.MkdirCount? {
      MkdirCountKeeps(s, n, step.t);
    } else {
      DownKeeps(s, n, step.t);
    }
    SameDirsTidy(s, n);
  }

  lemma CheckedStep(s: State, n: State, step: Step)
    requires CheckedInv(s) && Next(s, n, step) && Checks(s, step)
    ensures CheckedInv(n)
  {
    match step
    case LinkParent(t, dp) => MoveTidy(s, n, t, LinkTo(s.ops[t].ip, dp));
    case LinkFail(t) => MoveTidy(s, n, t, LinkBad(s.ops[t].ip));
    case LinkEnter(t, name) => LinkEnterTidy(s, n, t, name);
    case FindParent(t, dp) => MoveTidy(s, n, t, Parent(dp));
    case GiveUp(t) => MoveTidy(s, n, t, Idle);
    case Unlink(t, name) => UnlinkTidy(s, n, t, name);
    case CreateStart(t, name, dir, ip) => CreateStartTidy(s, n, t, name, dir, ip);
    case MkdirDots(t) => MkdirDotsTidy(s, n, t);
    case CreateEnter(t) => CreateEnterTidy(s, n, t);
    case Reclaim(i) => ReclaimTidy(s, n, i);
    case _ => CountTidy(s, n, step);
  }

  lemma {:induction false} CheckedRunInv(ss: seq<State>, names: seq<string>, k: nat)
    requires CheckedRun(ss) && Init(ss[0], names) && k < |ss|
    ensures CheckedInv(ss[k])
  {
    if k == 0 {
      InitInv(ss[0], names);
    } else {
      CheckedRunInv(ss, names, k - 1);
      assert CheckedSteps(ss[k - 1], ss[k - 1 + 1]);
      var step :| Next(ss[k - 1], ss[k], step) && Checks(ss[k - 1], step);
      CheckedStep(ss[k - 1], ss[k], step);
    }
  }

  /** With that check the counts are exact in every state of every run; with no call
      in flight each is the number of entries that stand for it. */
  lemma CheckedCounts(ss: seq<State>, names: seq<string>, k: nat, i: int)
    requires CheckedRun(ss) && Init(ss[0], names) && k < |ss| && IsIno(ss[k].dirs, i)
    ensures i < |ss[k].nlink| && ss[k].nlink[i] == |LinkedRefs(ss[k].dirs, i)| + Owed(ss[k].ops, i)
    ensures (forall t :: 0 <= t < |ss[k].ops| ==> ss[k].ops[t] == Idle) ==> ss[k].nlink[i] == |LinkedRefs(ss[k].dirs, i)|
  {
    CheckedRunInv(ss, names, k);
    TidyExact(ss[k]);
    if forall t :: 0 <= t < |ss[k].ops| ==> ss[k].ops[t] == Idle {
      NothingOwed(ss[k].ops, i);
    }
  }
}
