/** Directories, link counts and the system calls that change them, as a machine
    whose steps are the stretches between lock releases. */
module DirSpec {

  const ROOT: nat := 1
  const DOT: string := "."
  const DOTDOT: string := ".."

  datatype Kind = Free | File | Dir
  datatype Entry = Entry(inum: nat, name: string)
  /** Where a thread stands in link, unlink or create.
      LinkUp, LinkTo: sys_link has raised ip's count; LinkTo also found the parent.
      LinkBad: it failed and will lower the count again.
      Parent: unlink or create has found the parent directory.
      UnlinkDown: the entry is gone, ip is locked, its count is still to be lowered.
      Creating: create holds dp and ip; stage counts what is done of a new
      directory: 1 the parent's count, 2 ".", 3 "..". */
  datatype Op =
    | Idle
    | LinkUp(ip: nat)
    | LinkTo(ip: nat, dp: nat)
    | LinkBad(ip: nat)
    | Parent(dp: nat)
    | UnlinkDown(ip: nat)
    | Creating(dp: nat, ip: nat, name: string, dir: bool, stage: nat)

  /** Kinds and directory contents by inode number.  `joined` is the set of the
      directories that have been given a name and not lost it: a directory joins it
      with the entry create makes for it and leaves it with unlink of that entry. */
  datatype Dirs = Dirs(kind: seq<Kind>, ents: seq<seq<Entry>>, joined: set<int>)

  datatype State = State(dirs: Dirs, nlink: seq<int>, ops: seq<Op>)

  // ----- directory contents -------------------------------------------------

  predicate Used(e: Entry, name: string) {
    e.inum != 0 && e.name == name
  }

  /** dirlookup: the first used entry of that name. */
  function Lookup(ents: seq<Entry>, name: string): (k: nat)
    ensures k <= |ents| && (k < |ents| ==> Used(ents[k], name))
    ensures forall j :: 0 <= j < k ==> !Used(ents[j], name)
  {
    if ents == [] then 0 else if Used(ents[0], name) then 0 else Lookup(ents[1..], name) + 1
  }

  /** The slot dirlink fills: the first unused one, or a new one at the end. */
  function Hole(ents: seq<Entry>): (k: nat)
    ensures k <= |ents| && (k < |ents| ==> ents[k].inum == 0)
    ensures forall j :: 0 <= j < k ==> ents[j].inum != 0
  {
    if ents == [] then 0 else if ents[0].inum == 0 then 0 else Hole(ents[1..]) + 1
  }

  function Put(ents: seq<Entry>, k: nat, e: Entry): (r: seq<Entry>)
    requires k <= |ents|
    ensures |r| == if k == |ents| then |ents| + 1 else |ents|
    ensures r[k] == e && forall j :: 0 <= j < |ents| && j != k ==> r[j] == ents[j]
  {
    if k == |ents| then ents + [e] else ents[k := e]
  }

  predicate EmptyDir(ents: seq<Entry>) {
    forall k :: 2 <= k < |ents| ==> ents[k].inum == 0
  }

  /** dirlookup's loop. */
  method DirLookup(ents: seq<Entry>, name: string) returns (found: bool, inum: nat, off: nat)
    ensures found <==> exists k :: 0 <= k < |ents| && Used(ents[k], name)
    ensures found ==> off == Lookup(ents, name) < |ents| && inum == ents[off].inum != 0
    ensures !found ==> Lookup(ents, name) == |ents|
  {
    off := 0;
    while off < |ents|
      invariant 0 <= off <= |ents| && forall k :: 0 <= k < off ==> !Used(ents[k], name)
    {
      if ents[off].inum != 0 && ents[off].name == name {
        return true, ents[off].inum, off;
      }
      off := off + 1;
    }
    found, inum := false, 0;
  }

  /** dirlink: refused exactly when the name is there; else one hole is filled. */
  method DirLink(ents: seq<Entry>, name: string, inum: nat) returns (ok: bool, r: seq<Entry>)
    ensures ok <==> Lookup(ents, name) == |ents|
    ensures r == if ok then Put(ents, Hole(ents), Entry(inum, name)) else ents
  {
    var found, i, o := DirLookup(ents, name);
    if found {
      return false, ents;
    }
    var off := 0;
    while off < |ents| && ents[off].inum != 0
      invariant 0 <= off <= |ents| && forall k :: 0 <= k < off ==> ents[k].inum != 0
    {
      off := off + 1;
    }
    assert off == Hole(ents);
    ok, r := true, Put(ents, off, Entry(inum, name));
  }

  method IsDirEmpty(ents: seq<Entry>) returns (empty: bool)
    ensures empty <==> EmptyDir(ents)
  {
    var off := 2;
    while off < |ents|
      invariant 2 <= off && forall k :: 2 <= k < off && k < |ents| ==> ents[k].inum == 0
    {
      if ents[off].inum != 0 {
        return false;
      }
      off := off + 1;
    }
    empty := true;
  }

  // ----- the directory tree -------------------------------------------------

  predicate IsIno(s: Dirs, i: int) {
    0 < i < |s.kind| == |s.ents|
  }

  predicate IsDir(s: Dirs, d: int) {
    IsIno(s, d) && s.kind[d] == Dir
  }

  predicate IsFile(s: Dirs, i: int) {
    IsIno(s, i) && s.kind[i] == File
  }

  predicate DotName(name: string) {
    name == DOT || name == DOTDOT
  }

  predicate HasEntry(s: Dirs, d: int, k: int) {
    IsDir(s, d) && 0 <= k < |s.ents[d]|
  }

  function At(s: Dirs, d: int, k: int): Entry
    requires HasEntry(s, d, k)
  {
    s.ents[d][k]
  }

  /** What the entries of a directory look like. */
  predicate EntryOk(s: Dirs, d: int, k: int)
    requires HasEntry(s, d, k)
  {
    if k == 0 then At(s, d, k) == Entry(d, DOT)
    else if k == 1 then At(s, d, k).name == DOTDOT && At(s, d, k).inum != 0
    else At(s, d, k).inum != 0 ==> !DotName(At(s, d, k).name)
  }

  ghost predicate DirsOk(s: Dirs) {
    forall d, k :: HasEntry(s, d, k) ==> EntryOk(s, d, k)
  }

  /** The directory ".." names. */
  function Par(s: Dirs, d: int): int {
    if HasEntry(s, d, 1) then At(s, d, 1).inum else 0
  }

  ghost predicate JoinedOk(s: Dirs) {
    && |s.kind| == |s.ents| && ROOT in s.joined && Par(s, ROOT) == ROOT
    && (forall d :: d in s.joined ==> HasEntry(s, d, 1))
    && (forall d :: d in s.joined ==> IsDir(s, Par(s, d)))
  }

  /** Entry k of directory p names i, and is neither "." nor "..". */
  predicate Child(s: Dirs, p: int, k: int, i: int) {
    2 <= k && HasEntry(s, p, k) && At(s, p, k).inum == i != 0
  }

  /** A named inode is allocated; a named directory is joined, below its "..". */
  predicate ChildOk(s: Dirs, p: int, i: int) {
    IsIno(s, i) && s.kind[i] != Free && (s.kind[i] == Dir ==> i in s.joined && i != ROOT && Par(s, i) == p)
  }

  ghost predicate ChildrenOk(s: Dirs) {
    forall p, k, i :: Child(s, p, k, i) ==> ChildOk(s, p, i)
  }

  ghost predicate Named(s: Dirs, d: int) {
    exists k :: Child(s, Par(s, d), k, d)
  }

  /** Every joined directory but the root is named ... */
  ghost predicate AllNamed(s: Dirs) {
    forall d :: d in s.joined && d != ROOT ==> Named(s, d)
  }

  /** ... once. */
  ghost predicate NamedOnce(s: Dirs) {
    forall p, k, j, d :: Child(s, p, k, d) && Child(s, p, j, d) && IsDir(s, d) ==> k == j
  }

  /** Going up from d comes to the root, or to a directory that is not joined, within
      n steps. */
  predicate Climbs(s: Dirs, d: int, n: nat)
    decreases n
  {
    d == ROOT || d !in s.joined || (n > 0 && Climbs(s, Par(s, d), n - 1))
  }

  ghost predicate Ends(s: Dirs, d: int) {
    exists n: nat :: Climbs(s, d, n)
  }

  /** There is no way round in circles. */
  ghost predicate TreeOk(s: Dirs) {
    forall d :: d in s.joined ==> Ends(s, d)
  }

  ghost predicate Struct(s: Dirs) {
    DirsOk(s) && JoinedOk(s) && ChildrenOk(s) && AllNamed(s) && NamedOnce(s) && TreeOk(s)
  }

  // ----- linked directories -------------------------------------------------

  /** A path of n names leads from the root to d. */
  ghost predicate Path(s: Dirs, d: int, n: nat)
    decreases n
  {
    if n == 0 then d == ROOT else exists p, k :: Child(s, p, k, d) && Path(s, p, n - 1)
  }

  /** A linked directory is one that can be reached by name. */
  ghost predicate Linked(s: Dirs, d: int) {
    IsDir(s, d) && exists n: nat :: Path(s, d, n)
  }

  /** Entry k of linked directory d names i, and is not ".". */
  ghost predicate LinkedNames(s: Dirs, d: int, k: int, i: int) {
    Linked(s, d) && HasEntry(s, d, k) && At(s, d, k).inum == i && At(s, d, k).name != DOT
  }

  /** The entries other than "." that name i in linked directories. */
  ghost function LinkedRefs(s: Dirs, i: int): (r: set<(int, int)>)
    ensures forall d, k :: (d, k) in r <==> LinkedNames(s, d, k, i)
  {
    set d, k | 0 <= d < |s.ents| && 0 <= k < |s.ents[d]| && LinkedNames(s, d, k, i) :: (d, k)
  }

  // ----- link counts --------------------------------------------------------

  /** Entry k of d stands for a link to i: a name, or the ".." of a joined directory. */
  predicate Names(s: Dirs, d: int, k: int, i: int) {
    HasEntry(s, d, k) && At(s, d, k).inum == i && (k >= 2 || (k == 1 && d in s.joined))
  }

  /** The entries that stand for links to i, in linked directories or not. */
  function Refs(s: Dirs, i: int): (r: set<(int, int)>)
    ensures forall d, k :: (d, k) in r <==> Names(s, d, k, i)
  {
    set d, k | 0 <= d < |s.ents| && 0 <= k < |s.ents[d]| && Names(s, d, k, i) :: (d, k)
  }

  /** The thread has counted a link to i that no entry stands for. */
  predicate Owes(op: Op, i: int) {
    match op
    case LinkUp(ip) => i == ip
    case LinkTo(ip, dp) => i == ip
    case LinkBad(ip) => i == ip
    case UnlinkDown(ip) => i == ip
    case Creating(dp, ip, name, dir, stage) => i == ip || (i == dp && dir && stage >= 1)
    case _ => false
  }

  function One(b: bool): nat {
    if b then 1 else 0
  }

  /** How many links to i are in flight. */
  function Owed(ops: seq<Op>, i: int): nat {
    if ops == [] then 0 else One(Owes(ops[0], i)) + Owed(ops[1..], i)
  }

  /** What inode i's count has beyond the entries that stand for it and the links in
      flight. */
  ghost function Slack(s: State, i: int): int
    requires 0 <= i < |s.nlink|
  {
    s.nlink[i] - |Refs(s.dirs, i)| - Owed(s.ops, i)
  }

  /** No count is too low. */
  ghost predicate Counts(s: State) {
    |s.nlink| == |s.dirs.kind| && forall i :: IsIno(s.dirs, i) ==> Slack(s, i) >= 0
  }

  /** Link counts as they should be: entries in linked directories plus links in
      flight. */
  ghost predicate Exact(s: State) {
    |s.nlink| == |s.dirs.kind| && forall i :: IsIno(s.dirs, i) ==> s.nlink[i] == |LinkedRefs(s.dirs, i)| + Owed(s.ops, i)
  }

  // ----- threads ------------------------------------------------------------

  /** The inodes a thread has locked between steps. */
  function Held(op: Op): set<int> {
    match op
    case UnlinkDown(ip) => {ip}
    case Creating(dp, ip, name, dir, stage) => {dp, ip}
    case _ => {}
  }

  /** The inodes a thread refers to, so that iput will not free them. */
  function Refers(op: Op): set<int> {
    match op
    case Idle => {}
    case LinkUp(ip) => {ip}
    case LinkTo(ip, dp) => {ip, dp}
    case LinkBad(ip) => {ip}
    case Parent(dp) => {dp}
    case UnlinkDown(ip) => {ip}
    case Creating(dp, ip, name, dir, stage) => {dp, ip}
  }

  predicate OpOk(s: Dirs, op: Op) {
    match op
    case Idle => true
    case LinkUp(ip) => IsFile(s, ip)
    case LinkTo(ip, dp) => IsFile(s, ip) && IsDir(s, dp)
    case LinkBad(ip) => IsFile(s, ip)
    case Parent(dp) => IsDir(s, dp)
    case UnlinkDown(ip) => IsIno(s, ip) && s.kind[ip] != Free && ip !in s.joined
    case Creating(dp, ip, name, dir, stage) =>
      && IsDir(s, dp) && |s.ents[dp]| >= 2 && Lookup(s.ents[dp], name) == |s.ents[dp]| && !DotName(name)
      && IsIno(s, ip) && ip != dp && ip !in s.joined && s.kind[ip] == (if dir then Dir else File)
      && s.ents[ip] == Started(dp, ip, stage) && stage <= 3 && (!dir ==> stage == 0)
  }

  function Started(dp: nat, ip: nat, stage: nat): seq<Entry> {
    if stage <= 1 then [] else if stage == 2 then [Entry(ip, DOT)] else [Entry(ip, DOT), Entry(dp, DOTDOT)]
  }

  ghost predicate OpsOk(s: State) {
    forall t :: 0 <= t < |s.ops| ==> OpOk(s.dirs, s.ops[t])
  }

  ghost predicate LocksOk(s: State) {
    forall t, u :: 0 <= t < |s.ops| && 0 <= u < |s.ops| && t != u ==> Held(s.ops[t]) !! Held(s.ops[u])
  }

  ghost predicate FreeOk(s: State) {
    |s.nlink| == |s.dirs.kind| && forall i :: IsIno(s.dirs, i) && s.dirs.kind[i] == Free ==> s.nlink[i] == 0
  }

  /** Thread t is making directory d. */
  predicate Makes(s: State, t: int, d: int) {
    0 <= t < |s.ops| && s.ops[t].Creating? && s.ops[t].ip == d
  }

  /** A directory nobody is making has both its dots. */
  ghost predicate DotsOk(s: State) {
    forall d :: IsDir(s.dirs, d) ==> |s.dirs.ents[d]| >= 2 || exists t :: Makes(s, t, d)
  }

  ghost predicate Inv(s: State) {
    Struct(s.dirs) && Counts(s) && FreeOk(s) && OpsOk(s) && LocksOk(s) && DotsOk(s)
  }
}
