/** What one entry more or less does to the directory tree. */
module DirTree {
  import opened DirSpec

  // ----- going up -----------------------------------------------------------

  /** Directories may leave the joined ones; their parents stay. */
  lemma {:induction false} FewerClimb(s: Dirs, n: Dirs, d: int, k: nat)
    requires n.joined <= s.joined && (forall x :: x in s.joined ==> Par(n, x) == Par(s, x)) && Climbs(s, d, k)
    ensures Climbs(n, d, k)
    decreases k
  {
    if d != ROOT && d in s.joined {
      FewerClimb(s, n, Par(s, d), k - 1);
    }
  }

  lemma FewerEnd(s: Dirs, n: Dirs, d: int)
    requires n.joined <= s.joined && (forall x :: x in s.joined ==> Par(n, x) == Par(s, x)) && Ends(s, d)
    ensures Ends(n, d)
  {
    var k: nat :| Climbs(s, d, k);
    FewerClimb(s, n, d, k);
  }

  /** Directory i joins; it is nobody's parent. */
  lemma {:induction false} MoreClimb(s: Dirs, n: Dirs, i: int, d: int, k: nat)
    requires n.joined <= s.joined + {i} && (forall x :: x in s.joined ==> Par(n, x) == Par(s, x) != i) && Climbs(s, d, k) && d != i
    ensures Climbs(n, d, k)
    decreases k
  {
    if d != ROOT && d in s.joined {
      MoreClimb(s, n, i, Par(s, d), k - 1);
    }
  }

  // ----- one entry more -----------------------------------------------------

  /** Directory dp gets entry k for i; a directory i joins by it. */
  ghost predicate Entered(s: Dirs, n: Dirs, dp: int, k: nat, i: nat, name: string) {
    && IsDir(s, dp) && |s.ents[dp]| >= 2 && IsIno(s, i) && i != dp && !DotName(name)
    && k == Hole(s.ents[dp]) && n.kind == s.kind && n.ents == s.ents[dp := Put(s.ents[dp], k, Entry(i, name))]
    && s.kind[i] != Free
    && (if s.kind[i] == Dir
        then i !in s.joined && s.ents[i] == [Entry(i, DOT), Entry(dp, DOTDOT)] && n.joined == s.joined + {i}
        else n.joined == s.joined)
  }

  lemma EnteredSlot(s: Dirs, n: Dirs, dp: int, k: nat, i: nat, name: string)
    requires DirsOk(s) && JoinedOk(s) && Entered(s, n, dp, k, i, name)
    ensures k >= 2 && HasEntry(n, dp, k) && At(n, dp, k) == Entry(i, name)
    ensures forall d, j :: HasEntry(s, d, j) ==> HasEntry(n, d, j) && ((d, j) != (dp, k) ==> At(n, d, j) == At(s, d, j))
    ensures forall d, j :: HasEntry(n, d, j) ==> HasEntry(s, d, j) || (d, j) == (dp, k)
    ensures HasEntry(s, dp, k) ==> At(s, dp, k).inum == 0
  {
    assert HasEntry(s, dp, 0) && HasEntry(s, dp, 1);
    assert EntryOk(s, dp, 0) && EntryOk(s, dp, 1);
  }

  lemma EnteredDirs(s: Dirs, n: Dirs, dp: int, k: nat, i: nat, name: string)
    requires DirsOk(s) && JoinedOk(s) && Entered(s, n, dp, k, i, name)
    ensures DirsOk(n)
  {
    EnteredSlot(s, n, dp, k, i, name);
    forall d, j | HasEntry(n, d, j)
      ensures EntryOk(n, d, j)
    {
      if (d, j) != (dp, k) { assert EntryOk(s, d, j); }
    }
  }

  lemma EnteredJoined(s: Dirs, n: Dirs, dp: int, k: nat, i: nat, name: string)
    requires DirsOk(s) && JoinedOk(s) && Entered(s, n, dp, k, i, name)
    ensures JoinedOk(n) && (forall d :: d in s.joined ==> Par(n, d) == Par(s, d)) && (s.kind[i] == Dir ==> Par(n, i) == dp)
  {
    EnteredSlot(s, n, dp, k, i, name);
    assert s.kind[i] == Dir ==> HasEntry(s, i, 1);
    forall d | d in s.joined
      ensures Par(n, d) == Par(s, d)
    {
      assert HasEntry(s, d, 1);
    }
  }

  /** Nothing is below a directory with no names in it. */
  lemma Childless(s: Dirs, i: int, x: int)
    requires JoinedOk(s) && AllNamed(s) && i != ROOT && x in s.joined && (forall k, c :: !Child(s, i, k, c))
    ensures Par(s, x) != i
  {
    assert x != ROOT ==> Named(s, x);
  }

  lemma EnteredTree(s: Dirs, n: Dirs, dp: int, k: nat, i: nat, name: string)
    requires DirsOk(s) && JoinedOk(s) && AllNamed(s) && TreeOk(s) && Entered(s, n, dp, k, i, name)
    ensures TreeOk(n)
  {
    EnteredJoined(s, n, dp, k, i, name);
    if s.kind[i] == Dir {
      forall x | x in s.joined
        ensures Par(s, x) != i
      {
        Childless(s, i, x);
      }
      forall d | d in s.joined || d == dp
        ensures Ends(n, d)
      {
        assert d in s.joined ==> Ends(s, d);
        assert Climbs(s, d, 0) || d in s.joined;
        var m: nat :| Climbs(s, d, m);
        MoreClimb(s, n, i, d, m);
      }
      var m: nat :| Climbs(n, dp, m);
      assert Climbs(n, i, m + 1);
    } else {
      forall d | d in n.joined
        ensures Ends(n, d)
      {
        FewerEnd(s, n, d);
      }
    }
  }

  lemma EnteredChild(s: Dirs, n: Dirs, dp: int, k: nat, i: nat, name: string, p: int, j: int, c: int)
    requires DirsOk(s) && JoinedOk(s) && Entered(s, n, dp, k, i, name)
    ensures Child(n, p, j, c) <==> Child(s, p, j, c) || (p == dp && j == k && c == i)
    ensures Child(s, p, j, c) ==> (p, j) != (dp, k)
  {
    EnteredSlot(s, n, dp, k, i, name);
    if p == i && s.kind[i] == Dir && HasEntry(n, p, j) {
      assert HasEntry(s, i, j);
    }
  }

  lemma EnteredChildren(s: Dirs, n: Dirs, dp: int, k: nat, i: nat, name: string)
    requires DirsOk(s) && JoinedOk(s) && ChildrenOk(s) && Entered(s, n, dp, k, i, name)
    ensures ChildrenOk(n)
  {
    EnteredJoined(s, n, dp, k, i, name);
    forall p, j, c | Child(n, p, j, c)
      ensures ChildOk(n, p, c)
    {
      EnteredChild(s, n, dp, k, i, name, p, j, c);
      if Child(s, p, j, c) { assert ChildOk(s, p, c); }
    }
  }

  lemma EnteredNamed(s: Dirs, n: Dirs, dp: int, k: nat, i: nat, name: string)
    requires DirsOk(s) && JoinedOk(s) && AllNamed(s) && Entered(s, n, dp, k, i, name)
    ensures AllNamed(n)
  {
    EnteredJoined(s, n, dp, k, i, name);
    forall d | d in n.joined && d != ROOT
      ensures Named(n, d)
    {
      if d in s.joined {
        assert Named(s, d);
        var j :| Child(s, Par(s, d), j, d);
        EnteredChild(s, n, dp, k, i, name, Par(s, d), j, d);
      } else {
        EnteredChild(s, n, dp, k, i, name, dp, k, i);
      }
    }
  }

  lemma EnteredOnce(s: Dirs, n: Dirs, dp: int, k: nat, i: nat, name: string)
    requires DirsOk(s) && JoinedOk(s) && ChildrenOk(s) && NamedOnce(s) && Entered(s, n, dp, k, i, name)
    ensures NamedOnce(n)
  {
    forall p, a, b, d | Child(n, p, a, d) && Child(n, p, b, d) && IsDir(n, d)
      ensures a == b
    {
      EnteredChild(s, n, dp, k, i, name, p, a, d);
      EnteredChild(s, n, dp, k, i, name, p, b, d);
      assert d == i ==> !ChildOk(s, p, d);
    }
  }

  lemma EnteredStruct(s: Dirs, n: Dirs, dp: int, k: nat, i: nat, name: string)
    requires Struct(s) && Entered(s, n, dp, k, i, name)
    ensures Struct(n)
  {
    EnteredDirs(s, n, dp, k, i, name);
    EnteredJoined(s, n, dp, k, i, name);
    EnteredTree(s, n, dp, k, i, name);
    EnteredChildren(s, n, dp, k, i, name);
    EnteredNamed(s, n, dp, k, i, name);
    EnteredOnce(s, n, dp, k, i, name);
  }

  /** The entry is one more reference to i, and a new directory's ".." one to dp. */
  lemma EnteredRefs(s: Dirs, n: Dirs, dp: int, k: nat, i: nat, name: string, c: int)
    requires DirsOk(s) && JoinedOk(s) && Entered(s, n, dp, k, i, name) && c > 0
    ensures |Refs(n, c)| == |Refs(s, c)| + One(c == i) + One(s.kind[i] == Dir && c == dp)
  {
    var extra: set<(int, int)> :=
      if c == i then {(dp, k)} else if s.kind[i] == Dir && c == dp then {(i, 1)} else {};
    forall d, j
      ensures Names(n, d, j, c) <==> Names(s, d, j, c) || (d, j) in extra
      ensures Names(s, d, j, c) ==> (d, j) !in extra
    {
      EnteredNames(s, n, dp, k, i, name, c, d, j);
    }
    RefsGrow(s, n, c, extra);
  }

  lemma RefsGrow(s: Dirs, n: Dirs, c: int, extra: set<(int, int)>)
    requires forall d, j :: Names(n, d, j, c) <==> Names(s, d, j, c) || (d, j) in extra
    requires forall d, j :: Names(s, d, j, c) ==> (d, j) !in extra
    ensures |Refs(n, c)| == |Refs(s, c)| + |extra|
  {
    forall x: (int, int)
      ensures x in Refs(n, c) <==> x in Refs(s, c) + extra
      ensures x in Refs(s, c) ==> x !in extra
    {
      assert x == (x.0, x.1);
      assert Names(n, x.0, x.1, c) <==> Names(s, x.0, x.1, c) || (x.0, x.1) in extra;
    }
    assert Refs(n, c) == Refs(s, c) + extra;
  }

  lemma EnteredNames(s: Dirs, n: Dirs, dp: int, k: nat, i: nat, name: string, c: int, d: int, j: int)
    requires DirsOk(s) && JoinedOk(s) && Entered(s, n, dp, k, i, name) && c > 0
    ensures Names(n, d, j, c) <==> Names(s, d, j, c) || (d == dp && j == k && c == i) || (s.kind[i] == Dir && c == dp && d == i && j == 1)
    ensures Names(s, d, j, c) ==> (d, j) != (dp, k) && (s.kind[i] == Dir ==> d != i)
  {
    EnteredSlot(s, n, dp, k, i, name);
    if s.kind[i] == Dir && d == i && HasEntry(n, d, j) {
      assert HasEntry(s, i, j);
    }
  }

  // ----- one entry less -----------------------------------------------------

  /** Entry k of dp, which named i, is cleared; a directory i, which is empty, leaves
      the tree with it. */
  ghost predicate Removed(s: Dirs, n: Dirs, dp: int, k: int, i: int) {
    && Child(s, dp, k, i) && n.kind == s.kind && n.ents == s.ents[dp := s.ents[dp][k := Entry(0, "")]]
    && IsIno(s, i)
    && if s.kind[i] == Dir then EmptyDir(s.ents[i]) && n.joined == s.joined - {i} else n.joined == s.joined
  }

  lemma {:induction false} SelfClimb(s: Dirs, d: int, n: nat)
    requires Par(s, d) == d && d in s.joined && d != ROOT
    ensures !Climbs(s, d, n)
    decreases n
  {
    if n > 0 {
      SelfClimb(s, d, n - 1);
    }
  }

  /** No directory is its own child. */
  lemma ChildApart(s: Dirs, p: int, k: int, i: int)
    requires Struct(s) && Child(s, p, k, i)
    ensures i != p
  {
    assert ChildOk(s, p, i);
    if i == p {
      assert Ends(s, p);
      var n: nat :| Climbs(s, p, n);
      SelfClimb(s, p, n);
    }
  }

  lemma RemovedSlot(s: Dirs, n: Dirs, dp: int, k: int, i: int)
    requires Removed(s, n, dp, k, i)
    ensures HasEntry(n, dp, k) && At(n, dp, k) == Entry(0, "")
    ensures forall d, j :: HasEntry(s, d, j) <==> HasEntry(n, d, j)
    ensures forall d, j :: HasEntry(s, d, j) && (d, j) != (dp, k) ==> At(n, d, j) == At(s, d, j)
    ensures forall d :: Par(n, d) == Par(s, d)
  {
  }

  lemma RemovedJoined(s: Dirs, n: Dirs, dp: int, k: int, i: int)
    requires DirsOk(s) && JoinedOk(s) && ChildOk(s, dp, i) && Removed(s, n, dp, k, i)
    ensures JoinedOk(n) && DirsOk(n)
  {
    RemovedSlot(s, n, dp, k, i);
    forall d, j | HasEntry(n, d, j)
      ensures EntryOk(n, d, j)
    {
      assert EntryOk(s, d, j);
    }
  }

  lemma RemovedTree(s: Dirs, n: Dirs, dp: int, k: int, i: int)
    requires JoinedOk(s) && TreeOk(s) && Removed(s, n, dp, k, i)
    ensures TreeOk(n)
  {
    RemovedSlot(s, n, dp, k, i);
    forall d | d in n.joined
      ensures Ends(n, d)
    {
      FewerEnd(s, n, d);
    }
  }

  lemma RemovedChild(s: Dirs, n: Dirs, dp: int, k: int, i: int, p: int, j: int, c: int)
    requires Removed(s, n, dp, k, i)
    ensures Child(n, p, j, c) <==> Child(s, p, j, c) && (p, j) != (dp, k)
  {
    RemovedSlot(s, n, dp, k, i);
  }

  lemma RemovedChildren(s: Dirs, n: Dirs, dp: int, k: int, i: int)
    requires ChildrenOk(s) && NamedOnce(s) && Removed(s, n, dp, k, i)
    ensures ChildrenOk(n) && NamedOnce(n)
  {
    RemovedSlot(s, n, dp, k, i);
    forall p, j, c | Child(n, p, j, c)
      ensures ChildOk(n, p, c)
    {
      RemovedChild(s, n, dp, k, i, p, j, c);
      assert ChildOk(s, p, c) && ChildOk(s, dp, i);
      assert c == i && s.kind[i] == Dir ==> p == dp && j == k;
    }
    forall p, a, b, d | Child(n, p, a, d) && Child(n, p, b, d) && IsDir(n, d)
      ensures a == b
    {
      RemovedChild(s, n, dp, k, i, p, a, d);
      RemovedChild(s, n, dp, k, i, p, b, d);
    }
  }

  lemma RemovedNamed(s: Dirs, n: Dirs, dp: int, k: int, i: int)
    requires AllNamed(s) && ChildOk(s, dp, i) && Removed(s, n, dp, k, i) && JoinedOk(s)
    ensures AllNamed(n)
  {
    RemovedSlot(s, n, dp, k, i);
    forall d | d in n.joined && d != ROOT
      ensures Named(n, d)
    {
      assert Named(s, d);
      var j :| Child(s, Par(s, d), j, d);
      assert d != i;
      RemovedChild(s, n, dp, k, i, Par(s, d), j, d);
    }
  }

  lemma RemovedStruct(s: Dirs, n: Dirs, dp: int, k: int, i: int)
    requires Struct(s) && Removed(s, n, dp, k, i)
    ensures Struct(n)
  {
    assert ChildOk(s, dp, i);
    RemovedJoined(s, n, dp, k, i);
    RemovedTree(s, n, dp, k, i);
    RemovedChildren(s, n, dp, k, i);
    RemovedNamed(s, n, dp, k, i);
  }

  /** One reference to i goes, and with a directory its ".." to dp. */
  lemma RemovedRefs(s: Dirs, n: Dirs, dp: int, k: int, i: int, c: int)
    requires Struct(s) && Removed(s, n, dp, k, i) && c > 0
    ensures |Refs(s, c)| == |Refs(n, c)| + One(c == i) + One(s.kind[i] == Dir && c == dp)
  {
    ChildApart(s, dp, k, i);
    assert ChildOk(s, dp, i);
    var extra: set<(int, int)> :=
      if c == i then {(dp, k)} else if s.kind[i] == Dir && c == dp then {(i, 1)} else {};
    forall d, j
      ensures Names(s, d, j, c) <==> Names(n, d, j, c) || (d, j) in extra
      ensures Names(n, d, j, c) ==> (d, j) !in extra
    {
      RemovedNames(s, n, dp, k, i, c, d, j);
    }
    RefsGrow(n, s, c, extra);
  }

  lemma RemovedNames(s: Dirs, n: Dirs, dp: int, k: int, i: int, c: int, d: int, j: int)
    requires DirsOk(s) && JoinedOk(s) && ChildOk(s, dp, i) && Removed(s, n, dp, k, i) && c > 0 && i != dp
    ensures Names(s, d, j, c) <==> Names(n, d, j, c) || (d == dp && j == k && c == i) || (s.kind[i] == Dir && c == dp && d == i && j == 1)
    ensures Names(n, d, j, c) ==> (d, j) != (dp, k) && (s.kind[i] == Dir ==> d != i)
  {
    RemovedSlot(s, n, dp, k, i);
    assert EntryOk(s, dp, k);
    if s.kind[i] == Dir && d == i && HasEntry(s, d, j) {
      assert EntryOk(s, i, j) && HasEntry(s, i, 1);
      assert j >= 2 ==> s.ents[i][j].inum == 0;
    }
  }

  // ----- an inode outside the tree ------------------------------------------

  /** Inode i, which no entry stands for, becomes kind with entries e. */
  ghost predicate OffTree(s: Dirs, n: Dirs, i: nat, kind: Kind, e: seq<Entry>) {
    && IsIno(s, i) && i !in s.joined && n == Dirs(s.kind[i := kind], s.ents[i := e], s.joined)
    && (forall p, k :: !Child(s, p, k, i)) && (forall d :: d in s.joined ==> Par(s, d) != i)
    && |e| <= 2 && (|e| > 0 ==> e[0] == Entry(i, DOT)) && (|e| > 1 ==> e[1].name == DOTDOT && e[1].inum != 0)
  }

  lemma OffSlot(s: Dirs, n: Dirs, i: nat, kind: Kind, e: seq<Entry>)
    requires JoinedOk(s) && OffTree(s, n, i, kind, e)
    ensures forall d, j :: d != i ==> (HasEntry(n, d, j) <==> HasEntry(s, d, j)) && (HasEntry(s, d, j) ==> At(n, d, j) == At(s, d, j))
    ensures forall d :: d in s.joined ==> HasEntry(n, d, 1) && Par(n, d) == Par(s, d)
    ensures forall p, k, c :: Child(n, p, k, c) <==> Child(s, p, k, c) && p != i
    ensures forall d, j, c :: Names(n, d, j, c) <==> Names(s, d, j, c) && d != i
  {
  }

  lemma OffStruct(s: Dirs, n: Dirs, i: nat, kind: Kind, e: seq<Entry>)
    requires Struct(s) && OffTree(s, n, i, kind, e)
    ensures Struct(n)
  {
    OffSlot(s, n, i, kind, e);
    forall d | d in n.joined
      ensures Ends(n, d)
    {
      FewerEnd(s, n, d);
    }
    forall d, j | HasEntry(n, d, j)
      ensures EntryOk(n, d, j)
    {
      if d != i { assert EntryOk(s, d, j); }
    }
    OffNamed(s, n, i, kind, e);
  }

  lemma OffNamed(s: Dirs, n: Dirs, i: nat, kind: Kind, e: seq<Entry>)
    requires JoinedOk(s) && ChildrenOk(s) && AllNamed(s) && NamedOnce(s) && OffTree(s, n, i, kind, e)
    ensures AllNamed(n) && NamedOnce(n) && ChildrenOk(n)
  {
    OffSlot(s, n, i, kind, e);
    forall p, k, c | Child(n, p, k, c)
      ensures ChildOk(n, p, c)
    {
      assert Child(s, p, k, c) && ChildOk(s, p, c);
    }
    forall d | d in n.joined && d != ROOT
      ensures Named(n, d)
    {
      assert Named(s, d);
      var k :| Child(s, Par(s, d), k, d);
      assert Child(n, Par(n, d), k, d);
    }
  }

  /** References may go with the entries i had, but none is new. */
  lemma OffRefs(s: Dirs, n: Dirs, i: nat, kind: Kind, e: seq<Entry>, c: int)
    requires JoinedOk(s) && OffTree(s, n, i, kind, e)
    ensures |Refs(n, c)| <= |Refs(s, c)|
    ensures (forall k, x :: !Child(s, i, k, x)) && c > 0 ==> |Refs(n, c)| == |Refs(s, c)|
  {
    OffSlot(s, n, i, kind, e);
    var gone: set<(int, int)> := set x | x in Refs(s, c) && x.0 == i;
    forall d, j
      ensures Names(s, d, j, c) <==> Names(n, d, j, c) || (d, j) in gone
      ensures Names(n, d, j, c) ==> (d, j) !in gone
    {
    }
    RefsGrow(n, s, c, gone);
    if (forall k, x :: !Child(s, i, k, x)) && c > 0 {
      forall x | x in gone
        ensures false
      {
        assert x == (x.0, x.1);
        assert Names(s, x.0, x.1, c);
        assert Child(s, i, x.1, c);
      }
    }
  }
}
