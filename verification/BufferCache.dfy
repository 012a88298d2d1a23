/** The buffer cache (bio.c) over the in-memory disk (memide.c), as one process
    drives it.  Interleavings of several processes are in LogMachine. */
module BufferCache {
  import opened LogSpec

  const ROOTDEV: nat := 1

  datatype Buf = Buf(
    dev: nat,
    blockno: nat,
    valid: bool,      // B_VALID
    dirty: bool,      // B_DIRTY
    refcnt: nat,
    locked: bool,
    data: Block)
  {
    predicate Caches(d: nat, b: nat) {
      dev == d && blockno == b
    }

    /** bget may take the buffer over for another block. */
    predicate Reusable() {
      refcnt == 0 && !dirty
    }
  }

  /** No block of a real device is cached twice.  Fresh buffers all say device 0. */
  ghost predicate Unique(bufs: seq<Buf>) {
    forall i, j :: 0 <= i < j < |bufs| && bufs[i].dev != 0 ==> !bufs[j].Caches(bufs[i].dev, bufs[i].blockno)
  }

  lemma SameBuffer(bufs: seq<Buf>, i: nat, j: nat, dev: nat, b: nat)
    requires Unique(bufs) && dev != 0 && i < |bufs| && j < |bufs|
    requires bufs[i].Caches(dev, b) && bufs[j].Caches(dev, b)
    ensures i == j
  {
  }

  /** An unlocked clean valid buffer holds what its disk block holds. */
  ghost predicate CleanAgrees(bufs: seq<Buf>, disk: Image) {
    forall i :: 0 <= i < |bufs| && bufs[i].valid && !bufs[i].dirty && !bufs[i].locked ==>
      bufs[i].blockno < |disk| && bufs[i].data == disk[bufs[i].blockno]
  }

  ghost predicate FlagsOk(bufs: seq<Buf>) {
    forall i :: 0 <= i < |bufs| ==>
      && (bufs[i].dirty ==> bufs[i].valid)
      && (bufs[i].valid ==> bufs[i].dev == ROOTDEV)
      && (bufs[i].locked ==> bufs[i].refcnt > 0)
  }

  ghost predicate NoneLocked(bufs: seq<Buf>) {
    forall j :: 0 <= j < |bufs| ==> !bufs[j].locked
  }

  /** The dirty buffers of `after` are those of `before` that cache no block in
      `cleaned`, with the same block and contents. */
  ghost predicate SameDirty(before: seq<Buf>, after: seq<Buf>, cleaned: set<nat>) {
    && |before| == |after|
    && forall j :: 0 <= j < |after| ==>
         && (after[j].dirty <==> before[j].dirty && before[j].blockno !in cleaned)
         && (after[j].dirty ==>
               && after[j].dev == before[j].dev
               && after[j].blockno == before[j].blockno
               && after[j].data == before[j].data)
  }

  // ----- when a buffer can be had -------------------------------------------

  ghost predicate Cached(bufs: seq<Buf>, b: nat) {
    exists j :: 0 <= j < |bufs| && bufs[j].Caches(ROOTDEV, b)
  }

  ghost predicate Spare(bufs: seq<Buf>) {
    exists j :: 0 <= j < |bufs| && bufs[j].Reusable()
  }

  ghost predicate TwoSpare(bufs: seq<Buf>) {
    exists i, j :: 0 <= i < j < |bufs| && bufs[i].Reusable() && bufs[j].Reusable()
  }

  /** The block is in a buffer that cannot be taken over. */
  ghost predicate Kept(bufs: seq<Buf>, b: nat) {
    exists j :: 0 <= j < |bufs| && bufs[j].Caches(ROOTDEV, b) && !bufs[j].Reusable()
  }

  /** bread finds a buffer for the block. */
  ghost predicate CanRead(bufs: seq<Buf>, b: nat) {
    Cached(bufs, b) || Spare(bufs)
  }

  /** References are as before, a referenced buffer has the block it had, and no buffer
      has become dirty. */
  ghost predicate Steady(before: seq<Buf>, after: seq<Buf>) {
    && |before| == |after|
    && forall k :: 0 <= k < |after| ==>
         && after[k].refcnt == before[k].refcnt && (after[k].dirty ==> before[k].dirty)
         && (before[k].refcnt > 0 ==> after[k].dev == before[k].dev && after[k].blockno == before[k].blockno)
  }

  lemma SteadyOn(a: seq<Buf>, b: seq<Buf>, c: seq<Buf>)
    requires Steady(a, b) && Steady(b, c)
    ensures Steady(a, c)
  {
  }

  lemma SteadySpare(before: seq<Buf>, after: seq<Buf>)
    requires Steady(before, after)
    ensures (Spare(before) ==> Spare(after)) && (TwoSpare(before) ==> TwoSpare(after))
  {
    assert forall k :: 0 <= k < |before| && before[k].Reusable() ==> after[k].Reusable();
  }

  /** Buffers i and j have one reference more. */
  ghost predicate Referenced(before: seq<Buf>, after: seq<Buf>, i: int, j: int) {
    && |before| == |after|
    && forall k :: 0 <= k < |after| ==>
         && after[k].refcnt == before[k].refcnt + (if k == i || k == j then 1 else 0)
         && (before[k].refcnt > 0 ==> after[k].dev == before[k].dev && after[k].blockno == before[k].blockno)
  }

  /** Buffers i and j have one reference less, and all the blocks they had. */
  ghost predicate Dropped(before: seq<Buf>, after: seq<Buf>, i: int, j: int) {
    && |before| == |after|
    && forall k :: 0 <= k < |after| ==>
         && after[k].refcnt + (if k == i || k == j then 1 else 0) == before[k].refcnt
         && after[k].dev == before[k].dev && after[k].blockno == before[k].blockno
  }

  lemma SteadyAfter(before: seq<Buf>, during: seq<Buf>, after: seq<Buf>, i: int, j: int, cleaned: set<nat>)
    requires Referenced(before, during, i, j) && SameDirty(before, during, {}) && Dropped(during, after, i, j) && SameDirty(during, after, cleaned)
    ensures Steady(before, after) && SameDirty(before, after, cleaned)
  {
  }

  /** What an unlocked cache and the disk say block b holds. */
  ghost predicate Holds(bufs: seq<Buf>, disk: Image, b: nat, data: Block) {
    && b < |disk|
    && (forall j :: 0 <= j < |bufs| && bufs[j].dirty && bufs[j].blockno == b ==> bufs[j].data == data)
    && ((forall j :: 0 <= j < |bufs| && bufs[j].dirty ==> bufs[j].blockno != b) ==> data == disk[b])
  }

  /** order lists every buffer index once. */
  ghost predicate IsOrder(order: seq<nat>, n: nat) {
    && |order| == n
    && (forall k :: 0 <= k < n ==> order[k] < n)
    && (forall j, k :: 0 <= j < k < n ==> order[j] != order[k])
    && (forall b :: 0 <= b < n ==> b in order)
  }

  function MoveToFront(order: seq<nat>, k: nat): (r: seq<nat>)
    requires k < |order|
  {
    [order[k]] + order[..k] + order[k + 1..]
  }

  lemma MoveToFrontKeepsOrder(order: seq<nat>, n: nat, k: nat)
    requires IsOrder(order, n) && k < n
    ensures IsOrder(MoveToFront(order, k), n)
  {
    var r := MoveToFront(order, k);
    forall b | 0 <= b < n
      ensures b in r
    {
      assert b in order;
      var j :| 0 <= j < n && order[j] == b;
      if j < k {
        assert r[j + 1] == b;
      } else {
        assert r[if j == k then 0 else j] == b;
      }
    }
  }

  class Bcache {
    var disk: Image
    var bufs: seq<Buf>
    var mru: seq<nat>           // buffer indexes, head.next first
    ghost const base: Image     // the disk when the machine started
    ghost var trace: seq<Write> // every block write since then

    ghost predicate Valid()
      reads this
    {
      && |bufs| == NBUF
      && IsOrder(mru, NBUF)
      && Unique(bufs)
      && FlagsOk(bufs)
      && CleanAgrees(bufs, disk)
      && InRange(trace, |base|)
      && disk == Apply(base, trace)
    }

    /** binit: every buffer starts as block 0 of device 0, unreferenced. */
    constructor (d: Image)
      ensures Valid()
      ensures base == disk == d && trace == []
      ensures forall i :: 0 <= i < NBUF ==> bufs[i].Reusable() && !bufs[i].valid && !bufs[i].locked
    {
      disk, base, trace := d, d, [];
      var empty := Buf(0, 0, false, false, 0, false, seq(WORDS, _ => 0));
      bufs := seq(NBUF, _ => empty);
      new;
      // each buffer is linked in at the head
      mru := [];
      var b := 0;
      while b < NBUF
        invariant 0 <= b <= NBUF && IsOrder(mru, b)
        modifies `mru
      {
        var r := [b] + mru;
        assert forall x :: 0 <= x < b ==> x in mru && x in r;
        assert r[0] == b;
        mru := r;
        b := b + 1;
      }
    }

    /** Find the block, or take over the least recently used reusable buffer. */
    method BGet(dev: nat, blockno: nat) returns (ok: bool, i: nat)
      requires Valid() && dev != 0
      requires forall j :: 0 <= j < NBUF && bufs[j].locked ==> !bufs[j].Caches(dev, blockno)
      modifies `bufs
      ensures Valid()
      ensures ok ==> i < NBUF
      ensures ok && old(bufs[i]).Caches(dev, blockno) ==>
                bufs == old(bufs)[i := old(bufs[i]).(refcnt := old(bufs[i]).refcnt + 1, locked := true)]
      ensures ok && !old(bufs[i]).Caches(dev, blockno) ==>
                && (forall j :: 0 <= j < NBUF ==> !old(bufs[j]).Caches(dev, blockno))
                && old(bufs[i]).Reusable()
                && bufs == old(bufs)[i := Buf(dev, blockno, false, false, 1, true, old(bufs[i]).data)]
                && (exists k :: 0 <= k < NBUF && mru[k] == i && forall m :: k < m < NBUF ==> !old(bufs[mru[m]]).Reusable())
      ensures !ok ==>
                && bufs == old(bufs)
                && (forall j :: 0 <= j < NBUF ==> !bufs[j].Caches(dev, blockno) && !bufs[j].Reusable())
    {
      i := 0;
      var k := 0;
      while k < NBUF
        invariant 0 <= k <= NBUF && Valid() && bufs == old(bufs)
        invariant forall m :: 0 <= m < k ==> !bufs[mru[m]].Caches(dev, blockno)
      {
        i := mru[k];
        if bufs[i].Caches(dev, blockno) {
          bufs := bufs[i := bufs[i].(refcnt := bufs[i].refcnt + 1, locked := true)];
          ok := true;
          return;
        }
        k := k + 1;
      }
      forall j | 0 <= j < NBUF
        ensures !bufs[j].Caches(dev, blockno)
      {
        assert j in mru;
      }
      k := NBUF;
      while k > 0
        invariant 0 <= k <= NBUF && Valid() && bufs == old(bufs)
        invariant forall m :: k <= m < NBUF ==> !bufs[mru[m]].Reusable()
      {
        k := k - 1;
        i := mru[k];
        if bufs[i].Reusable() {
          bufs := bufs[i := Buf(dev, blockno, false, false, 1, true, bufs[i].data)];
          ok := true;
          return;
        }
      }
      forall j | 0 <= j < NBUF
        ensures !bufs[j].Reusable()
      {
        assert j in mru;
      }
      ok := false;
    }

    /** Sync a buffer with the disk; false where the driver panics. */
    method IdeRw(i: nat) returns (ok: bool)
      requires Valid() && i < NBUF
      modifies `bufs, `disk, `trace
      ensures Valid() && |disk| == old(|disk|)
      ensures ok <==>
                && old(bufs[i]).locked
                && (old(bufs[i]).dirty || !old(bufs[i]).valid)
                && old(bufs[i]).dev == ROOTDEV
                && old(bufs[i]).blockno < old(|disk|)
      ensures !ok ==> bufs == old(bufs) && disk == old(disk) && trace == old(trace)
      ensures ok && old(bufs[i]).dirty ==>
                && bufs == old(bufs)[i := old(bufs[i]).(dirty := false)]
                && trace == old(trace) + [Write(bufs[i].blockno, bufs[i].data)]
                && disk == old(disk)[bufs[i].blockno := bufs[i].data]
      ensures ok && !old(bufs[i]).dirty ==>
                && bufs == old(bufs)[i := old(bufs[i]).(valid := true, data := old(disk)[old(bufs[i]).blockno])]
                && trace == old(trace) && disk == old(disk)
    {
      var b := bufs[i];
      if !b.locked || (b.valid && !b.dirty) || b.dev != ROOTDEV || b.blockno >= |disk| {
        return false;
      }
      if b.dirty {
        CleanAgreesAfterWrite(i);
        bufs := bufs[i := b.(dirty := false)];
        disk := disk[b.blockno := b.data];
        ghost var w := Write(b.blockno, b.data);
        assert (trace + [w])[..|trace|] == trace;
        trace := trace + [w];
      } else {
        bufs := bufs[i := b.(valid := true, data := disk[b.blockno])];
      }
      ok := true;
    }

    /** Writing the one buffer that caches a block disturbs no other clean buffer. */
    lemma CleanAgreesAfterWrite(i: nat)
      requires Valid() && i < NBUF && bufs[i].dirty && bufs[i].locked && bufs[i].blockno < |disk|
      ensures CleanAgrees(bufs[i := bufs[i].(dirty := false)], disk[bufs[i].blockno := bufs[i].data])
    {
      var b := bufs[i];
      forall j | 0 <= j < NBUF && j != i && bufs[j].valid
        ensures bufs[j].blockno != b.blockno
      {
        if j < i {
          assert !bufs[i].Caches(bufs[j].dev, bufs[j].blockno);
        } else {
          assert !bufs[j].Caches(bufs[i].dev, bufs[i].blockno);
        }
      }
    }

    /** A locked buffer with the block's contents: the cached copy when there is
        a valid one, the disk block otherwise. */
    method BRead(blockno: nat) returns (ok: bool, i: nat)
      requires Valid() && blockno < |disk|
      requires forall j :: 0 <= j < NBUF && bufs[j].locked ==> !bufs[j].Caches(ROOTDEV, blockno)
      modifies `bufs, `disk, `trace
      ensures Valid() && disk == old(disk) && trace == old(trace)
      ensures ok ==> i < NBUF
      ensures ok && old(bufs[i]).Caches(ROOTDEV, blockno) ==>
                bufs == old(bufs)[i := old(bufs[i]).(
                          refcnt := old(bufs[i]).refcnt + 1, locked := true, valid := true,
                          data := if old(bufs[i]).valid then old(bufs[i]).data else disk[blockno])]
      ensures ok && !old(bufs[i]).Caches(ROOTDEV, blockno) ==>
                && (forall j :: 0 <= j < NBUF ==> !old(bufs[j]).Caches(ROOTDEV, blockno))
                && old(bufs[i]).Reusable()
                && bufs == old(bufs)[i := Buf(ROOTDEV, blockno, true, false, 1, true, disk[blockno])]
      ensures !ok ==>
                && bufs == old(bufs)
                && (forall j :: 0 <= j < NBUF ==> !bufs[j].Caches(ROOTDEV, blockno) && !bufs[j].Reusable())
    {
      ok, i := BGet(ROOTDEV, blockno);
      if ok && !bufs[i].valid {
        ok := IdeRw(i);
      }
    }

    /** Write a locked buffer to the disk; false where the code panics. */
    method BWrite(i: nat) returns (ok: bool)
      requires Valid() && i < NBUF
      modifies `bufs, `disk, `trace
      ensures Valid() && |disk| == old(|disk|)
      ensures ok <==> old(bufs[i]).locked && old(bufs[i]).dev == ROOTDEV && old(bufs[i]).blockno < old(|disk|)
      ensures ok ==>
                && bufs == old(bufs)[i := old(bufs[i]).(dirty := false, valid := true)]
                && trace == old(trace) + [Write(bufs[i].blockno, bufs[i].data)]
                && disk == old(disk)[bufs[i].blockno := bufs[i].data]
      ensures !ok ==> disk == old(disk) && trace == old(trace)
    {
      if !bufs[i].locked || bufs[i].dev != ROOTDEV {
        // holdingsleep fails here; iderw panics on the device
        return false;
      }
      bufs := bufs[i := bufs[i].(dirty := true, valid := true)];
      ok := IdeRw(i);
    }

    /** Unlock and drop the reference; the last one moves the buffer to the
        front of the list.  False where the code panics. */
    method BRelse(i: nat) returns (ok: bool)
      requires Valid() && i < NBUF
      requires bufs[i].locked && bufs[i].valid && !bufs[i].dirty ==>
                 bufs[i].blockno < |disk| && bufs[i].data == disk[bufs[i].blockno]
      modifies `bufs, `mru
      ensures Valid()
      ensures ok == old(bufs[i]).locked
      ensures !ok ==> bufs == old(bufs) && mru == old(mru)
      ensures ok ==> bufs == old(bufs)[i := old(bufs[i]).(locked := false, refcnt := old(bufs[i]).refcnt - 1)]
      ensures ok && bufs[i].refcnt == 0 ==> exists k :: 0 <= k < NBUF && old(mru)[k] == i && mru == MoveToFront(old(mru), k)
      ensures ok && bufs[i].refcnt > 0 ==> mru == old(mru)
    {
      if !bufs[i].locked {
        return false;
      }
      bufs := bufs[i := bufs[i].(locked := false, refcnt := bufs[i].refcnt - 1)];
      if bufs[i].refcnt == 0 {
        var k := 0;
        assert i in mru;
        while mru[k] != i
          invariant 0 <= k < NBUF
          invariant forall m :: 0 <= m < k ==> mru[m] != i
          decreases NBUF - k
        {
          k := k + 1;
        }
        MoveToFrontKeepsOrder(mru, NBUF, k);
        mru := MoveToFront(mru, k);
      }
      ok := true;
    }

    /** BRead when nothing else of this block is held, in terms of contents. */
    method ReadLocked(b: nat) returns (ok: bool, i: nat)
      requires Valid() && b < |disk|
      requires forall j :: 0 <= j < NBUF && bufs[j].locked ==> !bufs[j].Caches(ROOTDEV, b)
      modifies `bufs, `disk, `trace
      ensures Valid() && disk == old(disk) && trace == old(trace)
      ensures SameDirty(old(bufs), bufs, {})
      ensures ok ==>
                && i < NBUF && bufs[i].locked && bufs[i].valid && bufs[i].Caches(ROOTDEV, b)
                && Holds(old(bufs), disk, b, bufs[i].data)
                && (!bufs[i].dirty ==> bufs[i].data == disk[b])
                && !old(bufs[i].locked)
                && forall j :: 0 <= j < NBUF && j != i ==> bufs[j] == old(bufs[j])
      ensures !ok ==> bufs == old(bufs)
      ensures ok <==> CanRead(old(bufs), b)
      ensures ok ==> Referenced(old(bufs), bufs, i, i) && (old(bufs[i]).Caches(ROOTDEV, b) || old(bufs[i]).Reusable())
    {
      ok, i := BRead(b);
      if ok {
        forall j | 0 <= j < NBUF && old(bufs[j]).dirty && old(bufs[j]).blockno == b
          ensures i == j
        {
          SameBuffer(bufs, i, j, ROOTDEV, b);
        }
      }
    }

    method ReadBoth(first: nat, second: nat) returns (ok: bool, i: nat, j: nat)
      requires Valid() && NoneLocked(bufs)
      requires first < |disk| && second < |disk| && first != second
      modifies `bufs, `disk, `trace
      ensures Valid() && disk == old(disk) && trace == old(trace)
      ensures ok ==>
                && i < NBUF && j < NBUF && i != j
                && (forall k :: 0 <= k < NBUF ==> (bufs[k].locked <==> k == i || k == j))
                && bufs[i].valid && bufs[i].blockno == first && bufs[j].valid && bufs[j].blockno == second
                && (!bufs[i].dirty ==> bufs[i].data == disk[first])
                && (!bufs[j].dirty ==> bufs[j].data == disk[second])
                && SameDirty(old(bufs), bufs, {})
                && Holds(old(bufs), disk, first, bufs[i].data)
                && Holds(old(bufs), disk, second, bufs[j].data)
      ensures ok ==> CanRead(old(bufs), first) && Referenced(old(bufs), bufs, i, j)
      ensures TwoSpare(old(bufs)) || (Spare(old(bufs)) && Kept(old(bufs), second)) ==> ok
    {
      j := 0;
      ok, i := ReadLocked(first);
      if !ok { return; }
      StillRead(old(bufs), bufs, i, first, second);
      ok, j := ReadLocked(second);
    }

    /** Having taken buffer i for the first block there is one for the second. */
    static lemma StillRead(before: seq<Buf>, after: seq<Buf>, i: nat, first: nat, second: nat)
      requires |before| == |after| && i < |before| && first != second && forall j :: 0 <= j < |after| && j != i ==> after[j] == before[j]
      requires before[i].Caches(ROOTDEV, first) || before[i].Reusable()
      ensures TwoSpare(before) || (Spare(before) && Kept(before, second)) ==> CanRead(after, second)
    {
      if TwoSpare(before) {
        var x, y :| 0 <= x < y < |before| && before[x].Reusable() && before[y].Reusable();
        assert after[if x == i then y else x].Reusable();
      } else if Kept(before, second) {
        var x :| 0 <= x < |before| && before[x].Caches(ROOTDEV, second) && !before[x].Reusable();
        assert after[x].Caches(ROOTDEV, second);
      }
    }

    /** Copy one block onto another through the cache, as the loops of write_log
        and install_trans do: bread both (the log block first), memmove, bwrite
        the destination, brelse both. */
    method CopyBlock(first: nat, second: nat, toFirst: bool) returns (ok: bool)
      requires Valid() && NoneLocked(bufs)
      requires first < |disk| && second < |disk| && first != second
      modifies this
      ensures Valid() && |disk| == |old(disk)|
      ensures var src, dst := if toFirst then second else first, if toFirst then first else second;
              ok ==>
                && NoneLocked(bufs)
                && SameDirty(old(bufs), bufs, {dst})
                && Holds(old(bufs), old(disk), src, disk[dst])
                && disk == old(disk)[dst := disk[dst]]
                && trace == old(trace) + [Write(dst, disk[dst])]
      ensures !ok ==> disk == old(disk) && trace == old(trace)
      ensures ok ==> CanRead(old(bufs), first) && Steady(old(bufs), bufs)
      ensures TwoSpare(old(bufs)) || (Spare(old(bufs)) && Kept(old(bufs), second)) ==> ok
    {
      var i, j;
      ok, i, j := ReadBoth(first, second);
      if !ok { return; }
      var from, to := if toFirst then j else i, if toFirst then i else j;
      ghost var during := bufs;
      FinishCopy(from, to);
      SteadyAfter(old(bufs), during, bufs, from, to, {during[to].blockno});
    }

    /** The second half of CopyBlock, with just the two buffers locked. */
    method FinishCopy(from: nat, to: nat)
      requires Valid() && from < NBUF && to < NBUF && from != to
      requires forall j :: 0 <= j < NBUF ==> (bufs[j].locked <==> j == from || j == to)
      requires bufs[from].valid && bufs[to].valid && bufs[from].blockno < |disk| && bufs[to].blockno < |disk|
      requires !bufs[from].dirty ==> bufs[from].data == disk[bufs[from].blockno]
      modifies this
      ensures Valid() && NoneLocked(bufs) && |disk| == |old(disk)|
      ensures SameDirty(old(bufs), bufs, {old(bufs[to]).blockno})
      ensures disk == old(disk)[old(bufs[to]).blockno := old(bufs[from]).data]
      ensures trace == old(trace) + [Write(old(bufs[to]).blockno, old(bufs[from]).data)]
      ensures Dropped(old(bufs), bufs, from, to)
    {
      forall j | 0 <= j < NBUF && j != to && bufs[j].valid
        ensures bufs[j].blockno != bufs[to].blockno
      {
        if bufs[j].blockno == bufs[to].blockno {
          SameBuffer(bufs, j, to, ROOTDEV, bufs[to].blockno);
        }
      }
      Transfer(from, to);
      BRelseBoth(from, to);
    }

    method BRelseBoth(i: nat, j: nat)
      requires Valid() && i < NBUF && j < NBUF && i != j
      requires bufs[i].locked && bufs[j].locked && bufs[i].valid && bufs[j].valid
      requires bufs[i].blockno < |disk| && bufs[j].blockno < |disk|
      requires !bufs[i].dirty ==> bufs[i].data == disk[bufs[i].blockno]
      requires !bufs[j].dirty ==> bufs[j].data == disk[bufs[j].blockno]
      modifies `bufs, `mru
      ensures Valid()
      ensures bufs == old(bufs)[i := old(bufs[i]).(locked := false, refcnt := old(bufs[i]).refcnt - 1)]
                               [j := old(bufs[j]).(locked := false, refcnt := old(bufs[j]).refcnt - 1)]
    {
      var done := BRelse(i);
      done := BRelse(j);
    }

    /** memmove and bwrite, with both buffers locked. */
    method Transfer(from: nat, to: nat)
      requires Valid() && from < NBUF && to < NBUF && from != to
      requires bufs[from].locked && bufs[from].valid
      requires bufs[to].locked && bufs[to].valid && bufs[to].blockno < |disk|
      modifies `bufs, `disk, `trace
      ensures Valid() && |disk| == |old(disk)|
      ensures bufs == old(bufs)[to := old(bufs[to]).(dirty := false, data := old(bufs[from]).data)]
      ensures disk == old(disk)[bufs[to].blockno := bufs[to].data]
      ensures trace == old(trace) + [Write(bufs[to].blockno, bufs[to].data)]
    {
      Refill(to, bufs[from].data);
    }

    /** New contents for the one locked buffer, written and released. */
    method Store(i: nat, data: Block)
      requires Valid() && i < NBUF && bufs[i].valid && !bufs[i].dirty && bufs[i].blockno < |disk|
      requires forall j :: 0 <= j < NBUF ==> (bufs[j].locked <==> j == i)
      modifies this
      ensures Valid() && NoneLocked(bufs) && |disk| == |old(disk)| && SameDirty(old(bufs), bufs, {})
      ensures disk == old(disk)[old(bufs[i]).blockno := data]
      ensures trace == old(trace) + [Write(old(bufs[i]).blockno, data)]
      ensures Dropped(old(bufs), bufs, i, i)
    {
      Refill(i, data);
      var done := BRelse(i);
    }

    method Refill(i: nat, data: Block)
      requires Valid() && i < NBUF && bufs[i].locked && bufs[i].valid && bufs[i].blockno < |disk|
      modifies `bufs, `disk, `trace
      ensures Valid() && |disk| == |old(disk)|
      ensures bufs == old(bufs)[i := old(bufs[i]).(dirty := false, data := data)]
      ensures disk == old(disk)[bufs[i].blockno := data]
      ensures trace == old(trace) + [Write(bufs[i].blockno, data)]
    {
      bufs := bufs[i := bufs[i].(data := data)];
      var done := BWrite(i);
    }
  }
}
