/** The redo log (log.c) as imperative code over the buffer cache.  Each method
    states exactly which block writes it issues, so that every moment at which
    the machine could stop is a prefix of a known list of writes. */
module RedoLog {
  import opened LogSpec
  import opened BufferCache

  /** The dirty buffers are the pending blocks lh, and hold the contents view. */
  ghost predicate Pins(bufs: seq<Buf>, lh: seq<nat>, view: Image) {
    && (forall j :: 0 <= j < |bufs| && bufs[j].dirty ==>
          bufs[j].blockno in lh && bufs[j].blockno < |view| && bufs[j].data == view[bufs[j].blockno])
    && (forall b :: b in lh ==> exists j :: IsPin(bufs, j, b))
  }

  ghost predicate IsPin(bufs: seq<Buf>, j: int, b: nat) {
    0 <= j < |bufs| && bufs[j].dirty && bufs[j].Caches(ROOTDEV, b)
  }

  /** Only buffers of the blocks lh are dirty. */
  ghost predicate DirtyOnly(bufs: seq<Buf>, lh: seq<nat>) {
    forall j :: 0 <= j < |bufs| && bufs[j].dirty ==> bufs[j].blockno in lh
  }

  /** Every block of bs is pinned. */
  ghost predicate AllPinned(bufs: seq<Buf>, bs: seq<nat>) {
    forall b :: b in bs ==> exists j :: IsPin(bufs, j, b)
  }

  lemma PinnedKept(bufs: seq<Buf>, b: nat)
    requires exists j :: IsPin(bufs, j, b)
    ensures Kept(bufs, b)
  {
  }

  /** Cleaning the block at the head of the list leaves the others pinned. */
  lemma PinnedOn(before: seq<Buf>, after: seq<Buf>, lh: seq<nat>, tail: nat)
    requires tail < |lh| && NoRepeats(lh[tail..]) && AllPinned(before, lh[tail..]) && SameDirty(before, after, {lh[tail]})
    ensures AllPinned(after, lh[tail + 1..])
  {
    var all, rest := lh[tail..], lh[tail + 1..];
    forall b | b in rest
      ensures exists j :: IsPin(after, j, b)
    {
      var k :| 0 <= k < |rest| && rest[k] == b;
      assert all[k + 1] == b && all[0] == lh[tail];
      assert b in all;
      var j :| IsPin(before, j, b);
      assert IsPin(after, j, b);
    }
  }

  /** There are buffers enough for install_trans: two, or one while its targets are
      pinned. */
  ghost predicate Installable(bufs: seq<Buf>, bs: seq<nat>) {
    TwoSpare(bufs) || (Spare(bufs) && AllPinned(bufs, bs) && NoRepeats(bs))
  }

  lemma CanInstall(bufs: seq<Buf>, lh: seq<nat>, tail: nat)
    requires tail < |lh|
    ensures Installable(bufs, lh[tail..]) ==> TwoSpare(bufs) || (Spare(bufs) && Kept(bufs, lh[tail]))
  {
    assert lh[tail] in lh[tail..];
    if Installable(bufs, lh[tail..]) && !TwoSpare(bufs) {
      PinnedKept(bufs, lh[tail]);
    }
  }

  lemma StillInstallable(before: seq<Buf>, after: seq<Buf>, lh: seq<nat>, tail: nat)
    requires tail < |lh| && Steady(before, after) && SameDirty(before, after, {lh[tail]})
    ensures Installable(before, lh[tail..]) ==> Installable(after, lh[tail + 1..])
  {
    SteadySpare(before, after);
    if Installable(before, lh[tail..]) && !TwoSpare(before) {
      PinnedOn(before, after, lh, tail);
      assert lh[tail..][1..] == lh[tail + 1..];
    }
  }

  lemma StillPinned(before: seq<Buf>, after: seq<Buf>, lh: seq<nat>)
    requires SameDirty(before, after, {})
    ensures AllPinned(before, lh) ==> AllPinned(after, lh)
  {
    if AllPinned(before, lh) {
      forall b | b in lh
        ensures exists j :: IsPin(after, j, b)
      {
        var j :| IsPin(before, j, b);
        assert IsPin(after, j, b);
      }
    }
  }

  /** Nobody has a buffer of a log block. */
  ghost predicate LogIdle(l: Layout, bufs: seq<Buf>) {
    forall j :: 0 <= j < |bufs| && bufs[j].dev == ROOTDEV && l.start <= bufs[j].blockno < l.start + l.size ==> bufs[j].refcnt == 0
  }

  /** Then a log block is in the cache only where a buffer is spare. */
  lemma IdleRead(l: Layout, bufs: seq<Buf>, lh: seq<nat>, n: nat, b: nat)
    requires LogIdle(l, bufs) && DirtyOnly(bufs, lh) && Loggable(l, lh, n) && l.start <= b < l.start + l.size
    ensures CanRead(bufs, b) <==> Spare(bufs)
  {
    if Cached(bufs, b) {
      var j :| 0 <= j < |bufs| && bufs[j].Caches(ROOTDEV, b);
      assert bufs[j].Reusable();
    }
  }

  lemma PinsKept(before: seq<Buf>, after: seq<Buf>, cleaned: set<nat>, lh: seq<nat>, view: Image)
    requires Pins(before, lh, view) && SameDirty(before, after, cleaned)
    requires forall b :: b in cleaned ==> b !in lh
    ensures Pins(after, lh, view)
  {
    forall b | b in lh
      ensures exists j :: IsPin(after, j, b)
    {
      var j :| IsPin(before, j, b);
      assert IsPin(after, j, b);
    }
  }

  /** A pending block reads as its pinned contents, any other as the disk block. */
  lemma HoldsView(bufs: seq<Buf>, lh: seq<nat>, view: Image, disk: Image, b: nat, data: Block)
    requires Pins(bufs, lh, view) && Holds(bufs, disk, b, data)
    ensures b in lh ==> data == view[b]
    ensures b !in lh ==> data == disk[b]
  {
    if b in lh {
      var j :| IsPin(bufs, j, b);
    }
  }

  lemma PrefixChain<T>(t0: seq<T>, u: seq<T>, t: seq<T>, v: seq<T>)
    requires t0 + u <= t <= t0 + u + v
    ensures t0 <= t <= t0 + (u + v)
    ensures t == t0 + u + v ==> t == t0 + (u + v)
  {
    assert t0 + u + v == t0 + (u + v);
  }

  lemma PrefixStart<T>(t0: seq<T>, u: seq<T>, t: seq<T>, v: seq<T>)
    requires t0 <= t <= t0 + u
    ensures t0 <= t <= t0 + (u + v)
  {
    assert t0 + (u + v) == t0 + u + v;
  }

  /** The log area of both images is the same. */
  ghost predicate SameLog(l: Layout, d: Image, e: Image) {
    |d| == |e| && forall b :: l.start <= b < l.start + l.size && b < |d| ==> d[b] == e[b]
  }

  /** Installing one more block leaves the log area alone and issues the next write. */
  lemma InstalledOne(l: Layout, d: Image, n: Image, ws: seq<Write>, t0: seq<Write>, t: seq<Write>, lh: seq<nat>, tail: nat)
    requires l.Fits(d) && Loggable(l, lh, |d|) && tail < |lh| && ws == Installs(l, lh, d)
    requires |n| == |d| && (forall b :: l.start <= b < l.start + l.size && b < |d| ==> n[b] == d[b] || b == lh[tail])
    requires t == t0 + ws[..tail] + [ws[tail]]
    ensures SameLog(l, n, d) && t == t0 + ws[..tail + 1]
  {
    assert ws[..tail + 1] == ws[..tail] + [ws[tail]];
  }

  /** The log blocks, then the header. */
  lemma BeginParts(l: Layout, lh: seq<nat>, view: Image, d: Image) returns (copies: seq<Write>, head: Write)
    requires l.Fits(d) && |view| == |d| && Loggable(l, lh, |d|)
    ensures copies == LogCopies(l, lh, view) && head == Write(l.start, EncodeHead(d[l.start], lh))
    ensures CommitBegin(l, lh, view, d) == copies + [head]
  {
    copies, head := LogCopies(l, lh, view), Write(l.start, EncodeHead(d[l.start], lh));
  }

  /** The home blocks, then the empty header. */
  lemma FinishParts(l: Layout, lh: seq<nat>, d: Image) returns (ws: seq<Write>, head: Write)
    requires l.Fits(d) && Loggable(l, lh, |d|)
    ensures ws == Installs(l, lh, d) && head == Write(l.start, EncodeHead(d[l.start], []))
    ensures Finish(l, lh, d) == ws + [head]
  {
    ws, head := Installs(l, lh, d), Write(l.start, EncodeHead(d[l.start], []));
  }

  /** The writes up to the commit point and those after it. */
  lemma Halves(l: Layout, lh: seq<nat>, view: Image, d: Image) returns (begin: seq<Write>, fin: seq<Write>, all: seq<Write>)
    requires l.Fits(d) && |view| == |d| && Loggable(l, lh, |d|) && lh != []
    ensures begin == CommitBegin(l, lh, view, d) && |Apply(d, begin)| == |d| && l.Fits(Apply(d, begin))
    ensures fin == Finish(l, lh, Apply(d, begin)) && all == CommitWrites(l, lh, view, d) == begin + fin
  {
    begin := CommitBegin(l, lh, view, d);
    fin := Finish(l, lh, Apply(d, begin));
    all := begin + fin;
  }

  /** Once every commit write is done, the disk alone holds the contents. */
  lemma Settled(l: Layout, lh: seq<nat>, view: Image, base: Image, t0: seq<Write>, d: Image, t1: seq<Write>, e: Image)
    requires InRange(t0, |base|) && d == Apply(base, t0)
    requires l.Fits(d) && |view| == |d| && Loggable(l, lh, |d|) && NoRepeats(lh)
    requires HeadOk(l, d) && HeadCount(d[l.start]) == 0
    requires t1 == t0 + CommitWrites(l, lh, view, d)
    requires InRange(t1, |base|) && e == Apply(base, t1)
    requires forall b :: 0 <= b < |view| && l.IsHome(b) && b !in lh ==> view[b] == d[b]
    ensures |e| == |d| && HeadOk(l, e) && HeadCount(e[l.start]) == 0
    ensures forall b :: 0 <= b < |view| && l.IsHome(b) ==> view[b] == e[b]
  {
    ApplyConcat(base, t0, CommitWrites(l, lh, view, d));
    CommitComplete(l, lh, view, d);
  }

  class Log {
    const cache: Bcache
    const layout: Layout
    var lh: seq<nat>            // lh.n and lh.block[]
    var outstanding: nat
    var committing: bool
    ghost var view: Image       // contents of every home block, with pending updates

    /** Between commits: the on-disk log is empty, the pending blocks are pinned
        in the cache, and disk plus pins give the current contents. */
    ghost predicate Valid()
      reads this, cache
    {
      && cache.Valid()
      && layout.Fits(cache.disk)
      && |view| == |cache.disk|
      && |lh| <= LOGSIZE
      && Loggable(layout, lh, |cache.disk|)
      && NoRepeats(lh)
      && HeadOk(layout, cache.disk) && HeadCount(cache.disk[layout.start]) == 0
      && Pins(cache.bufs, lh, view)
      && (forall b :: 0 <= b < |view| && layout.IsHome(b) && b !in lh ==> view[b] == cache.disk[b])
    }

    constructor (c: Bcache, l: Layout)
      ensures cache == c && layout == l && lh == [] && outstanding == 0 && !committing && view == c.disk
    {
      cache, layout, lh, outstanding, committing, view := c, l, [], 0, false, c.disk;
    }

    /** One turn of begin_op's loop; false where the caller goes to sleep. */
    method BeginOp() returns (admitted: bool)
      requires Valid()
      modifies `outstanding
      ensures Valid()
      ensures admitted <==> !committing && |lh| + (old(outstanding) + 1) * MAXOPBLOCKS <= LOGSIZE
      ensures outstanding == old(outstanding) + if admitted then 1 else 0
    {
      if committing {
        return false;
      } else if |lh| + (outstanding + 1) * MAXOPBLOCKS > LOGSIZE {
        return false;
      }
      outstanding := outstanding + 1;
      admitted := true;
    }

    /** end_op, commit included when this was the last open operation.  False
        where the code panics; nothing has been written to the disk then unless
        the commit itself was cut short. */
    method EndOp() returns (ok: bool)
      requires Valid() && outstanding >= 1
      requires outstanding == 1 ==> NoneLocked(cache.bufs)
      modifies this`outstanding, this`committing, this`lh, cache
      ensures cache.Valid() && outstanding == old(outstanding) - 1
      ensures ok ==> Valid() && !committing
      ensures old(committing) ==> !ok && cache.trace == old(cache.trace)
      ensures old(outstanding) > 1 ==> cache.trace == old(cache.trace) && lh == old(lh)
      ensures old(outstanding) > 1 ==> (ok <==> !old(committing))
      ensures old(outstanding) == 1 && !old(committing) && (old(lh) == [] || Spare(old(cache.bufs))) ==> ok
      ensures old(outstanding) == 1 && LogIdle(layout, old(cache.bufs)) ==>
                (ok <==> !old(committing) && (old(lh) == [] || Spare(old(cache.bufs))))
      ensures old(outstanding) == 1 ==>
                old(cache.trace) <= cache.trace <= old(cache.trace) + CommitWrites(layout, old(lh), view, old(cache.disk))
      ensures old(outstanding) == 1 && ok ==>
                lh == [] && cache.trace == old(cache.trace) + CommitWrites(layout, old(lh), view, old(cache.disk))
    {
      outstanding := outstanding - 1;
      if committing {
        return false;
      }
      if outstanding == 0 {
        committing := true;
        ok := Commit();
        committing := false;
      } else {
        ok := true;
      }
    }

    /** bread of a home block: the latest logged contents, whether they are in a
        pinned buffer, in a clean one, or only on the disk. */
    method ReadHome(b: nat) returns (ok: bool, i: nat)
      requires Valid()
      requires forall j :: 0 <= j < NBUF && cache.bufs[j].locked ==> !cache.bufs[j].Caches(ROOTDEV, b)
      requires b < |cache.disk| && layout.IsHome(b)
      modifies cache`bufs, cache`disk, cache`trace
      ensures Valid() && cache.disk == old(cache.disk) && cache.trace == old(cache.trace)
      ensures ok ==>
                && i < NBUF && cache.bufs[i].Caches(ROOTDEV, b)
                && cache.bufs[i].locked && cache.bufs[i].valid
                && cache.bufs[i].data == view[b]
      ensures ok ==> forall j :: 0 <= j < NBUF && j != i ==> cache.bufs[j] == old(cache.bufs[j])
      ensures !ok ==> cache.bufs == old(cache.bufs)
      ensures ok <==> CanRead(old(cache.bufs), b)
    {
      ok, i := cache.ReadLocked(b);
      PinsKept(old(cache.bufs), cache.bufs, {}, lh, view);
      if ok {
        HoldsView(old(cache.bufs), lh, view, cache.disk, b, cache.bufs[i].data);
      }
    }

    /** log_write: record the block once and pin its buffer.  False where the
        code panics, which it does exactly when the log is full or no operation
        is open. */
    method LogWrite(i: nat) returns (ok: bool)
      requires Valid() && i < NBUF
      requires cache.bufs[i].valid && cache.bufs[i].locked
      requires cache.bufs[i].blockno < |cache.disk| && layout.IsHome(cache.bufs[i].blockno)
      modifies this`lh, this`view, cache`bufs
      ensures Valid()
      ensures ok <==> |old(lh)| < LOGSIZE && |old(lh)| < layout.size - 1 && outstanding >= 1
      ensures !ok ==> lh == old(lh) && cache.bufs == old(cache.bufs) && view == old(view)
      ensures ok ==>
                var b := old(cache.bufs[i]).blockno;
                && lh == (if b in old(lh) then old(lh) else old(lh) + [b])
                && cache.bufs == old(cache.bufs)[i := old(cache.bufs[i]).(dirty := true)]
                && view == old(view)[b := old(cache.bufs[i]).data]
    {
      if |lh| >= LOGSIZE || |lh| >= layout.size - 1 {
        return false;
      }
      if outstanding < 1 {
        return false;
      }
      var b := cache.bufs[i];
      PinsAfterLogWrite(cache.bufs, lh, view, i);
      var k := Absorb(b.blockno);
      if k == |lh| {
        lh := lh + [b.blockno];
      } else {
        lh := lh[k := b.blockno];
        assert lh == old(lh);
      }
      cache.bufs := cache.bufs[i := b.(dirty := true)];
      view := view[b.blockno := b.data];
      ok := true;
    }

    /** Where the block is already listed, or the end of the list. */
    method Absorb(b: nat) returns (k: nat)
      ensures k <= |lh|
      ensures k < |lh| ==> lh[k] == b
      ensures k == |lh| <==> b !in lh
    {
      k := 0;
      while k < |lh| && lh[k] != b
        invariant 0 <= k <= |lh|
        invariant forall m :: 0 <= m < k ==> lh[m] != b
      {
        k := k + 1;
      }
    }

    static lemma PinsAfterLogWrite(bufs: seq<Buf>, lh0: seq<nat>, view0: Image, i: nat)
      requires Pins(bufs, lh0, view0) && Unique(bufs) && FlagsOk(bufs) && i < |bufs|
      requires bufs[i].valid && bufs[i].blockno < |view0|
      ensures var b := bufs[i].blockno;
              Pins(bufs[i := bufs[i].(dirty := true)], if b in lh0 then lh0 else lh0 + [b], view0[b := bufs[i].data])
    {
      var b := bufs[i].blockno;
      var next := bufs[i := bufs[i].(dirty := true)];
      var lh1 := if b in lh0 then lh0 else lh0 + [b];
      forall j | 0 <= j < |bufs| && bufs[j].dirty && bufs[j].blockno == b
        ensures i == j
      {
        SameBuffer(bufs, i, j, ROOTDEV, b);
      }
      forall x | x in lh1
        ensures exists j :: IsPin(next, j, x)
      {
        if x == b {
          assert IsPin(next, i, x);
        } else {
          var j :| IsPin(bufs, j, x);
          assert IsPin(next, j, x);
        }
      }
    }

    /** write_log: copy the pinned blocks into the log blocks. */
    method WriteLog(ghost copies: seq<Write>) returns (ok: bool)
      requires cache.Valid() && layout.Fits(cache.disk) && |view| == |cache.disk|
      requires Loggable(layout, lh, |cache.disk|) && copies == LogCopies(layout, lh, view)
      requires NoneLocked(cache.bufs) && Pins(cache.bufs, lh, view)
      modifies cache
      ensures cache.Valid() && |cache.disk| == |old(cache.disk)|
      ensures ok ==> NoneLocked(cache.bufs) && Pins(cache.bufs, lh, view)
      ensures ok ==> cache.disk[layout.start] == old(cache.disk)[layout.start]
      ensures ok ==> cache.trace == old(cache.trace) + copies
      ensures old(cache.trace) <= cache.trace <= old(cache.trace) + copies
      ensures ok ==> Steady(old(cache.bufs), cache.bufs)
      ensures Spare(old(cache.bufs)) ==> ok
      ensures lh != [] && LogIdle(layout, old(cache.bufs)) && !Spare(old(cache.bufs)) ==> !ok
    {
      var tail := 0;
      ghost var t0, b0, head := cache.trace, cache.bufs, cache.disk[layout.start];
      ghost var stuck := LogIdle(layout, b0) && !Spare(b0);
      while tail < |lh|
        invariant 0 <= tail <= |lh|
        invariant cache.Valid() && |cache.disk| == |view|
        invariant NoneLocked(cache.bufs) && Pins(cache.bufs, lh, view) && cache.disk[layout.start] == head
        invariant cache.trace == t0 + copies[..tail] && Steady(b0, cache.bufs)
        invariant stuck ==> tail == 0 && cache.bufs == b0
      {
        ok, tail := CopyNext(tail, copies, t0, b0, head);
        if !ok { return; }
      }
      assert copies[..tail] == copies;
      ok := true;
    }

    /** One turn of the write_log loop. */
    method CopyNext(tail: nat, ghost copies: seq<Write>, ghost t0: seq<Write>, ghost b0: seq<Buf>, ghost head: Block) returns (ok: bool, next: nat)
      requires cache.Valid() && layout.Fits(cache.disk) && |view| == |cache.disk|
      requires Loggable(layout, lh, |cache.disk|) && tail < |lh| && copies == LogCopies(layout, lh, view)
      requires NoneLocked(cache.bufs) && Pins(cache.bufs, lh, view) && cache.disk[layout.start] == head
      requires cache.trace == t0 + copies[..tail] && Steady(b0, cache.bufs)
      modifies cache
      ensures cache.Valid() && |cache.disk| == |view| && next == tail + 1
      ensures ok ==> NoneLocked(cache.bufs) && Pins(cache.bufs, lh, view) && cache.disk[layout.start] == head
      ensures ok ==> cache.trace == t0 + copies[..next] && Steady(b0, cache.bufs)
      ensures !ok ==> cache.trace == t0 + copies[..tail]
      ensures (Spare(b0) ==> ok) && (LogIdle(layout, old(cache.bufs)) && !Spare(old(cache.bufs)) ==> !ok)
    {
      ghost var was := cache.bufs;
      SteadySpare(b0, was);
      next := tail + 1;
      ok := CopyToLog(tail);
      if ok {
        SteadyOn(b0, was, cache.bufs);
        assert copies[..next] == copies[..tail] + [copies[tail]];
      }
    }

    /** The log block's copy. */
    method CopyToLog(tail: nat) returns (ok: bool)
      requires cache.Valid() && layout.Fits(cache.disk) && |view| == |cache.disk|
      requires Loggable(layout, lh, |cache.disk|) && tail < |lh|
      requires NoneLocked(cache.bufs) && Pins(cache.bufs, lh, view)
      modifies cache
      ensures cache.Valid() && |cache.disk| == |old(cache.disk)|
      ensures ok ==> NoneLocked(cache.bufs) && Pins(cache.bufs, lh, view)
      ensures ok ==> cache.disk[layout.start] == old(cache.disk)[layout.start]
      ensures ok ==> cache.trace == old(cache.trace) + [Write(layout.LogBlock(tail), view[lh[tail]])]
      ensures !ok ==> cache.trace == old(cache.trace)
      ensures ok ==> Steady(old(cache.bufs), cache.bufs)
      ensures Spare(old(cache.bufs)) ==> ok
      ensures LogIdle(layout, old(cache.bufs)) && !Spare(old(cache.bufs)) ==> !ok
    {
      assert lh[tail] in lh;
      PinnedKept(cache.bufs, lh[tail]);
      if LogIdle(layout, cache.bufs) {
        IdleRead(layout, cache.bufs, lh, |cache.disk|, layout.start + tail + 1);
      }
      ok := cache.CopyBlock(layout.start + tail + 1, lh[tail], true);
      if !ok { return; }
      HoldsView(old(cache.bufs), lh, view, old(cache.disk), lh[tail], cache.disk[layout.LogBlock(tail)]);
      PinsKept(old(cache.bufs), cache.bufs, {layout.LogBlock(tail)}, lh, view);
    }

    /** write_head: store the in-memory header into the header block. */
    method WriteHead(ghost w: Write) returns (ok: bool)
      requires cache.Valid() && layout.Fits(cache.disk) && NoneLocked(cache.bufs)
      requires |lh| < WORDS && w == Write(layout.start, EncodeHead(cache.disk[layout.start], lh))
      requires forall j :: 0 <= j < NBUF && cache.bufs[j].dirty ==> cache.bufs[j].blockno != layout.start
      modifies cache
      ensures cache.Valid() && |cache.disk| == |old(cache.disk)|
      ensures ok ==> NoneLocked(cache.bufs) && SameDirty(old(cache.bufs), cache.bufs, {})
      ensures ok ==> cache.trace == old(cache.trace) + [w] && cache.disk == old(cache.disk)[layout.start := w.data]
      ensures !ok ==> cache.trace == old(cache.trace)
      ensures (ok <==> CanRead(old(cache.bufs), layout.start)) && (ok ==> Steady(old(cache.bufs), cache.bufs))
    {
      var buf;
      ok, buf := cache.ReadLocked(layout.start);
      if !ok { return; }
      var head := FillHead(cache.bufs[buf].data);
      ghost var during := cache.bufs;
      cache.Store(buf, head);
      SteadyAfter(old(cache.bufs), during, cache.bufs, buf, buf, {});
    }

    method FillHead(hb: Block) returns (head: Block)
      requires |lh| < WORDS
      ensures head == EncodeHead(hb, lh)
    {
      head := hb[0 := |lh|];
      var k := 0;
      while k < |lh|
        invariant 0 <= k <= |lh|
        invariant head[0] == |lh|
        invariant forall m :: 0 <= m < k ==> head[1 + m] == lh[m]
        invariant forall m :: 1 + k <= m < WORDS ==> head[m] == hb[m]
      {
        head := head[1 + k := lh[k]];
        k := k + 1;
      }
    }

    /** install_trans: copy the log blocks to their home locations. */
    method InstallTrans(ghost ws: seq<Write>) returns (ok: bool)
      requires cache.Valid() && layout.Fits(cache.disk) && NoneLocked(cache.bufs)
      requires Loggable(layout, lh, |cache.disk|) && DirtyOnly(cache.bufs, lh) && ws == Installs(layout, lh, cache.disk)
      modifies cache
      ensures cache.Valid() && |cache.disk| == |old(cache.disk)|
      ensures ok ==> NoneLocked(cache.bufs) && DirtyOnly(cache.bufs, [])
      ensures ok ==> cache.trace == old(cache.trace) + ws
      ensures ok ==> cache.disk[layout.start] == old(cache.disk)[layout.start]
      ensures old(cache.trace) <= cache.trace <= old(cache.trace) + ws
      ensures ok ==> Steady(old(cache.bufs), cache.bufs)
      ensures Installable(old(cache.bufs), lh) ==> ok
    {
      var tail := 0;
      ghost var d, t0, b0 := cache.disk, cache.trace, cache.bufs;
      ghost var room := Installable(b0, lh);
      assert lh[0..] == lh;
      while tail < |lh|
        invariant 0 <= tail <= |lh| && cache.Valid() && |cache.disk| == |d|
        invariant NoneLocked(cache.bufs) && DirtyOnly(cache.bufs, lh[tail..])
        invariant SameLog(layout, cache.disk, d) && cache.trace == t0 + ws[..tail]
        invariant Steady(b0, cache.bufs) && (room ==> Installable(cache.bufs, lh[tail..]))
      {
        ok, tail := InstallNext(tail, ws, d, t0, b0, room);
        if !ok { return; }
      }
      assert ws[..tail] == ws;
      assert lh[tail..] == [];
      ok := true;
    }

    /** One turn of the install_trans loop. */
    method InstallNext(tail: nat, ghost ws: seq<Write>, ghost d: Image, ghost t0: seq<Write>, ghost b0: seq<Buf>, ghost room: bool)
      returns (ok: bool, next: nat)
      requires cache.Valid() && |cache.disk| == |d| && layout.Fits(d) && NoneLocked(cache.bufs)
      requires Loggable(layout, lh, |d|) && tail < |lh| && DirtyOnly(cache.bufs, lh[tail..]) && ws == Installs(layout, lh, d)
      requires SameLog(layout, cache.disk, d) && cache.trace == t0 + ws[..tail]
      requires Steady(b0, cache.bufs) && (room ==> Installable(cache.bufs, lh[tail..]))
      modifies cache
      ensures cache.Valid() && |cache.disk| == |d| && next == tail + 1
      ensures ok ==> NoneLocked(cache.bufs) && DirtyOnly(cache.bufs, lh[next..])
      ensures ok ==> SameLog(layout, cache.disk, d) && cache.trace == t0 + ws[..next]
      ensures !ok ==> cache.trace == t0 + ws[..tail]
      ensures (room ==> ok && Installable(cache.bufs, lh[next..])) && (ok ==> Steady(b0, cache.bufs))
    {
      ghost var was := cache.bufs;
      next := tail + 1;
      ok := InstallOne(tail);
      if ok {
        SteadyOn(b0, was, cache.bufs);
        InstalledOne(layout, d, cache.disk, ws, t0, cache.trace, lh, tail);
      }
    }

    /** The home block's copy. */
    method InstallOne(tail: nat) returns (ok: bool)
      requires cache.Valid() && layout.Fits(cache.disk) && NoneLocked(cache.bufs)
      requires Loggable(layout, lh, |cache.disk|) && tail < |lh| && DirtyOnly(cache.bufs, lh[tail..])
      modifies cache
      ensures cache.Valid() && |cache.disk| == |old(cache.disk)|
      ensures ok ==> NoneLocked(cache.bufs) && DirtyOnly(cache.bufs, lh[tail + 1..])
      ensures ok ==> cache.trace == old(cache.trace) + [Write(lh[tail], old(cache.disk)[layout.LogBlock(tail)])]
      ensures ok ==> cache.disk == old(cache.disk)[lh[tail] := old(cache.disk)[layout.LogBlock(tail)]]
      ensures !ok ==> cache.trace == old(cache.trace)
      ensures ok ==> Steady(old(cache.bufs), cache.bufs)
      ensures Installable(old(cache.bufs), lh[tail..]) ==> ok && Installable(cache.bufs, lh[tail + 1..])
    {
      assert lh[tail..] == [lh[tail]] + lh[tail + 1..];
      CanInstall(cache.bufs, lh, tail);
      ok := cache.CopyBlock(layout.start + tail + 1, lh[tail], false);
      if !ok { return; }
      StillInstallable(old(cache.bufs), cache.bufs, lh, tail);
    }

    /** commit: false where the machine stops on a panic.  Whatever happens, the
        writes issued are a prefix of CommitWrites, so stopping at any moment and
        recovering leaves the old home blocks or the new ones. */
    method Commit() returns (ok: bool)
      requires Valid() && NoneLocked(cache.bufs)
      modifies this`lh, cache
      ensures cache.Valid() && |cache.disk| == |old(cache.disk)|
      ensures old(cache.trace) <= cache.trace
              <= old(cache.trace) + CommitWrites(layout, old(lh), view, old(cache.disk))
      ensures ok ==> cache.trace == old(cache.trace) + CommitWrites(layout, old(lh), view, old(cache.disk))
      ensures ok ==> Valid() && NoneLocked(cache.bufs) && lh == []
      ensures forall m :: |old(cache.trace)| <= m <= |cache.trace| ==>
                AtomicAt(layout, old(lh), view, cache.base, |old(cache.trace)|, old(cache.disk), cache.trace, m)
      ensures old(lh) == [] || Spare(old(cache.bufs)) ==> ok
      ensures LogIdle(layout, old(cache.bufs)) ==> (ok <==> old(lh) == [] || Spare(old(cache.bufs)))
    {
      if |lh| > 0 {
        ok := CommitBody();
      } else {
        ok := true;
      }
      forall m | |old(cache.trace)| <= m <= |cache.trace|
        ensures AtomicAt(layout, old(lh), view, cache.base, |old(cache.trace)|, old(cache.disk), cache.trace, m)
      {
        CutCommit(layout, old(lh), view, cache.base, old(cache.trace), old(cache.disk), cache.trace, m);
      }
    }

    method CommitBody() returns (ok: bool)
      requires Valid() && NoneLocked(cache.bufs) && lh != []
      modifies this`lh, cache
      ensures cache.Valid() && |cache.disk| == |old(cache.disk)|
      ensures old(cache.trace) <= cache.trace
              <= old(cache.trace) + CommitWrites(layout, old(lh), view, old(cache.disk))
      ensures ok ==> cache.trace == old(cache.trace) + CommitWrites(layout, old(lh), view, old(cache.disk))
      ensures ok ==> Valid() && NoneLocked(cache.bufs) && lh == []
      ensures Spare(old(cache.bufs)) ==> ok
      ensures LogIdle(layout, old(cache.bufs)) && !Spare(old(cache.bufs)) ==> !ok
    {
      ghost var d := cache.disk;
      ghost var t0 := cache.trace;
      ghost var begin, fin, all := Halves(layout, lh, view, d);
      ghost var copies, w := BeginParts(layout, lh, view, d);
      ok := ToCommitPoint(copies, w, begin);
      if !ok {
        PrefixStart(t0, begin, cache.trace, fin);
        return;
      }
      ok := CommitRest(t0, d, begin, fin, all);
    }

    /** From the commit point on. */
    method CommitRest(ghost t0: seq<Write>, ghost d: Image, ghost begin: seq<Write>, ghost fin: seq<Write>, ghost all: seq<Write>) returns (ok: bool)
      requires cache.Valid() && NoneLocked(cache.bufs) && DirtyOnly(cache.bufs, lh)
      requires InRange(t0, |cache.base|) && d == Apply(cache.base, t0) && cache.trace == t0 + begin
      requires layout.Fits(d) && |view| == |d| == |cache.disk| && Loggable(layout, lh, |d|) && NoRepeats(lh)
      requires HeadOk(layout, d) && HeadCount(d[layout.start]) == 0
      requires forall b :: 0 <= b < |view| && layout.IsHome(b) && b !in lh ==> view[b] == d[b]
      requires layout.Fits(cache.disk) && fin == Finish(layout, lh, cache.disk) && all == begin + fin && all == CommitWrites(layout, lh, view, d)
      modifies this`lh, cache
      ensures cache.Valid() && |cache.disk| == |old(cache.disk)| && t0 <= cache.trace <= t0 + all
      ensures ok ==> cache.trace == t0 + all && Valid() && NoneLocked(cache.bufs) && lh == []
      ensures Installable(old(cache.bufs), old(lh)) ==> ok
    {
      ghost var head := lh;
      ok := FinishLog(fin);
      PrefixChain(t0, begin, cache.trace, fin);
      if ok {
        Empties(head, t0, d, all);
      }
    }

    /** After the last write the log is empty and the disk alone holds the contents. */
    lemma Empties(head: seq<nat>, t0: seq<Write>, d: Image, all: seq<Write>)
      requires cache.Valid() && NoneLocked(cache.bufs) && DirtyOnly(cache.bufs, []) && lh == []
      requires InRange(t0, |cache.base|) && d == Apply(cache.base, t0)
      requires layout.Fits(d) && |view| == |d| == |cache.disk| && Loggable(layout, head, |d|) && NoRepeats(head)
      requires HeadOk(layout, d) && HeadCount(d[layout.start]) == 0
      requires all == CommitWrites(layout, head, view, d) && cache.trace == t0 + all
      requires forall b :: 0 <= b < |view| && layout.IsHome(b) && b !in head ==> view[b] == d[b]
      ensures Valid()
    {
      Settled(layout, head, view, cache.base, t0, d, cache.trace, cache.disk);
    }

    /** write_log, then the header that commits the transaction. */
    method ToCommitPoint(ghost copies: seq<Write>, ghost head: Write, ghost begin: seq<Write>) returns (ok: bool)
      requires Valid() && NoneLocked(cache.bufs) && copies == LogCopies(layout, lh, view) && begin == copies + [head]
      requires head == Write(layout.start, EncodeHead(cache.disk[layout.start], lh)) && InRange(begin, |cache.disk|)
      modifies cache
      ensures cache.Valid() && |cache.disk| == |old(cache.disk)|
      ensures old(cache.trace) <= cache.trace <= old(cache.trace) + begin
      ensures ok ==> cache.trace == old(cache.trace) + begin && cache.disk == Apply(old(cache.disk), begin)
      ensures ok ==> NoneLocked(cache.bufs) && DirtyOnly(cache.bufs, lh)
      ensures Spare(old(cache.bufs)) ==> ok && Spare(cache.bufs) && AllPinned(cache.bufs, lh)
      ensures lh != [] && LogIdle(layout, old(cache.bufs)) && !Spare(old(cache.bufs)) ==> !ok
    {
      ghost var t0 := cache.trace;
      ok := WriteLog(copies);
      if !ok {
        PrefixStart(t0, copies, cache.trace, [head]);
        return;
      }
      ok := CommitHead(t0, old(cache.disk), copies, head, begin);
    }

    /** The header write: the commit point. */
    method CommitHead(ghost t0: seq<Write>, ghost d: Image, ghost copies: seq<Write>, ghost head: Write, ghost begin: seq<Write>) returns (ok: bool)
      requires cache.Valid() && layout.Fits(cache.disk) && NoneLocked(cache.bufs) && DirtyOnly(cache.bufs, lh) && Loggable(layout, lh, |cache.disk|)
      requires head == Write(layout.start, EncodeHead(cache.disk[layout.start], lh)) && cache.trace == t0 + copies && begin == copies + [head]
      requires InRange(t0, |cache.base|) && d == Apply(cache.base, t0) && InRange(begin, |cache.disk|)
      modifies cache
      ensures cache.Valid() && |cache.disk| == |old(cache.disk)|
      ensures t0 <= cache.trace <= t0 + begin
      ensures ok ==> cache.trace == t0 + begin && InRange(begin, |d|) && cache.disk == Apply(d, begin)
      ensures ok ==> NoneLocked(cache.bufs) && DirtyOnly(cache.bufs, lh)
      ensures Spare(old(cache.bufs)) ==> ok && Spare(cache.bufs) && (AllPinned(old(cache.bufs), lh) ==> AllPinned(cache.bufs, lh))
    {
      ghost var was := cache.bufs;
      ok := WriteHead(head);
      if ok {
        SteadySpare(was, cache.bufs);
        StillPinned(was, cache.bufs, lh);
      }
      PrefixChain(t0, copies, cache.trace, [head]);
      if ok {
        ApplyConcat(cache.base, t0, begin);
      }
    }

    /** install_trans, then the empty header. */
    method FinishLog(ghost fin: seq<Write>) returns (ok: bool)
      requires cache.Valid() && layout.Fits(cache.disk) && NoneLocked(cache.bufs)
      requires Loggable(layout, lh, |cache.disk|) && DirtyOnly(cache.bufs, lh) && fin == Finish(layout, lh, cache.disk)
      modifies this`lh, cache
      ensures cache.Valid() && |cache.disk| == |old(cache.disk)|
      ensures old(cache.trace) <= cache.trace <= old(cache.trace) + fin
      ensures ok ==> cache.trace == old(cache.trace) + fin
      ensures ok ==> NoneLocked(cache.bufs) && DirtyOnly(cache.bufs, []) && lh == []
      ensures Installable(old(cache.bufs), old(lh)) ==> ok
    {
      ghost var t0, b0 := cache.trace, cache.bufs;
      ghost var ws, head := FinishParts(layout, lh, cache.disk);
      ok := InstallTrans(ws);
      if !ok {
        PrefixStart(t0, ws, cache.trace, [head]);
        return;
      }
      SteadySpare(b0, cache.bufs);
      lh := [];
      ok := WriteHead(head);
      PrefixChain(t0, ws, cache.trace, [head]);
    }

    /** read_head: the block list of a usable header. */
    method ReadHead() returns (ok: bool)
      requires cache.Valid() && layout.Fits(cache.disk) && NoneLocked(cache.bufs)
      requires HeadOk(layout, cache.disk) && DirtyOnly(cache.bufs, [])
      modifies this`lh, cache
      ensures cache.Valid() && cache.disk == old(cache.disk) && cache.trace == old(cache.trace)
      ensures ok ==> NoneLocked(cache.bufs) && DirtyOnly(cache.bufs, [])
      ensures ok ==> lh == DecodeHead(layout, cache.disk)
      ensures (ok <==> CanRead(old(cache.bufs), layout.start)) && (ok ==> Steady(old(cache.bufs), cache.bufs))
    {
      var buf;
      ok, buf := cache.ReadLocked(layout.start);
      if !ok { return; }
      var hb := cache.bufs[buf].data;
      assert hb == cache.disk[layout.start];
      lh := [];
      while |lh| < hb[0]
        invariant |lh| <= hb[0]
        modifies `lh
        invariant forall i :: 0 <= i < |lh| ==> lh[i] == HeadEntry(hb, i)
      {
        assert HeadEntry(hb, |lh|) >= 0;
        lh := lh + [hb[1 + |lh|]];
      }
      var done := cache.BRelse(buf);
    }

    /** recover_from_log, run on a cache with no pending block.  False where the
        machine stops on a panic; the writes are then a prefix of the full list. */
    method RecoverFromLog() returns (ok: bool)
      requires cache.Valid() && layout.Fits(cache.disk) && NoneLocked(cache.bufs)
      requires HeadOk(layout, cache.disk) && DirtyOnly(cache.bufs, [])
      modifies this`lh, cache
      ensures cache.Valid() && |cache.disk| == |old(cache.disk)|
      ensures old(cache.trace) <= cache.trace <= old(cache.trace) + RecoverWrites(layout, old(cache.disk))
      ensures ok ==> cache.disk == Recovered(layout, old(cache.disk))
      ensures ok ==> NoneLocked(cache.bufs) && DirtyOnly(cache.bufs, []) && lh == []
      ensures (TwoSpare(old(cache.bufs)) ==> ok) && (ok ==> CanRead(old(cache.bufs), layout.start))
    {
      ok := ReadHead();
      if !ok { return; }
      SteadySpare(old(cache.bufs), cache.bufs);
      ok := FinishLog(Finish(layout, lh, cache.disk));
      if ok {
        ApplyConcat(cache.base, old(cache.trace), RecoverWrites(layout, old(cache.disk)));
      }
    }
  }

  /** Stopping after the first m writes of the trace, the first t0 of which came
      before the commit: the disk can be recovered, and recovers to the home
      blocks before the transaction or after it, by whether the header write is
      among the m. */
  ghost predicate AtomicAt(l: Layout, lh: seq<nat>, view: Image, base: Image, t0: nat, d: Image, trace: seq<Write>, m: nat) {
    && t0 <= m <= |trace|
    && |view| == |d|
    && InRange(trace[..m], |base|)
    && var e := Apply(base, trace[..m]);
       && l.Fits(e) && HeadOk(l, e)
       && SameHome(l, Recovered(l, e), if m - t0 < CommitPoint(lh) then d else Committed(lh, view, d))
  }

  lemma CutCommit(l: Layout, lh: seq<nat>, view: Image, base: Image, t0: seq<Write>, d: Image, t1: seq<Write>, m: nat)
    requires InRange(t0, |base|) && d == Apply(base, t0)
    requires l.Fits(d) && |view| == |d| && Loggable(l, lh, |d|) && NoRepeats(lh)
    requires HeadOk(l, d) && HeadCount(d[l.start]) == 0
    requires t0 <= t1 <= t0 + CommitWrites(l, lh, view, d)
    requires |t0| <= m <= |t1|
    ensures AtomicAt(l, lh, view, base, |t0|, d, t1, m)
  {
    var ws := CommitWrites(l, lh, view, d);
    var k := m - |t0|;
    assert t1[..m] == t0 + ws[..k];
    CrashAtomicity(l, lh, view, d, k, [], Apply(d, ws[..k]));
    ApplyConcat(base, t0, ws[..k]);
  }
}
