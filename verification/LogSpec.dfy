/** The on-disk redo log as values: blocks, the header block, the list of block
    writes that a commit and a recovery perform, and what a crash after any
    prefix of those writes leaves behind.

    A block write is atomic; a crash keeps exactly the writes that happened
    before it.  The imperative code that issues these writes is in RedoLog. */
module LogSpec {

  const MAXOPBLOCKS: nat := 10
  const LOGSIZE: nat := MAXOPBLOCKS * 3
  const NBUF: nat := MAXOPBLOCKS * 3

  /** A block seen as an array of 32-bit words: BSIZE / 4 of them. */
  const WORDS: nat := 128

  type Block = b: seq<int> | |b| == WORDS witness seq(WORDS, _ => 0)

  type Image = seq<Block>

  datatype Write = Write(addr: nat, data: Block)

  /** Where the log lives: the header at `start`, log blocks in
      `start+1 .. start+size`, every other block is a home block. */
  datatype Layout = Layout(start: nat, size: nat) {
    predicate IsHome(b: int) {
      b < start || start + size <= b
    }

    function LogBlock(t: nat): nat {
      start + 1 + t
    }

    ghost predicate Fits(d: Image) {
      1 <= size && start + size <= |d|
    }
  }

  // ----- the header block ---------------------------------------------------

  /** Storing n and block[0..n) into a header block; the words after them keep
      whatever the block held before. */
  function EncodeHead(old_: Block, lh: seq<nat>): (b: Block)
    requires |lh| < WORDS
    ensures HeadCount(b) == |lh|
    ensures forall i :: 0 <= i < |lh| ==> HeadEntry(b, i) == lh[i]
  {
    [|lh|] + lh + old_[1 + |lh|..]
  }

  function HeadCount(b: Block): int {
    b[0]
  }

  function HeadEntry(b: Block, i: int): int
    requires 0 <= i < WORDS - 1
  {
    b[1 + i]
  }

  /** The header is usable when its count and block numbers are in range. */
  predicate HeadOk(l: Layout, d: Image)
    requires l.Fits(d)
  {
    var h := d[l.start];
    && 0 <= HeadCount(h) <= l.size - 1
    && HeadCount(h) < WORDS
    && forall i :: 0 <= i < HeadCount(h) ==> 0 <= HeadEntry(h, i) < |d| && l.IsHome(HeadEntry(h, i))
  }

  /** The block numbers a usable header records. */
  function DecodeHead(l: Layout, d: Image): (lh: seq<nat>)
    requires l.Fits(d) && HeadOk(l, d)
    ensures |lh| == HeadCount(d[l.start])
    ensures forall i :: 0 <= i < |lh| ==> lh[i] == HeadEntry(d[l.start], i)
  {
    var h := d[l.start];
    seq(HeadCount(h), i requires 0 <= i < HeadCount(h) => HeadEntry(h, i))
  }

  // ----- writes -------------------------------------------------------------

  ghost predicate InRange(ws: seq<Write>, n: nat) {
    forall k :: 0 <= k < |ws| ==> ws[k].addr < n
  }

  /** The image after performing the writes in order. */
  ghost function Apply(d: Image, ws: seq<Write>): (e: Image)
    requires InRange(ws, |d|)
    ensures |e| == |d|
    decreases |ws|
  {
    if ws == [] then d
    else
      var k := |ws| - 1;
      assert forall i :: 0 <= i < k ==> ws[..k][i] == ws[i];
      Apply(d, ws[..k])[ws[k].addr := ws[k].data]
  }

  lemma {:induction false} ApplyConcat(d: Image, u: seq<Write>, v: seq<Write>)
    requires InRange(u, |d|) && InRange(v, |d|)
    ensures InRange(u + v, |d|)
    ensures Apply(d, u + v) == Apply(Apply(d, u), v)
    decreases |v|
  {
    if v == [] {
      assert u + v == u;
    } else {
      var k := |v| - 1;
      assert forall i :: 0 <= i < k ==> v[..k][i] == v[i];
      ApplyConcat(d, u, v[..k]);
      assert (u + v)[..|u + v| - 1] == u + v[..k];
    }
  }

  /** A block no write names keeps its contents. */
  lemma {:induction false} ApplyUntouched(d: Image, ws: seq<Write>, b: nat)
    requires InRange(ws, |d|) && b < |d|
    requires forall k :: 0 <= k < |ws| ==> ws[k].addr != b
    ensures Apply(d, ws)[b] == d[b]
    decreases |ws|
  {
    if ws != [] {
      var k := |ws| - 1;
      assert forall i :: 0 <= i < k ==> ws[..k][i] == ws[i];
      ApplyUntouched(d, ws[..k], b);
    }
  }

  /** The last write that names a block decides its contents. */
  lemma {:induction false} ApplyLast(d: Image, ws: seq<Write>, k: nat)
    requires InRange(ws, |d|) && k < |ws|
    requires forall j :: k < j < |ws| ==> ws[j].addr != ws[k].addr
    ensures Apply(d, ws)[ws[k].addr] == ws[k].data
    decreases |ws|
  {
    var n := |ws| - 1;
    if k < n {
      assert forall i :: 0 <= i < n ==> ws[..n][i] == ws[i];
      ApplyLast(d, ws[..n], k);
      assert ws[n].addr != ws[k].addr;
    }
  }

  // ----- commit -------------------------------------------------------------

  /** Copies of the cached blocks into the log blocks. */
  function LogCopies(l: Layout, lh: seq<nat>, view: Image): (ws: seq<Write>)
    requires forall i :: 0 <= i < |lh| ==> lh[i] < |view|
    ensures |ws| == |lh|
    ensures forall t :: 0 <= t < |lh| ==> ws[t] == Write(l.LogBlock(t), view[lh[t]])
  {
    seq(|lh|, t requires 0 <= t < |lh| => Write(l.LogBlock(t), view[lh[t]]))
  }

  /** Installing the log blocks of image d at the home locations in lh. */
  function Installs(l: Layout, lh: seq<nat>, d: Image): (ws: seq<Write>)
    requires l.start + |lh| < |d|
    ensures |ws| == |lh|
    ensures forall t :: 0 <= t < |lh| ==> ws[t] == Write(lh[t], d[l.LogBlock(t)])
  {
    seq(|lh|, t requires 0 <= t < |lh| => Write(lh[t], d[l.LogBlock(t)]))
  }

  /** A block list the log can take: in range, home blocks only, short enough
      for the log area and for one header block. */
  ghost predicate Loggable(l: Layout, lh: seq<nat>, n: nat) {
    && |lh| <= l.size - 1
    && |lh| < WORDS
    && (forall i :: 0 <= i < |lh| ==> lh[i] < n && l.IsHome(lh[i]))
  }

  /** log_write absorbs repeats, so a block is listed once. */
  ghost predicate NoRepeats(lh: seq<nat>) {
    forall i, j :: 0 <= i < j < |lh| ==> lh[i] != lh[j]
  }

  /** The writes up to the commit point: the log copies, then the header that
      names their home blocks. */
  ghost function CommitBegin(l: Layout, lh: seq<nat>, view: Image, d: Image): (ws: seq<Write>)
    requires l.Fits(d) && |view| == |d| && Loggable(l, lh, |d|)
    ensures |ws| == CommitPoint(lh)
    ensures InRange(ws, |d|)
    ensures forall t :: 0 <= t < |lh| ==> ws[t] == Write(l.LogBlock(t), view[lh[t]])
    ensures ws[|lh|] == Write(l.start, EncodeHead(d[l.start], lh))
  {
    LogCopies(l, lh, view) + [Write(l.start, EncodeHead(d[l.start], lh))]
  }

  /** The number of commit writes up to and including the non-empty header write. */
  function CommitPoint(lh: seq<nat>): nat {
    |lh| + 1
  }

  /** The writes that empty a log holding the blocks lh: the installs, then the
      cleared header.  Both commit and recovery end this way. */
  ghost function Finish(l: Layout, lh: seq<nat>, d: Image): (ws: seq<Write>)
    requires l.Fits(d) && |lh| <= l.size - 1
    requires forall i :: 0 <= i < |lh| ==> lh[i] < |d|
    ensures |ws| == |lh| + 1
    ensures InRange(ws, |d|)
    ensures forall t :: 0 <= t < |lh| ==> ws[t] == Write(lh[t], d[l.LogBlock(t)])
    ensures ws[|lh|] == Write(l.start, EncodeHead(d[l.start], []))
  {
    Installs(l, lh, d) + [Write(l.start, EncodeHead(d[l.start], []))]
  }

  /** Every disk write of a commit, in order.  An empty commit writes nothing. */
  ghost function CommitWrites(l: Layout, lh: seq<nat>, view: Image, d: Image): (ws: seq<Write>)
    requires l.Fits(d) && |view| == |d| && Loggable(l, lh, |d|)
    ensures InRange(ws, |d|)
  {
    if lh == [] then []
    else
      var ws := CommitBegin(l, lh, view, d);
      ws + Finish(l, lh, Apply(d, ws))
  }

  // ----- recovery -----------------------------------------------------------

  /** Every disk write of a recovery started on image d. */
  ghost function RecoverWrites(l: Layout, d: Image): (ws: seq<Write>)
    requires l.Fits(d) && HeadOk(l, d)
    ensures |ws| == HeadCount(d[l.start]) + 1
    ensures InRange(ws, |d|)
  {
    Finish(l, DecodeHead(l, d), d)
  }

  ghost function Recovered(l: Layout, d: Image): (e: Image)
    requires l.Fits(d) && HeadOk(l, d)
    ensures |e| == |d|
  {
    Apply(d, RecoverWrites(l, d))
  }

  /** The two images hold the same home blocks. */
  ghost predicate SameHome(l: Layout, d: Image, e: Image) {
    && |d| == |e|
    && forall b :: 0 <= b < |d| && l.IsHome(b) ==> d[b] == e[b]
  }

  /** The image a recovery leaves has an empty log. */
  lemma RecoveredIsClean(l: Layout, d: Image)
    requires l.Fits(d) && HeadOk(l, d)
    ensures l.Fits(Recovered(l, d)) && HeadOk(l, Recovered(l, d))
    ensures HeadCount(Recovered(l, d)[l.start]) == 0
  {
    var ws := RecoverWrites(l, d);
    ApplyLast(d, ws, |ws| - 1);
  }

  /** On an image whose log is empty, recovery changes no home block. */
  lemma RecoverEmpty(l: Layout, d: Image)
    requires l.Fits(d) && HeadOk(l, d) && HeadCount(d[l.start]) == 0
    ensures SameHome(l, Recovered(l, d), d)
  {
    forall b | 0 <= b < |d| && l.IsHome(b)
      ensures Recovered(l, d)[b] == d[b]
    {
      ApplyUntouched(d, RecoverWrites(l, d), b);
    }
  }

  /** Installs read the log area only, so partial installs leave them as they were. */
  lemma InstallsStable(l: Layout, lh: seq<nat>, d: Image, k: nat)
    requires l.Fits(d) && |lh| <= l.size - 1
    requires forall i :: 0 <= i < |lh| ==> lh[i] < |d| && l.IsHome(lh[i])
    requires k <= |lh|
    ensures InRange(Installs(l, lh, d)[..k], |d|)
    ensures Installs(l, lh, Apply(d, Installs(l, lh, d)[..k])) == Installs(l, lh, d)
    ensures Apply(d, Installs(l, lh, d)[..k])[l.start] == d[l.start]
  {
    var ws := Installs(l, lh, d)[..k];
    assert InRange(ws, |d|);
    var e := Apply(d, ws);
    forall b | l.start <= b < l.start + l.size
      ensures e[b] == d[b]
    {
      ApplyUntouched(d, ws, b);
    }
  }

  /** Redoing the whole of ws after its first k writes gives what ws alone gives. */
  lemma {:induction false} RedoPrefix(d: Image, ws: seq<Write>, k: nat)
    requires InRange(ws, |d|) && k <= |ws|
    ensures InRange(ws[..k], |d|)
    ensures Apply(Apply(d, ws[..k]), ws) == Apply(d, ws)
  {
    var e := Apply(d, ws[..k]);
    forall b | 0 <= b < |d|
      ensures Apply(e, ws)[b] == Apply(d, ws)[b]
    {
      RedoBlock(d, e, ws, k, b);
    }
  }

  /** A block that some write names ends up the same from any two start images. */
  lemma {:induction false} ApplyAgree(d: Image, e: Image, ws: seq<Write>, b: nat)
    requires |d| == |e| && InRange(ws, |d|) && b < |d|
    requires d[b] == e[b] || exists k :: 0 <= k < |ws| && ws[k].addr == b
    ensures Apply(d, ws)[b] == Apply(e, ws)[b]
    decreases |ws|
  {
    if ws != [] {
      var n := |ws| - 1;
      assert forall i :: 0 <= i < n ==> ws[..n][i] == ws[i];
      if ws[n].addr != b {
        assert d[b] == e[b] || exists k :: 0 <= k < n && ws[..n][k].addr == b;
        ApplyAgree(d, e, ws[..n], b);
      }
    }
  }

  lemma RedoBlock(d: Image, e: Image, ws: seq<Write>, k: nat, b: nat)
    requires InRange(ws, |d|) && k <= |ws| && b < |d|
    requires InRange(ws[..k], |d|) && e == Apply(d, ws[..k])
    ensures Apply(e, ws)[b] == Apply(d, ws)[b]
  {
    if forall j :: 0 <= j < k ==> ws[j].addr != b {
      ApplyUntouched(d, ws[..k], b);
    }
    ApplyAgree(d, e, ws, b);
  }

  /** Recovery may itself be cut short after any number of its writes: the next
      recovery then produces exactly the image the first one was heading for. */
  lemma RecoveryRestartable(l: Layout, d: Image, k: nat)
    requires l.Fits(d) && HeadOk(l, d)
    requires k <= |RecoverWrites(l, d)|
    ensures InRange(RecoverWrites(l, d)[..k], |d|)
    ensures var e := Apply(d, RecoverWrites(l, d)[..k]);
            && l.Fits(e) && HeadOk(l, e)
            && Recovered(l, e) == Recovered(l, d)
  {
    var ws := RecoverWrites(l, d);
    var lh := DecodeHead(l, d);
    var e := Apply(d, ws[..k]);
    if k < |ws| {
      assert ws[..k] == Installs(l, lh, d)[..k];
      InstallsStable(l, lh, d, k);
      assert DecodeHead(l, e) == lh;
      assert RecoverWrites(l, e) == ws;
      RedoPrefix(d, ws, k);
    } else {
      assert ws[..k] == ws;
      RecoveredIsClean(l, d);
      assert e[l.start] == EncodeHead(d[l.start], []) by {
        ApplyLast(d, ws, |ws| - 1);
      }
      assert RecoverWrites(l, e) == [Write(l.start, EncodeHead(e[l.start], []))];
      assert EncodeHead(e[l.start], []) == e[l.start];
      var w := RecoverWrites(l, e);
      assert Apply(e, w) == Apply(e, w[..0])[l.start := e[l.start]];
      assert Recovered(l, e) == e;
    }
  }

  /** Any number of boots, each cut short after some number of writes. */
  ghost predicate InterruptedBoots(l: Layout, d: Image, cuts: seq<nat>, e: Image)
    requires l.Fits(d) && HeadOk(l, d)
    decreases |cuts|
  {
    if cuts == [] then e == d
    else
      var k := if cuts[0] <= |RecoverWrites(l, d)| then cuts[0] else |RecoverWrites(l, d)|;
      var ws := RecoverWrites(l, d)[..k];
      && InRange(ws, |d|)
      && var d1 := Apply(d, ws);
         && l.Fits(d1) && HeadOk(l, d1)
         && InterruptedBoots(l, d1, cuts[1..], e)
  }

  lemma {:induction false} RecoveryConverges(l: Layout, d: Image, cuts: seq<nat>, e: Image)
    requires l.Fits(d) && HeadOk(l, d)
    requires InterruptedBoots(l, d, cuts, e)
    ensures l.Fits(e) && HeadOk(l, e)
    ensures Recovered(l, e) == Recovered(l, d)
    decreases |cuts|
  {
    if cuts != [] {
      var k := if cuts[0] <= |RecoverWrites(l, d)| then cuts[0] else |RecoverWrites(l, d)|;
      RecoveryRestartable(l, d, k);
      RecoveryConverges(l, Apply(d, RecoverWrites(l, d)[..k]), cuts[1..], e);
    }
  }

  // ----- crash atomicity ----------------------------------------------------

  /** Home blocks after the transaction: the logged blocks take their cached
      contents, the others keep what the disk held. */
  ghost function Committed(lh: seq<nat>, view: Image, d: Image): (e: Image)
    requires |view| == |d|
    ensures |e| == |d|
  {
    seq(|d|, b requires 0 <= b < |d| => if b in lh then view[b] else d[b])
  }

  /** Writes inside the log area leave the home blocks alone, and the header too
      when none of them is a header write. */
  lemma LogAreaOnly(l: Layout, d: Image, ws: seq<Write>)
    requires l.Fits(d) && InRange(ws, |d|)
    requires forall t :: 0 <= t < |ws| ==> !l.IsHome(ws[t].addr)
    ensures SameHome(l, Apply(d, ws), d)
    ensures (forall t :: 0 <= t < |ws| ==> ws[t].addr != l.start) ==> Apply(d, ws)[l.start] == d[l.start]
  {
    forall b | 0 <= b < |d| && l.IsHome(b)
      ensures Apply(d, ws)[b] == d[b]
    {
      ApplyUntouched(d, ws, b);
    }
    if forall t :: 0 <= t < |ws| ==> ws[t].addr != l.start {
      ApplyUntouched(d, ws, l.start);
    }
  }

  lemma CommitBeginInLogArea(l: Layout, lh: seq<nat>, view: Image, d: Image)
    requires l.Fits(d) && |view| == |d| && Loggable(l, lh, |d|)
    ensures forall t :: 0 <= t <= |lh| ==> !l.IsHome(CommitBegin(l, lh, view, d)[t].addr)
  {
  }

  /** Before the commit point the disk still reads as an empty log over the old
      home blocks. */
  lemma CommitPrefixBefore(l: Layout, lh: seq<nat>, view: Image, d: Image, ws: seq<Write>)
    requires l.Fits(d) && |view| == |d| && Loggable(l, lh, |d|)
    requires HeadOk(l, d) && HeadCount(d[l.start]) == 0
    requires ws <= LogCopies(l, lh, view)
    ensures InRange(ws, |d|)
    ensures var e := Apply(d, ws);
            && l.Fits(e) && HeadOk(l, e)
            && SameHome(l, e, d)
            && SameHome(l, Recovered(l, e), d)
  {
    assert forall t :: 0 <= t < |ws| ==> ws[t] == LogCopies(l, lh, view)[t];
    LogAreaOnly(l, d, ws);
    RecoverEmpty(l, Apply(d, ws));
  }

  /** The image right after the header write: the log blocks hold the cached
      contents, the header names their homes, home blocks are untouched. */
  lemma AtCommitPoint(l: Layout, lh: seq<nat>, view: Image, d: Image, ws: seq<Write>)
    requires l.Fits(d) && |view| == |d| && Loggable(l, lh, |d|)
    requires ws == CommitBegin(l, lh, view, d)
    ensures SameHome(l, Apply(d, ws), d)
    ensures Apply(d, ws)[l.start] == EncodeHead(d[l.start], lh)
    ensures forall t :: 0 <= t < |lh| ==> Apply(d, ws)[l.LogBlock(t)] == view[lh[t]]
  {
    CommitBeginInLogArea(l, lh, view, d);
    CopiesApplied(l, lh, view, d, ws, EncodeHead(d[l.start], lh));
  }

  lemma CopiesApplied(l: Layout, lh: seq<nat>, view: Image, d: Image, ws: seq<Write>, head: Block)
    requires l.Fits(d) && InRange(ws, |d|) && |ws| == |lh| + 1 && l.start + |lh| < |d|
    requires (forall t :: 0 <= t < |lh| ==> lh[t] < |view|) && (forall t :: 0 <= t < |ws| ==> !l.IsHome(ws[t].addr))
    requires (forall t :: 0 <= t < |lh| ==> ws[t] == Write(l.LogBlock(t), view[lh[t]])) && ws[|lh|] == Write(l.start, head)
    ensures SameHome(l, Apply(d, ws), d) && Apply(d, ws)[l.start] == head
    ensures forall t :: 0 <= t < |lh| ==> Apply(d, ws)[l.LogBlock(t)] == view[lh[t]]
  {
    LogAreaOnly(l, d, ws);
    HeaderLast(l, d, ws, head);
    forall t | 0 <= t < |lh|
      ensures Apply(d, ws)[l.LogBlock(t)] == view[lh[t]]
    {
      CopyKept(l, d, ws, t, view[lh[t]]);
    }
  }

  /** The last of these writes is the header's. */
  lemma HeaderLast(l: Layout, d: Image, ws: seq<Write>, head: Block)
    requires l.Fits(d) && InRange(ws, |d|) && |ws| > 0 && ws[|ws| - 1] == Write(l.start, head)
    ensures Apply(d, ws)[l.start] == head
  {
    ApplyLast(d, ws, |ws| - 1);
  }

  /** No later write goes to log block t. */
  lemma CopyKept(l: Layout, d: Image, ws: seq<Write>, t: nat, data: Block)
    requires l.Fits(d) && InRange(ws, |d|) && t < |ws| - 1 && ws[t] == Write(l.LogBlock(t), data)
    requires (forall u :: 0 <= u < |ws| - 1 ==> ws[u].addr == l.LogBlock(u)) && ws[|ws| - 1].addr == l.start
    ensures l.LogBlock(t) < |d| && Apply(d, ws)[l.LogBlock(t)] == data
  {
    ApplyLast(d, ws, t);
  }

  lemma DecodeEncoded(l: Layout, lh: seq<nat>, d: Image, old_: Block)
    requires l.Fits(d) && Loggable(l, lh, |d|)
    requires d[l.start] == EncodeHead(old_, lh)
    ensures HeadOk(l, d) && DecodeHead(l, d) == lh
  {
  }

  /** Finishing from an image whose log blocks hold the transaction yields the
      after-transaction home blocks. */
  lemma FinishInstalls(l: Layout, lh: seq<nat>, view: Image, d: Image, mid: Image)
    requires l.Fits(d) && |view| == |d| == |mid| && Loggable(l, lh, |d|) && NoRepeats(lh)
    requires SameHome(l, mid, d)
    requires forall t :: 0 <= t < |lh| ==> mid[l.LogBlock(t)] == view[lh[t]]
    ensures SameHome(l, Apply(mid, Finish(l, lh, mid)), Committed(lh, view, d))
  {
    var ws := Finish(l, lh, mid);
    forall b | 0 <= b < |d| && l.IsHome(b)
      ensures Apply(mid, ws)[b] == Committed(lh, view, d)[b]
    {
      if b in lh {
        var t :| 0 <= t < |lh| && lh[t] == b;
        ApplyLast(mid, ws, t);
      } else {
        ApplyUntouched(mid, ws, b);
      }
    }
  }

  /** At the commit point recovery has exactly the commit's remaining work to do. */
  lemma RecoverAtCommitPoint(l: Layout, lh: seq<nat>, view: Image, d: Image, mid: Image)
    requires l.Fits(d) && |view| == |d| && Loggable(l, lh, |d|) && NoRepeats(lh)
    requires mid == Apply(d, CommitBegin(l, lh, view, d))
    ensures HeadOk(l, mid) && RecoverWrites(l, mid) == Finish(l, lh, mid)
    ensures SameHome(l, Recovered(l, mid), Committed(lh, view, d))
  {
    AtCommitPoint(l, lh, view, d, CommitBegin(l, lh, view, d));
    DecodeEncoded(l, lh, mid, d[l.start]);
    FinishInstalls(l, lh, view, d, mid);
  }

  /** Writes that lead to mid, followed by a cut-short recovery of mid. */
  lemma CutRecovery(l: Layout, d: Image, ws: seq<Write>, mid: Image, j: nat)
    requires InRange(ws, |d|) && mid == Apply(d, ws)
    requires l.Fits(mid) && HeadOk(l, mid) && j <= |RecoverWrites(l, mid)|
    ensures InRange(ws + RecoverWrites(l, mid)[..j], |d|)
    ensures var e := Apply(d, ws + RecoverWrites(l, mid)[..j]);
            && l.Fits(e) && HeadOk(l, e) && Recovered(l, e) == Recovered(l, mid)
  {
    RecoveryRestartable(l, mid, j);
    ApplyConcat(d, ws, RecoverWrites(l, mid)[..j]);
  }

  lemma TakePast<T>(u: seq<T>, v: seq<T>, k: nat)
    requires |u| <= k <= |u| + |v|
    ensures (u + v)[..k] == u + v[..k - |u|]
  {
  }

  /** A commit cut short after j of the writes that follow its commit point. */
  lemma CommitPrefixAfter(l: Layout, lh: seq<nat>, view: Image, d: Image, mid: Image, j: nat)
    requires l.Fits(d) && |view| == |d| && Loggable(l, lh, |d|) && NoRepeats(lh)
    requires mid == Apply(d, CommitBegin(l, lh, view, d)) && j <= |lh| + 1
    ensures var ws := CommitBegin(l, lh, view, d) + Finish(l, lh, mid)[..j];
            && InRange(ws, |d|)
            && l.Fits(Apply(d, ws)) && HeadOk(l, Apply(d, ws))
            && SameHome(l, Recovered(l, Apply(d, ws)), Committed(lh, view, d))
  {
    RecoverAtCommitPoint(l, lh, view, d, mid);
    CutRecovery(l, d, CommitBegin(l, lh, view, d), mid, j);
  }

  /** Crash atomicity.  Cut a commit after any k of its writes, then boot any
      number of times with each boot cut short anywhere: the recovered home
      blocks are wholly the ones before the transaction or wholly the ones after
      it, and "after" exactly when the header write is among the k. */
  lemma CrashAtomicity(l: Layout, lh: seq<nat>, view: Image, d: Image, k: nat, cuts: seq<nat>, e: Image)
    requires l.Fits(d) && |view| == |d| && Loggable(l, lh, |d|) && NoRepeats(lh)
    requires HeadOk(l, d) && HeadCount(d[l.start]) == 0
    requires k <= |CommitWrites(l, lh, view, d)|
    ensures var c := CommitWrites(l, lh, view, d)[..k];
            && InRange(c, |d|)
            && l.Fits(Apply(d, c)) && HeadOk(l, Apply(d, c))
            && (InterruptedBoots(l, Apply(d, c), cuts, e) ==>
                  && l.Fits(e) && HeadOk(l, e)
                  && SameHome(l, Recovered(l, e), if k < CommitPoint(lh) then d else Committed(lh, view, d)))
  {
    var c := CommitWrites(l, lh, view, d)[..k];
    if k < CommitPoint(lh) {
      assert c == LogCopies(l, lh, view)[..k];
      CommitPrefixBefore(l, lh, view, d, c);
    } else {
      var begin := CommitBegin(l, lh, view, d);
      var mid := Apply(d, begin);
      TakePast(begin, Finish(l, lh, mid), k);
      CommitPrefixAfter(l, lh, view, d, mid, k - |begin|);
    }
    if InterruptedBoots(l, Apply(d, c), cuts, e) {
      RecoveryConverges(l, Apply(d, c), cuts, e);
    }
  }

  /** A commit that runs to its end installs the transaction and empties the log. */
  lemma CommitComplete(l: Layout, lh: seq<nat>, view: Image, d: Image)
    requires l.Fits(d) && |view| == |d| && Loggable(l, lh, |d|) && NoRepeats(lh)
    requires HeadOk(l, d) && HeadCount(d[l.start]) == 0
    ensures var e := Apply(d, CommitWrites(l, lh, view, d));
            && l.Fits(e) && HeadOk(l, e) && HeadCount(e[l.start]) == 0
            && SameHome(l, e, Committed(lh, view, d))
  {
    if lh != [] {
      var begin := CommitBegin(l, lh, view, d);
      var mid := Apply(d, begin);
      RecoverAtCommitPoint(l, lh, view, d, mid);
      ApplyConcat(d, begin, RecoverWrites(l, mid));
      RecoveredIsClean(l, mid);
    }
  }
}
