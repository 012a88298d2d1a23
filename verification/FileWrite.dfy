/** filewrite: a long write goes in as chunks, one transaction each, and every
    transaction keeps to its log reservation. */
module FileWrite {
  import opened FsSpec
  import opened FsBytes
  import opened FsBlocks
  import opened FsFiles

  /** ((MAXOPBLOCKS-1-1-2) / 2) * 512 */
  const CHUNK: nat := (MAXOPBLOCKS - 1 - 1 - 2) / 2 * 512

  /** An open inode file. */
  class OpenFile {
    const writable: bool
    const ip: nat
    var off: nat

    constructor (writable: bool, ip: nat)
      ensures this.writable == writable && this.ip == ip && off == 0
    {
      this.writable, this.ip, off := writable, ip, 0;
    }
  }

  /** The first `done` bytes of src are in file i from off on; nothing else changed. */
  ghost predicate Sofar(sb: Super, v: FsSpec.Fs, n: FsSpec.Fs, i: nat, off: nat, src: seq<Byte>, done: nat)
    requires NoHoles(sb, v) && i < |v.inodes| && done <= |src|
  {
    if done == 0 then n == v else Overwritten(sb, v, n, i, off, src[..done])
  }

  lemma SofarMore(sb: Super, v: FsSpec.Fs, m: FsSpec.Fs, n: FsSpec.Fs, i: nat, off: nat, src: seq<Byte>, k: nat, next: nat)
    requires NoHoles(sb, v) && i < |v.inodes| && k < next <= |src| && Sofar(sb, v, m, i, off, src, k)
    requires NoHoles(sb, m) && i < |m.inodes| && Overwritten(sb, m, n, i, off + k, src[k..next])
    ensures Sofar(sb, v, n, i, off, src, next)
  {
    if k > 0 {
      OverwrittenMore(sb, v, m, n, i, off, src, k, next);
    }
  }

  /** One transaction: writei of one chunk at the file's offset. */
  method WriteChunk(fs: Blocks, f: OpenFile, chunk: seq<Byte>, dev: seq<Byte> -> int) returns (ok: bool, r: int)
    requires Good(fs) && f.ip < |fs.inodes| && f.off < UINT && |chunk| <= CHUNK
    modifies fs, f`off
    ensures ok ==> Good(fs) && |fs.inodes| == |old(fs.inodes)| && |fs.logged| <= MAXOPBLOCKS
    ensures !ok ==> fs.Valid() && forall c :: 0 <= c < fs.sb.size ==> fs.Bitmap()[c]
    ensures !ok ==> !old(fs.inodes)[f.ip].dev
    ensures ok ==> f.off == if r > 0 then (old(f.off) + r) % UINT else old(f.off)
    ensures ok && !old(fs.inodes)[f.ip].dev && r > 0 ==> f.off == old(f.off) + r < UINT
    ensures ok && old(fs.inodes)[f.ip].dev ==> r == dev(chunk) && fs.Fs() == old(fs.Fs())
    ensures ok && !old(fs.inodes)[f.ip].dev && Refused(old(fs.inodes)[f.ip].size, old(f.off), |chunk|) ==> r == -1 && fs.Fs() == old(fs.Fs())
    ensures ok && !old(fs.inodes)[f.ip].dev && !Refused(old(fs.inodes)[f.ip].size, old(f.off), |chunk|) ==>
              r == |chunk| && Overwritten(fs.sb, old(fs.Fs()), fs.Fs(), f.ip, old(f.off), chunk)
    ensures ok <==> old(fs.inodes)[f.ip].dev || Refused(old(fs.inodes)[f.ip].size, old(f.off), |chunk|)
                    || Affords(fs.sb, old(fs.Fs()), f.ip, old(f.off), |chunk|)
    ensures Recorded(fs.sb, old(fs.Fs()), fs.Fs(), {}, fs.logged) && InodesLogged(fs.sb, old(fs.dinodes), fs.dinodes, fs.logged)
  {
    fs.logged := {};   // begin_op: this operation has logged nothing
    ghost var wrote;
    ok, r, wrote := WriteI(fs, f.ip, chunk, f.off, dev(chunk));
    if ok {
      ChunkFits(f.off, |chunk|);
      SubsetSize(fs.logged, wrote);
      if r > 0 {
        f.off := (f.off + r) % UINT;
      }
    }
  }

  lemma {:induction false} SubsetSize(a: set<nat>, b: set<nat>)
    requires a <= b
    ensures |a| <= |b|
  {
    if a != {} {
      var x :| x in a;
      SubsetSize(a - {x}, b - {x});
    }
  }

  /** All blocks the transactions logged. */
  ghost function All(txs: seq<set<nat>>): set<nat> {
    if txs == [] then {} else All(txs[..|txs| - 1]) + txs[|txs| - 1]
  }

  /** What changed from v and the disk inodes dv on is in one of the transactions. */
  ghost predicate AllLogged(sb: Super, v: FsSpec.Fs, dv: seq<Inode>, n: FsSpec.Fs, dn: seq<Inode>, txs: seq<set<nat>>) {
    Recorded(sb, v, n, {}, All(txs)) && InodesLogged(sb, dv, dn, All(txs))
  }

  lemma OneMore(sb: Super, v: FsSpec.Fs, dv: seq<Inode>, m: FsSpec.Fs, dm: seq<Inode>, n: FsSpec.Fs, dn: seq<Inode>, txs: seq<set<nat>>, t: set<nat>)
    requires AllLogged(sb, v, dv, m, dm, txs) && Recorded(sb, m, n, {}, t) && InodesLogged(sb, dm, dn, t)
    ensures AllLogged(sb, v, dv, n, dn, txs + [t])
  {
    var more := txs + [t];
    assert more[..|more| - 1] == txs && All(more) == All(txs) + t;
  }

  /** How many chunks n bytes take. */
  function Chunks(n: nat): nat {
    (n + CHUNK - 1) / CHUNK
  }

  lemma MoreChunks(done: nat, n: nat, next: nat)
    requires done % CHUNK == 0 && done < n && next == done + Min(n - done, CHUNK)
    ensures Chunks(next) == Chunks(done) + 1 && (next % CHUNK == 0 || next == n)
  {
    var q := done / CHUNK;
    assert done == q * CHUNK;
    ChunksAt(q, Min(n - done, CHUNK));
  }

  lemma ChunksAt(q: nat, k: nat)
    requires 0 < k <= CHUNK
    ensures Chunks(q * CHUNK) == q && Chunks(q * CHUNK + k) == q + 1 && (k == CHUNK ==> (q * CHUNK + k) % CHUNK == 0)
  {
    ChunkAt(q, CHUNK - 1);
    ChunkAt(q + 1, k - 1);
    ChunkAt(q + 1, 0);
    assert (q + 1) * CHUNK == q * CHUNK + CHUNK;
  }

  lemma ChunkAt(q: nat, x: nat)
    requires x < CHUNK
    ensures (q * CHUNK + x) / CHUNK == q && (q * CHUNK + x) % CHUNK == x
  {
    assert CHUNK == 1536;
  }

  /** Where the chunk from k on ends. */
  function ChunkEnd(n: nat, k: nat): nat
    requires k <= n
  {
    k + Min(n - k, CHUNK)
  }

  /** The device has taken all of each of the chunks before `done`. */
  ghost predicate Accepted(dev: seq<Byte> -> int, src: seq<Byte>, done: nat) {
    forall k :: 0 <= k < done <= |src| && k % CHUNK == 0 ==> dev(src[k..ChunkEnd(|src|, k)]) == ChunkEnd(|src|, k) - k
  }

  /** writei panics on the chunk from `done` on. */
  ghost predicate Stopped(sb: Super, v: FsSpec.Fs, i: nat, off: nat, src: seq<Byte>, done: nat) {
    && Shape(sb, v) && i < |v.inodes| && done <= |src|
    && !Affords(sb, v, i, off + done, Min(|src| - done, CHUNK)) && !Refused(v.inodes[i].size, off + done, Min(|src| - done, CHUNK))
  }

  /** filewrite on an inode.  False where the code panics: the chunk after `done` needs
      more blocks than are free in `last`, the state it came to, or the device takes
      less of it than it was given.  `txs` are the blocks each transaction logged and
      `done` the bytes that went in: each chunk that went in is one of them, and so is
      the one that was refused. */
  method FileWrite(fs: Blocks, f: OpenFile, src: seq<Byte>, dev: seq<Byte> -> int)
    returns (ok: bool, r: int, ghost txs: seq<set<nat>>, done: nat, ghost last: FsSpec.Fs)
    requires Good(fs) && f.ip < |fs.inodes| && f.off < UINT && |src| < UINT
    modifies fs, f`off
    ensures forall t :: t in txs ==> |t| <= MAXOPBLOCKS
    ensures ok && f.writable ==> |txs| == if done == |src| then Chunks(|src|) else Chunks(done) + 1
    ensures done <= |src| && (done < |src| ==> done % CHUNK == 0) && (!ok ==> done < |src| && fs.Valid())
    ensures ok ==> Good(fs) && r == if f.writable && done == |src| then |src| else -1
    ensures !f.writable ==> ok && fs.Fs() == old(fs.Fs()) && f.off == old(f.off)
    ensures ok && f.writable && !old(fs.inodes)[f.ip].dev ==>
              Sofar(fs.sb, old(fs.Fs()), fs.Fs(), f.ip, old(f.off), src, done) && f.off == old(f.off) + done
    ensures ok && f.writable && !old(fs.inodes)[f.ip].dev && done < |src| ==>
              Refused(fs.inodes[f.ip].size, f.off, Min(|src| - done, CHUNK))
    ensures ok && old(fs.inodes)[f.ip].dev ==> fs.Fs() == old(fs.Fs())
    ensures ok ==> AllLogged(fs.sb, old(fs.Fs()), old(fs.dinodes), fs.Fs(), fs.dinodes, txs)
    ensures f.writable && old(fs.inodes)[f.ip].dev ==> Accepted(dev, src, done)
    ensures ok && f.writable && old(fs.inodes)[f.ip].dev && done < |src| ==> dev(src[done..ChunkEnd(|src|, done)]) < 0
    ensures !ok && old(fs.inodes)[f.ip].dev ==> 0 <= dev(src[done..ChunkEnd(|src|, done)]) != ChunkEnd(|src|, done) - done
    ensures !ok && !old(fs.inodes)[f.ip].dev ==>
              Sofar(fs.sb, old(fs.Fs()), last, f.ip, old(f.off), src, done) && Stopped(fs.sb, last, f.ip, old(f.off), src, done)
  {
    ok, txs, done, last := true, [], 0, fs.Fs();
    if !f.writable {
      return ok, -1, txs, done, last;
    }
    ghost var v := fs.Fs();
    ghost var off, dv := f.off, fs.dinodes;
    while done < |src|
      invariant Between(fs, f, v, off, src, done) && AllLogged(fs.sb, v, dv, fs.Fs(), fs.dinodes, txs)
      invariant (forall t :: t in txs ==> |t| <= MAXOPBLOCKS) && |txs| == Chunks(done)
      invariant (done % CHUNK == 0 || done == |src|) && (v.inodes[f.ip].dev ==> Accepted(dev, src, done))
    {
      last := fs.Fs();
      ghost var dm := fs.dinodes;
      var n1 := Min(|src| - done, CHUNK);
      var next := done + n1;
      MoreChunks(done, |src|, next);
      var n;
      ok, n := NextChunk(fs, f, src, dev, done, n1, next, v, off);
      if !ok { return ok, -1, txs, done, last; }
      OneMore(fs.sb, v, dv, last, dm, fs.Fs(), fs.dinodes, txs, fs.logged);
      txs := txs + [fs.logged];
      if n < 0 { break; }
      if n != n1 { return false, -1, txs, done, last; }
      if v.inodes[f.ip].dev {
        AcceptedNext(dev, src, done, next);
      }
      done := next;
    }
    r := if done == |src| then |src| else -1;
  }

  /** Between two chunks: a file holds the bytes so far, a device changes no file. */
  ghost predicate Between(fs: Blocks, f: OpenFile, v: FsSpec.Fs, off: nat, src: seq<Byte>, done: nat)
    requires NoHoles(fs.sb, v) && f.ip < |v.inodes|
    reads fs, f
  {
    && Good(fs) && |fs.inodes| == |v.inodes| && f.off < UINT && done <= |src|
    && fs.inodes[f.ip].dev == v.inodes[f.ip].dev
    && if v.inodes[f.ip].dev then fs.Fs() == v else Sofar(fs.sb, v, fs.Fs(), f.ip, off, src, done) && f.off == off + done
  }

  /** One turn: the chunk from `done` on, and the place after it. */
  method NextChunk(fs: Blocks, f: OpenFile, src: seq<Byte>, dev: seq<Byte> -> int, done: nat, n1: nat, next: nat,
                   ghost v: FsSpec.Fs, ghost off: nat)
    returns (ok: bool, n: int)
    requires NoHoles(fs.sb, v) && f.ip < |v.inodes| && Between(fs, f, v, off, src, done)
    requires done < |src| && n1 == Min(|src| - done, CHUNK) && next == done + n1 && done % CHUNK == 0
    modifies fs, f`off
    ensures !ok ==> fs.Valid() && !v.inodes[f.ip].dev && Stopped(fs.sb, old(fs.Fs()), f.ip, off, src, done)
    ensures ok ==> |fs.logged| <= MAXOPBLOCKS && Good(fs)
    ensures ok ==> Recorded(fs.sb, old(fs.Fs()), fs.Fs(), {}, fs.logged) && InodesLogged(fs.sb, old(fs.dinodes), fs.dinodes, fs.logged)
    ensures ok && n == n1 ==> Between(fs, f, v, off, src, next)
    ensures ok && n < 0 ==> Between(fs, f, v, off, src, done)
    ensures ok && n < 0 && !v.inodes[f.ip].dev ==> Refused(fs.inodes[f.ip].size, f.off, n1)
    ensures ok && n != n1 && n >= 0 ==> v.inodes[f.ip].dev
    ensures ok && v.inodes[f.ip].dev ==> fs.Fs() == v && n == dev(src[done..ChunkEnd(|src|, done)])
  {
    ghost var m, at := fs.Fs(), f.off;
    var chunk := src[done..next];
    ok, n := WriteChunk(fs, f, chunk, dev);
    if !ok {
      ChunkStopped(fs.sb, m, f.ip, off, src, done, at, |chunk|);
    } else if n == n1 && !v.inodes[f.ip].dev {
      ChunkDone(fs.sb, v, m, fs.Fs(), f.ip, off, src, done, next, chunk);
    }
  }

  lemma ChunkStopped(sb: Super, v: FsSpec.Fs, i: nat, off: nat, src: seq<Byte>, done: nat, at: nat, n: nat)
    requires Shape(sb, v) && i < |v.inodes| && done <= |src| && at == off + done && n == Min(|src| - done, CHUNK)
    requires !Affords(sb, v, i, at, n) && !Refused(v.inodes[i].size, at, n)
    ensures Stopped(sb, v, i, off, src, done)
  {
  }

  lemma AcceptedNext(dev: seq<Byte> -> int, src: seq<Byte>, done: nat, next: nat)
    requires done < |src| && Accepted(dev, src, done) && next == ChunkEnd(|src|, done) && done % CHUNK == 0 && dev(src[done..next]) == next - done
    ensures Accepted(dev, src, next)
  {
    forall k | 0 <= k < next && k % CHUNK == 0
      ensures dev(src[k..ChunkEnd(|src|, k)]) == ChunkEnd(|src|, k) - k
    {
      if k > done {
        OnlyChunk(done, k);
      }
    }
  }

  lemma OnlyChunk(a: nat, b: nat)
    requires a % CHUNK == 0 && b % CHUNK == 0 && a < b
    ensures b >= a + CHUNK
  {
    assert CHUNK == 1536;
  }

  lemma ChunkDone(sb: Super, v: FsSpec.Fs, m: FsSpec.Fs, n: FsSpec.Fs, i: nat, off: nat, src: seq<Byte>, k: nat, next: nat, chunk: seq<Byte>)
    requires NoHoles(sb, v) && i < |v.inodes| && k < next <= |src| && Sofar(sb, v, m, i, off, src, k) && chunk == src[k..next]
    requires NoHoles(sb, m) && i < |m.inodes| && Overwritten(sb, m, n, i, off + k, chunk)
    ensures Sofar(sb, v, n, i, off, src, next)
    ensures |n.inodes| == |v.inodes| && n.inodes[i].dev == v.inodes[i].dev
  {
    SofarMore(sb, v, m, n, i, off, src, k, next);
  }
}
