/** readi, writei and filewrite: a file is a flat byte sequence, and one chunk of
    filewrite fits its log reservation. */
module FsFiles {
  import opened FsSpec
  import opened FsBytes
  import opened FsBlocks

  const MAXOPBLOCKS: nat := 10

  /** Blocks, files without holes, and disk inodes equal to the cached ones. */
  ghost predicate Good(fs: Blocks)
    reads fs
  {
    fs.Valid() && NoHoles(fs.sb, fs.Fs()) && fs.dinodes == fs.inodes
  }

  // ----- reading ------------------------------------------------------------

  /** readi.  A device answers `dev`. */
  method ReadI(fs: Blocks, inum: nat, off: nat, n: nat, dev: int) returns (ok: bool, r: int, dst: seq<Byte>)
    requires Good(fs) && inum < |fs.inodes| && off < UINT && n < UINT
    modifies fs
    ensures Good(fs) && ok && fs.Fs() == old(fs.Fs()) && fs.logged == old(fs.logged)
    ensures fs.inodes[inum].dev ==> r == dev && dst == []
    ensures !fs.inodes[inum].dev && (off > fs.inodes[inum].size || off + n >= UINT) ==> r == -1 && dst == []
    ensures !fs.inodes[inum].dev && off <= fs.inodes[inum].size && off + n < UINT ==>
              var content := Content(fs.sb, fs.Fs(), inum);
              var end := if off + n < |content| then off + n else |content|;
              r == |dst| && dst == content[off..end]
  {
    ok, dst := true, [];
    if fs.inodes[inum].dev {
      return ok, dev, dst;
    }
    var size := fs.inodes[inum].size;
    if off > size || (off + n) % UINT < off {
      return ok, -1, dst;
    }
    var len := if off + n > size then size - off else n;
    ok, dst := ReadLoop(fs, inum, off, len);
    r := len;
  }

  method ReadLoop(fs: Blocks, inum: nat, off: nat, len: nat) returns (ok: bool, dst: seq<Byte>)
    requires Good(fs) && inum < |fs.inodes| && off + len <= fs.inodes[inum].size
    modifies fs
    ensures Good(fs) && ok && fs.Fs() == old(fs.Fs()) && fs.logged == old(fs.logged)
    ensures dst == Content(fs.sb, fs.Fs(), inum)[off..off + len]
  {
    ok, dst := true, [];
    ghost var v := fs.Fs();
    ghost var content := Content(fs.sb, v, inum);
    var tot := 0;
    while tot < len
      invariant 0 <= tot <= len && dst == content[off..off + tot]
      invariant Good(fs) && ok && fs.Fs() == v && fs.logged == old(fs.logged)
    {
      var at := off + tot;
      var m := Min(len - tot, BSIZE - at % BSIZE);
      var fine, piece := ReadPiece(fs, inum, at, m);
      ok := ok && fine;
      Joined(content, off, tot, tot + m, dst, piece);
      dst := dst + piece;
      tot := tot + m;
    }
  }

  lemma Joined(s: seq<Byte>, off: nat, tot: nat, next: nat, dst: seq<Byte>, piece: seq<Byte>)
    requires tot <= next && off + next <= |s| && dst == s[off..off + tot] && piece == s[off + tot..off + next]
    ensures dst + piece == s[off..off + next]
  {
  }

  /** One turn of readi's loop: bmap finds the block there and allocates nothing. */
  method ReadPiece(fs: Blocks, inum: nat, at: nat, m: nat) returns (ok: bool, piece: seq<Byte>)
    requires Good(fs) && inum < |fs.inodes| && 0 < m <= BSIZE - at % BSIZE && at + m <= fs.inodes[inum].size
    modifies fs
    ensures Good(fs) && ok && fs.Fs() == old(fs.Fs()) && fs.logged == old(fs.logged)
    ensures piece == Content(fs.sb, fs.Fs(), inum)[at..at + m]
  {
    ghost var v := fs.Fs();
    InBlock(fs.sb, v, inum, at, m);
    assert Covered(fs.sb, v, inum, v.inodes[inum].size) && Has(fs.sb, v, inum, at / BSIZE);
    var addr;
    ok, addr := fs.BMap(inum, at / BSIZE);
    assert IsSlot(v, inum, DataSlot(at / BSIZE)) && InUse(fs.sb, v, Slot(fs.sb, v, inum, DataSlot(at / BSIZE)));
    piece := fs.data[addr][at % BSIZE..at % BSIZE + m];
  }

  function Min(a: nat, b: nat): nat {
    if a < b then a else b
  }

  /** A run of bytes inside one block. */
  lemma InBlock(sb: Super, v: FsSpec.Fs, i: nat, at: nat, m: nat)
    requires NoHoles(sb, v) && i < |v.inodes| && 0 < m <= BSIZE - at % BSIZE && at + m <= v.inodes[i].size
    ensures v.inodes[i].size <= MAXBYTES
    ensures BlockOf(sb, v, i, at / BSIZE)[at % BSIZE..at % BSIZE + m] == Content(sb, v, i)[at..at + m]
  {
    assert Covered(sb, v, i, v.inodes[i].size);
    var p, q := BlockOf(sb, v, i, at / BSIZE)[at % BSIZE..at % BSIZE + m], Content(sb, v, i)[at..at + m];
    forall k | 0 <= k < m
      ensures p[k] == q[k]
    {
      assert (at + k) / BSIZE == at / BSIZE;
    }
  }

  // ----- writing ------------------------------------------------------------

  /** One turn of writei's loop: map the block, store the piece, log the block.
      False where bmap panics, which needs a full disk. */
  method StorePiece(fs: Blocks, inum: nat, off: nat, piece: seq<Byte>) returns (ok: bool, addr: nat)
    requires fs.Valid() && inum < |fs.inodes| && off < MAXBYTES && off % BSIZE + |piece| <= BSIZE
    modifies fs
    ensures fs.Valid() && fs.dinodes == old(fs.dinodes)
    ensures !ok ==> forall c :: 0 <= c < fs.sb.size ==> fs.Bitmap()[c]
    ensures ok ==> Stored(fs.sb, old(fs.Fs()), fs.Fs(), inum, off / BSIZE, off % BSIZE, piece)
    ensures ok && old(Has(fs.sb, fs.Fs(), inum, off / BSIZE)) ==> fs.inodes == old(fs.inodes)
    ensures ok ==> Logs(fs.sb, old(fs.logged), fs.logged, addr, old(Has(fs.sb, fs.Fs(), inum, off / BSIZE)), Slot(fs.sb, fs.Fs(), inum, NDIRECT))
    ensures ok ==> old(Slot(fs.sb, fs.Fs(), inum, NDIRECT)) in {0, Slot(fs.sb, fs.Fs(), inum, NDIRECT)}
    ensures Recorded(fs.sb, old(fs.Fs()), fs.Fs(), old(fs.logged), fs.logged)
    ensures |fs.inodes| == |old(fs.inodes)| && (ok <==> FreeCount(old(fs.Bitmap())) >= Wants(fs.sb, old(fs.Fs()), inum, off / BSIZE))
    ensures ok ==> Made(fs.sb, old(fs.Fs()), fs.Fs(), inum, off / BSIZE)
  {
    ghost var v := fs.Fs();
    var bn := off / BSIZE;
    ok, addr := fs.BMap(inum, bn);
    if ok {
      ghost var m, l := fs.Fs(), fs.logged;
      LocatedBlock(fs.sb, v, m, inum, bn, addr);
      var blk := Patch(fs.data[addr], off % BSIZE, piece);
      LocatedStored(fs.sb, v, m, m.(data := m.data[addr := blk]), inum, bn, addr, off % BSIZE, piece);
      fs.data := fs.data[addr := blk];
      fs.logged := fs.logged + {addr};
      RecordedOn(fs.sb, v, m, fs.Fs(), old(fs.logged), l, fs.logged);
      StillMade(fs.sb, v, m, fs.Fs(), inum, bn);
    }
  }

  lemma StillMade(sb: Super, v: FsSpec.Fs, m: FsSpec.Fs, n: FsSpec.Fs, i: nat, bn: nat)
    requires Shape(sb, v) && Shape(sb, m) && Shape(sb, n) && i < |v.inodes| == |m.inodes| == |n.inodes| && bn < MAXFILE && Made(sb, v, m, i, bn)
    requires n.bitmap == m.bitmap && forall s :: 0 <= s < NSLOT ==> Slot(sb, n, i, s) == Slot(sb, m, i, s)
    ensures Made(sb, v, n, i, bn)
  {
  }

  /** What bmap returns: the block that was there, or a new one. */
  ghost predicate Located(sb: Super, v: FsSpec.Fs, m: FsSpec.Fs, i: nat, bn: nat, a: nat)
    requires Owns(sb, v) && i < |v.inodes| && bn < MAXFILE
  {
    if Has(sb, v, i, bn) then m == v && a == Slot(sb, v, i, DataSlot(bn)) else Mapped(sb, v, m, i, bn, a)
  }

  lemma LocatedBlock(sb: Super, v: FsSpec.Fs, m: FsSpec.Fs, i: nat, bn: nat, a: nat)
    requires Owns(sb, v) && i < |v.inodes| && bn < MAXFILE && Located(sb, v, m, i, bn, a)
    ensures Owns(sb, m) && |m.inodes| == |v.inodes| && a < |m.data| && Has(sb, m, i, bn)
    ensures a == Slot(sb, m, i, DataSlot(bn)) && BlockOf(sb, m, i, bn) == m.data[a]
    ensures Slot(sb, v, i, NDIRECT) in {0, Slot(sb, m, i, NDIRECT)}
    ensures bn >= NDIRECT ==> Slot(sb, m, i, NDIRECT) != 0
  {
    assert IsSlot(m, i, DataSlot(bn)) && IsSlot(v, i, NDIRECT);
    assert InUse(sb, m, Slot(sb, m, i, DataSlot(bn)));
  }

  lemma LocatedStored(sb: Super, v: FsSpec.Fs, m: FsSpec.Fs, n: FsSpec.Fs, i: nat, bn: nat, a: nat, o: nat, piece: seq<Byte>)
    requires Owns(sb, v) && i < |v.inodes| && bn < MAXFILE && Located(sb, v, m, i, bn, a)
    requires o + |piece| <= BSIZE && a < |m.data| && n == m.(data := m.data[a := Patch(m.data[a], o, piece)])
    ensures Owns(sb, n) && Stored(sb, v, n, i, bn, o, piece)
    ensures |n.inodes| == |m.inodes| && forall s :: 0 <= s < NSLOT ==> Slot(sb, n, i, s) == Slot(sb, m, i, s)
  {
    LocatedBlock(sb, v, m, i, bn, a);
    PatchSlots(sb, m, n, i, bn, o, piece);
    PatchStored(sb, m, n, i, bn, o, piece);
    if !Has(sb, v, i, bn) {
      MapPatchStored(sb, v, m, n, i, bn, a, o, piece);
    }
  }

  /** A data block's contents are in no slot. */
  lemma PatchSlots(sb: Super, m: FsSpec.Fs, n: FsSpec.Fs, i: nat, bn: nat, o: nat, piece: seq<Byte>)
    requires Owns(sb, m) && i < |m.inodes| && Has(sb, m, i, bn) && o + |piece| <= BSIZE && Slot(sb, m, i, DataSlot(bn)) < sb.size
    requires n == m.(data := m.data[Slot(sb, m, i, DataSlot(bn)) := Patch(BlockOf(sb, m, i, bn), o, piece)])
    ensures Shape(sb, n) && forall s :: 0 <= s < NSLOT ==> Slot(sb, n, i, s) == Slot(sb, m, i, s)
  {
    assert IsSlot(m, i, DataSlot(bn)) && IsSlot(m, i, NDIRECT);
    assert Slot(sb, m, i, NDIRECT) != Slot(sb, m, i, DataSlot(bn));
  }

  /** The state after the first tot bytes of src have gone in from off on. */
  ghost predicate Written(sb: Super, v: FsSpec.Fs, n: FsSpec.Fs, i: nat, off: nat, src: seq<Byte>, tot: nat)
    requires NoHoles(sb, v) && i < |v.inodes| && off <= v.inodes[i].size && tot <= |src|
  {
    && Shape(sb, n) && Readdressed(v, n, i)
    && Covered(sb, n, i, Max(v.inodes[i].size, off + tot))
    && Bytes(sb, n, i, Max(v.inodes[i].size, off + tot)) == Splice(Content(sb, v, i), off, src[..tot])
    && (n.inodes == v.inodes || off + tot > v.inodes[i].size)
    && forall j :: 0 <= j < |v.inodes| && j != i ==> Unchanged(sb, v, n, j)
  }

  ghost predicate Unchanged(sb: Super, v: FsSpec.Fs, n: FsSpec.Fs, j: nat)
    requires NoHoles(sb, v) && Shape(sb, n) && j < |v.inodes| == |n.inodes|
  {
    Covered(sb, n, j, v.inodes[j].size) && Bytes(sb, n, j, v.inodes[j].size) == Content(sb, v, j)
  }

  lemma WrittenStep(sb: Super, v: FsSpec.Fs, m: FsSpec.Fs, n: FsSpec.Fs, i: nat, off: nat, src: seq<Byte>, tot: nat, at: nat, piece: seq<Byte>, next: nat)
    requires NoHoles(sb, v) && i < |v.inodes| && off <= v.inodes[i].size && next == tot + |piece| <= |src|
    requires 0 < |piece| && at == off + tot < MAXBYTES && piece == src[tot..next]
    requires Written(sb, v, m, i, off, src, tot) && Stored(sb, m, n, i, at / BSIZE, at % BSIZE, piece)
    requires Has(sb, m, i, at / BSIZE) ==> n.inodes == m.inodes
    ensures Written(sb, v, n, i, off, src, next)
  {
    var cur, after := StepBytes(Content(sb, v, i), off, src, tot, piece, next);
    OwnBytes(sb, m, n, i, cur, at, piece, after);
    PieceGrows(sb, m, i, at, |piece|, |cur|);
    StepOthers(sb, v, m, n, i, at, piece);
  }

  lemma StepOthers(sb: Super, v: FsSpec.Fs, m: FsSpec.Fs, n: FsSpec.Fs, i: nat, at: nat, piece: seq<Byte>)
    requires NoHoles(sb, v) && i < |v.inodes| && Readdressed(v, m, i) && Stored(sb, m, n, i, at / BSIZE, at % BSIZE, piece)
    requires forall j :: 0 <= j < |v.inodes| && j != i ==> Unchanged(sb, v, m, j)
    ensures Readdressed(v, n, i) && forall j :: 0 <= j < |v.inodes| && j != i ==> Unchanged(sb, v, n, j)
  {
    forall j | 0 <= j < |v.inodes| && j != i
      ensures Unchanged(sb, v, n, j)
    {
      assert Unchanged(sb, v, m, j);
      StoredOthers(sb, m, n, i, at / BSIZE, at % BSIZE, piece, j, v.inodes[j].size);
    }
  }

  lemma StepBytes(content: seq<Byte>, off: nat, src: seq<Byte>, tot: nat, piece: seq<Byte>, next: nat) returns (cur: seq<Byte>, after: seq<Byte>)
    requires off <= |content| && next == tot + |piece| <= |src| && piece == src[tot..next]
    ensures cur == Splice(content, off, src[..tot]) && after == Splice(content, off, src[..next])
    ensures off + tot <= |cur| && after == Splice(cur, off + tot, piece)
    ensures |cur| == Max(|content|, off + tot) && |after| == Max(|content|, off + next)
  {
    cur, after := Splice(content, off, src[..tot]), Splice(content, off, src[..next]);
    PieceSpliced(content, off, src, tot, |piece|);
  }

  /** The bytes after the piece, given those before. */
  lemma OwnBytes(sb: Super, m: FsSpec.Fs, n: FsSpec.Fs, i: nat, cur: seq<Byte>, at: nat, piece: seq<Byte>, after: seq<Byte>)
    requires at <= |cur| && 0 < |piece| && at < MAXBYTES && Stored(sb, m, n, i, at / BSIZE, at % BSIZE, piece)
    requires Covered(sb, m, i, |cur|) && Bytes(sb, m, i, |cur|) == cur && after == Splice(cur, at, piece)
    ensures Covered(sb, n, i, |after|) && Bytes(sb, n, i, |after|) == after
  {
    StoredBytes(sb, m, n, i, at, piece, |cur|);
  }

  lemma PieceSpliced(s: seq<Byte>, off: nat, src: seq<Byte>, tot: nat, k: nat)
    requires off <= |s| && tot + k <= |src|
    ensures Splice(Splice(s, off, src[..tot]), off + tot, src[tot..tot + k]) == Splice(s, off, src[..tot + k])
  {
    SpliceMore(s, off, src[..tot], src[tot..tot + k]);
    assert src[..tot] + src[tot..tot + k] == src[..tot + k];
  }

  /** A block that had to be allocated lies past the old end. */
  lemma PieceGrows(sb: Super, m: FsSpec.Fs, i: nat, at: nat, k: nat, len: nat)
    requires Shape(sb, m) && i < |m.inodes| && Covered(sb, m, i, len) && 0 < k
    ensures !Has(sb, m, i, at / BSIZE) ==> at + k > len
  {
    if at + k <= len {
      assert at / BSIZE * BSIZE < len;
    }
  }

  /** Setting the size turns the bytes written into the file's contents. */
  lemma WrittenContent(sb: Super, v: FsSpec.Fs, m: FsSpec.Fs, n: FsSpec.Fs, i: nat, off: nat, src: seq<Byte>)
    requires NoHoles(sb, v) && i < |v.inodes| && off <= v.inodes[i].size
    requires Written(sb, v, m, i, off, src, |src|) && Owns(sb, m)
    requires n == m.(inodes := m.inodes[i := m.inodes[i].(size := Max(v.inodes[i].size, off + |src|))])
    ensures Owns(sb, n) && NoHoles(sb, n) && Content(sb, n, i) == Splice(Content(sb, v, i), off, src)
    ensures forall j :: 0 <= j < |v.inodes| && j != i ==> n.inodes[j] == v.inodes[j] && Content(sb, n, j) == Content(sb, v, j)
  {
    assert src[..|src|] == src;
    Resized(sb, m, n, i, n.inodes[i].size);
    assert Covered(sb, n, i, n.inodes[i].size) && Bytes(sb, n, i, n.inodes[i].size) == Splice(Content(sb, v, i), off, src);
    forall j | 0 <= j < |v.inodes| && j != i
      ensures Covered(sb, n, j, n.inodes[j].size) && Bytes(sb, n, j, n.inodes[j].size) == Content(sb, v, j)
    {
      assert Unchanged(sb, v, m, j);
    }
  }

  /** The size of an inode says nothing about its blocks. */
  lemma Resized(sb: Super, m: FsSpec.Fs, n: FsSpec.Fs, i: nat, size: nat)
    requires Owns(sb, m) && i < |m.inodes| && n == m.(inodes := m.inodes[i := m.inodes[i].(size := size)])
    ensures Owns(sb, n) && forall j, s :: IsSlot(m, j, s) ==> Slot(sb, n, j, s) == Slot(sb, m, j, s)
    ensures forall j, l :: 0 <= j < |m.inodes| && 0 <= l ==> (Covered(sb, m, j, l) <==> Covered(sb, n, j, l))
    ensures forall j, l :: 0 <= j < |m.inodes| && 0 <= l <= MAXBYTES ==> Bytes(sb, n, j, l) == Bytes(sb, m, j, l)
  {
    assert Shape(sb, n);
    assert forall j, s :: IsSlot(n, j, s) <==> IsSlot(m, j, s);
    forall j, s | IsSlot(m, j, s)
      ensures Slot(sb, n, j, s) == Slot(sb, m, j, s)
    {
    }
    forall j, bn | 0 <= j < |m.inodes| && 0 <= bn < MAXFILE
      ensures Has(sb, n, j, bn) <==> Has(sb, m, j, bn)
      ensures BlockOf(sb, n, j, bn) == BlockOf(sb, m, j, bn)
    {
      assert IsSlot(m, j, DataSlot(bn));
    }
  }

  // ----- what a write logs --------------------------------------------------

  /** Blocks touched by n bytes from off on. */
  function Touched(off: nat, n: nat): nat {
    if n == 0 then 0 else (off + n + BSIZE - 1) / BSIZE - off / BSIZE
  }

  /** At most this many of them are new: an unaligned start is in a block that is
      already there. */
  function Fresh(off: nat, n: nat): int {
    Touched(off, n) - if n == 0 then 0 else Inside(off)
  }

  /** Everything one writei may log. */
  function WriteBound(off: nat, n: nat): int {
    Touched(off, n) + Fresh(off, n) + 3
  }

  /** A chunk of filewrite stays inside its reservation wherever it starts. */
  lemma ChunkFits(off: nat, n: nat)
    requires n <= 3 * BSIZE
    ensures WriteBound(off, n) <= MAXOPBLOCKS
  {
    if n > 0 {
      var q, o := off / BSIZE, off % BSIZE;
      assert off == q * BSIZE + o;
      assert (off + n + BSIZE - 1) / BSIZE == q + (o + n + BSIZE - 1) / BSIZE;
    }
  }

  lemma NextPiece(off: nat, tot: nat, n: nat, k: nat, next: nat)
    requires tot < n && Aligned(off, tot) && k == Min(n - tot, BSIZE - (off + tot) % BSIZE) && next == tot + k
    ensures 0 < k && (off + tot) % BSIZE + k <= BSIZE && (next == n || Aligned(off, next))
    ensures Touched(off, next) == Touched(off, tot) + 1 && (Touched(off, tot) == 0 <==> tot == 0)
  {
    var at := off + tot;
    var q, o := at / BSIZE, at % BSIZE;
    assert at == q * BSIZE + o;
    assert (at + k + BSIZE - 1) / BSIZE == q + (o + k + BSIZE - 1) / BSIZE;
    if tot > 0 {
      assert (at + BSIZE - 1) / BSIZE == q;
    }
  }

  /** The blocks logged so far: data blocks d, bitmap blocks b of new ones, and the
      indirect block's; p pieces are in, the first in a block that was there
      (first == 1) or not (first == 0). */
  ghost predicate Charged(sb: Super, before: set<nat>, logged: set<nat>, d: set<nat>, b: set<nat>, ptr: nat, p: nat, first: nat) {
    && (forall x :: x in logged ==> x in before || x in d || x in b || OfIndirect(sb, ptr, x))
    && |d| <= p && |b| <= p - if p == 0 then 0 else first
  }

  lemma ChargedNext(sb: Super, before: set<nat>, l: set<nat>, m: set<nat>, d: set<nat>, b: set<nat>, old_: nat, ptr: nat, p: nat, first: nat, addr: nat, had: bool)
    requires Charged(sb, before, l, d, b, old_, p, first) && old_ in {0, ptr}
    requires Logs(sb, l, m, addr, had, ptr) && first <= 1 && (p == 0 && first == 1 ==> had)
    ensures Charged(sb, before, m, d + {addr}, if had then b else b + {sb.BBlock(addr)}, ptr, p + 1, first)
  {
    var bb := if had then b else b + {sb.BBlock(addr)};
    assert |d + {addr}| <= |d| + 1 && |bb| <= |b| + 1;
  }

  /** writei's loop.  False where bmap panics for want of a free block. */
  method WriteLoop(fs: Blocks, inum: nat, src: seq<Byte>, off: nat) returns (ok: bool, ghost d: set<nat>, ghost b: set<nat>)
    requires Good(fs) && inum < |fs.inodes| && off <= fs.inodes[inum].size && off + |src| <= MAXBYTES
    modifies fs
    ensures fs.Valid() && fs.dinodes == old(fs.dinodes)
    ensures !ok ==> forall c :: 0 <= c < fs.sb.size ==> fs.Bitmap()[c]
    ensures ok ==> Written(fs.sb, old(fs.Fs()), fs.Fs(), inum, off, src, |src|)
    ensures ok ==> Charged(fs.sb, old(fs.logged), fs.logged, d, b, Slot(fs.sb, fs.Fs(), inum, NDIRECT), Touched(off, |src|), Inside(off))
    ensures Recorded(fs.sb, old(fs.Fs()), fs.Fs(), old(fs.logged), fs.logged)
    ensures off / BSIZE + Touched(off, |src|) <= MAXFILE
    ensures ok <==> FreeCount(old(fs.Bitmap())) >= Needs(fs.sb, old(fs.Fs()), inum, off / BSIZE, off / BSIZE + Touched(off, |src|))
  {
    ghost var v := fs.Fs();
    assert Covered(fs.sb, v, inum, v.inodes[inum].size);
    ghost var lo, blk, hi := off / BSIZE, off / BSIZE, off / BSIZE + Touched(off, |src|);
    LastBlock(off, |src|);
    var tot := 0;
    ok, d, b := true, {}, {};
    WrittenNone(fs.sb, v, inum, off, src);
    while tot < |src|
      invariant 0 <= tot <= |src| && fs.Valid() && fs.dinodes == old(fs.dinodes)
      invariant tot == |src| || Aligned(off, tot)
      invariant blk == lo + Touched(off, tot) <= hi && |fs.inodes| == |v.inodes| && Provided(fs.sb, v, fs.Fs(), inum, lo, blk)
      invariant Written(fs.sb, v, fs.Fs(), inum, off, src, tot) && Recorded(fs.sb, v, fs.Fs(), old(fs.logged), fs.logged)
      invariant Charged(fs.sb, old(fs.logged), fs.logged, d, b, Slot(fs.sb, fs.Fs(), inum, NDIRECT), Touched(off, tot), Inside(off))
    {
      ok, tot, d, b, blk := WriteStep(fs, inum, src, off, tot, v, old(fs.logged), d, b, lo, blk, hi);
      if !ok { return; }
    }
  }

  lemma LastBlock(off: nat, n: nat)
    requires off + n <= MAXBYTES
    ensures off / BSIZE + Touched(off, n) <= MAXFILE
  {
  }

  predicate Aligned(off: nat, tot: nat) {
    tot == 0 || (off + tot) % BSIZE == 0
  }

  /** 1 when off is inside a block. */
  function Inside(off: nat): nat {
    if off % BSIZE == 0 then 0 else 1
  }

  method WriteStep(fs: Blocks, inum: nat, src: seq<Byte>, off: nat, tot: nat, ghost v: FsSpec.Fs, ghost before: set<nat>, ghost d: set<nat>, ghost b: set<nat>,
                   ghost lo: nat, ghost blk: nat, ghost hi: nat)
    returns (ok: bool, next: nat, ghost dd: set<nat>, ghost bb: set<nat>, ghost more: nat)
    requires lo == off / BSIZE && blk == lo + Touched(off, tot) && hi == lo + Touched(off, |src|) <= MAXFILE
    requires fs.Valid() && inum < |fs.inodes| && tot < |src| && off + |src| <= MAXBYTES && Aligned(off, tot)
    requires NoHoles(fs.sb, v) && inum < |v.inodes| && off <= v.inodes[inum].size
    requires Written(fs.sb, v, fs.Fs(), inum, off, src, tot) && Recorded(fs.sb, v, fs.Fs(), before, fs.logged)
    requires Charged(fs.sb, before, fs.logged, d, b, Slot(fs.sb, fs.Fs(), inum, NDIRECT), Touched(off, tot), Inside(off))
    requires |fs.inodes| == |v.inodes| && blk <= hi && Provided(fs.sb, v, fs.Fs(), inum, lo, blk)
    modifies fs
    ensures |fs.inodes| == |v.inodes| && more == blk + 1 == lo + Touched(off, next) && more <= hi
    ensures fs.Valid() && fs.dinodes == old(fs.dinodes) && tot < next <= |src|
    ensures !ok ==> forall c :: 0 <= c < fs.sb.size ==> fs.Bitmap()[c]
    ensures ok ==> next == |src| || Aligned(off, next)
    ensures ok ==> Written(fs.sb, v, fs.Fs(), inum, off, src, next)
    ensures ok ==> Charged(fs.sb, before, fs.logged, dd, bb, Slot(fs.sb, fs.Fs(), inum, NDIRECT), Touched(off, next), Inside(off))
    ensures Recorded(fs.sb, v, fs.Fs(), before, fs.logged)
    ensures if ok then Provided(fs.sb, v, fs.Fs(), inum, lo, more) else FreeCount(v.bitmap) < Needs(fs.sb, v, inum, lo, hi)
  {
    ghost var m, l, ptr := fs.Fs(), fs.logged, Slot(fs.sb, fs.Fs(), inum, NDIRECT);
    var k := Min(|src| - tot, BSIZE - (off + tot) % BSIZE);
    ghost var had := Has(fs.sb, m, inum, (off + tot) / BSIZE);
    FirstThere(fs.sb, v, m, inum, off, src, tot);
    next, dd, bb, more := tot + k, d, b, blk + 1;
    NextPiece(off, tot, |src|, k, next);
    NextBlock(off, tot, next, |src|, lo, blk);
    var addr;
    ok, addr := StoreWritten(fs, inum, src, off, tot, next, v, before, lo, blk, more);
    LackingMore(fs.sb, v, inum, lo, more, hi);
    if ok {
      ChargedNext(fs.sb, before, l, fs.logged, d, b, ptr, Slot(fs.sb, fs.Fs(), inum, NDIRECT), Touched(off, tot), Inside(off), addr, had);
      dd := d + {addr};
      bb := if had then b else b + {fs.sb.BBlock(addr)};
    }
  }

  method StoreWritten(fs: Blocks, inum: nat, src: seq<Byte>, off: nat, tot: nat, next: nat, ghost v: FsSpec.Fs, ghost before: set<nat>,
                      ghost lo: nat, ghost blk: nat, ghost more: nat) returns (ok: bool, addr: nat)
    requires lo <= blk == (off + tot) / BSIZE && more == blk + 1 <= MAXFILE
    requires fs.Valid() && inum < |fs.inodes| && tot < next <= |src| && off + |src| <= MAXBYTES
    requires (off + tot) % BSIZE + (next - tot) <= BSIZE
    requires NoHoles(fs.sb, v) && inum < |v.inodes| && off <= v.inodes[inum].size
    requires Written(fs.sb, v, fs.Fs(), inum, off, src, tot) && Recorded(fs.sb, v, fs.Fs(), before, fs.logged)
    requires |fs.inodes| == |v.inodes| && Provided(fs.sb, v, fs.Fs(), inum, lo, blk)
    modifies fs
    ensures |fs.inodes| == |v.inodes|
    ensures fs.Valid() && fs.dinodes == old(fs.dinodes) && Recorded(fs.sb, v, fs.Fs(), before, fs.logged)
    ensures !ok ==> forall c :: 0 <= c < fs.sb.size ==> fs.Bitmap()[c]
    ensures ok ==> Written(fs.sb, v, fs.Fs(), inum, off, src, next)
    ensures ok ==> Logs(fs.sb, old(fs.logged), fs.logged, addr, old(Has(fs.sb, fs.Fs(), inum, (off + tot) / BSIZE)), Slot(fs.sb, fs.Fs(), inum, NDIRECT))
    ensures ok ==> old(Slot(fs.sb, fs.Fs(), inum, NDIRECT)) in {0, Slot(fs.sb, fs.Fs(), inum, NDIRECT)}
    ensures if ok then Provided(fs.sb, v, fs.Fs(), inum, lo, more) else FreeCount(v.bitmap) < Needs(fs.sb, v, inum, lo, more)
  {
    ghost var m, l := fs.Fs(), fs.logged;
    NeedsNext(fs.sb, v, m, inum, lo, blk, more);
    var piece, at := src[tot..next], off + tot;
    assert next == tot + |piece| && 0 < |piece| && at < MAXBYTES && at % BSIZE + |piece| <= BSIZE;
    ok, addr := StorePiece(fs, inum, at, piece);
    RecordedOn(fs.sb, v, m, fs.Fs(), before, l, fs.logged);
    if ok {
      WrittenStep(fs.sb, v, m, fs.Fs(), inum, off, src, tot, at, piece, next);
      ProvidedNext(fs.sb, v, m, fs.Fs(), inum, lo, blk, more);
    }
  }

  lemma NextBlock(off: nat, tot: nat, next: nat, n: nat, lo: nat, blk: nat)
    requires tot < next <= n && Aligned(off, tot) && lo == off / BSIZE && blk == lo + Touched(off, tot) && Touched(off, next) == Touched(off, tot) + 1
    ensures blk == (off + tot) / BSIZE && blk + 1 <= lo + Touched(off, n)
  {
    assert (off + next + BSIZE - 1) / BSIZE <= (off + n + BSIZE - 1) / BSIZE;
  }

  lemma WrittenNone(sb: Super, v: FsSpec.Fs, i: nat, off: nat, src: seq<Byte>)
    requires NoHoles(sb, v) && i < |v.inodes| && off <= v.inodes[i].size
    ensures Written(sb, v, v, i, off, src, 0)
  {
    assert Covered(sb, v, i, v.inodes[i].size);
    assert Splice(Content(sb, v, i), off, src[..0]) == Content(sb, v, i);
    forall j | 0 <= j < |v.inodes| && j != i
      ensures Unchanged(sb, v, v, j)
    {
      assert Covered(sb, v, j, v.inodes[j].size);
    }
  }

  /** An unaligned write starts in a block that is already there. */
  lemma FirstThere(sb: Super, v: FsSpec.Fs, m: FsSpec.Fs, i: nat, off: nat, src: seq<Byte>, tot: nat)
    requires NoHoles(sb, v) && i < |v.inodes| && off <= v.inodes[i].size && tot <= |src|
    requires Written(sb, v, m, i, off, src, tot)
    ensures tot == 0 && off % BSIZE != 0 ==> Has(sb, m, i, off / BSIZE)
  {
    if tot == 0 && off % BSIZE != 0 {
      assert off / BSIZE * BSIZE < off <= Max(v.inodes[i].size, off);
    }
  }

  /** The blocks a whole write may have logged, counted. */
  lemma CountCharged(sb: Super, before: set<nat>, logged: set<nat>, d: set<nat>, b: set<nat>, ptr: nat, off: nat, n: nat, ib: nat)
    returns (wrote: set<nat>)
    requires Charged(sb, before, logged, d, b, ptr, Touched(off, n), Inside(off))
    ensures logged + {ib} <= before + wrote && |wrote| <= WriteBound(off, n)
  {
    var ind := if ptr == 0 then {} else {ptr, sb.BBlock(ptr)};
    wrote := d + b + ind + {ib};
    NothingTouched(off, n);
    assert |d + b| <= |d| + |b| && |ind| <= 2;
    assert |d + b + ind| <= |d + b| + |ind|;
  }

  lemma NothingTouched(off: nat, n: nat)
    ensures Touched(off, n) == 0 <==> n == 0
  {
    if n > 0 {
      var q, o := off / BSIZE, off % BSIZE;
      assert (off + n + BSIZE - 1) / BSIZE == q + (o + n + BSIZE - 1) / BSIZE;
    }
  }

  /** What writei refuses. */
  predicate Refused(size: nat, off: nat, n: nat) {
    off > size || off + n >= UINT || off + n > MAXBYTES
  }

  /** There are free blocks for n bytes of file i from off on. */
  ghost predicate Affords(sb: Super, v: FsSpec.Fs, i: nat, off: nat, n: nat)
    requires Shape(sb, v) && i < |v.inodes|
  {
    off / BSIZE + Touched(off, n) <= MAXFILE && FreeCount(v.bitmap) >= Needs(sb, v, i, off / BSIZE, off / BSIZE + Touched(off, n))
  }

  /** writei.  A device answers `dev`.  False where the code panics: exactly when
      there are fewer blocks free than the bytes take. */
  method WriteI(fs: Blocks, inum: nat, src: seq<Byte>, off: nat, dev: int) returns (ok: bool, r: int, ghost wrote: set<nat>)
    requires Good(fs) && inum < |fs.inodes| && off < UINT && |src| < UINT
    modifies fs
    ensures !ok ==> fs.Valid() && !old(fs.inodes)[inum].dev && forall c :: 0 <= c < fs.sb.size ==> fs.Bitmap()[c]
    ensures ok ==> Good(fs) && |fs.inodes| == |old(fs.inodes)|
    ensures ok ==> fs.logged <= old(fs.logged) + wrote && |wrote| <= WriteBound(off, |src|)
    ensures ok && old(fs.inodes)[inum].dev ==> r == dev && fs.Fs() == old(fs.Fs())
    ensures ok && !old(fs.inodes)[inum].dev && Refused(old(fs.inodes)[inum].size, off, |src|) ==> r == -1 && fs.Fs() == old(fs.Fs())
    ensures ok && !old(fs.inodes)[inum].dev && !Refused(old(fs.inodes)[inum].size, off, |src|) ==>
              r == |src| && Overwritten(fs.sb, old(fs.Fs()), fs.Fs(), inum, off, src)
    ensures ok <==> old(fs.inodes)[inum].dev || Refused(old(fs.inodes)[inum].size, off, |src|)
                    || Affords(fs.sb, old(fs.Fs()), inum, off, |src|)
    ensures Recorded(fs.sb, old(fs.Fs()), fs.Fs(), old(fs.logged), fs.logged)
    ensures InodesLogged(fs.sb, old(fs.dinodes), fs.dinodes, fs.logged)
  {
    ok, wrote := true, {};
    BoundPositive(off, |src|);
    if fs.inodes[inum].dev {
      return ok, dev, wrote;
    }
    var size := fs.inodes[inum].size;
    if off > size || (off + |src|) % UINT < off {
      return ok, -1, wrote;
    }
    if off + |src| > MAXBYTES {
      return ok, -1, wrote;
    }
    ghost var v := fs.Fs();
    ghost var d, b;
    ok, d, b := WriteLoop(fs, inum, src, off);
    r := |src|;
    if ok {
      ghost var m := fs.Fs();
      wrote := CountCharged(fs.sb, old(fs.logged), fs.logged, d, b, Slot(fs.sb, m, inum, NDIRECT), off, |src|, fs.sb.IBlock(inum));
      SetSize(fs, inum, src, off, size, v, old(fs.logged));
    }
  }

  /** The end of writei: a file that grew gets its size, and its inode is written. */
  method SetSize(fs: Blocks, inum: nat, src: seq<Byte>, off: nat, size: nat, ghost v: FsSpec.Fs, ghost before: set<nat>)
    requires fs.Valid() && inum < |fs.inodes| == |v.inodes| && NoHoles(fs.sb, v) && off <= v.inodes[inum].size == size
    requires Written(fs.sb, v, fs.Fs(), inum, off, src, |src|) && fs.dinodes == v.inodes && Recorded(fs.sb, v, fs.Fs(), before, fs.logged)
    modifies fs`inodes, fs`dinodes, fs`logged
    ensures Good(fs) && Overwritten(fs.sb, v, fs.Fs(), inum, off, src)
    ensures fs.logged <= old(fs.logged) + {fs.sb.IBlock(inum)}
    ensures Recorded(fs.sb, v, fs.Fs(), before, fs.logged) && InodesLogged(fs.sb, v.inodes, fs.dinodes, fs.logged)
  {
    ghost var m := fs.Fs();
    if |src| > 0 && off + |src| > size {
      fs.inodes := fs.inodes[inum := fs.inodes[inum].(size := off + |src|)];
      fs.IUpdate(inum);
    }
    WrittenContent(fs.sb, v, m, fs.Fs(), inum, off, src);
  }

  lemma BoundPositive(off: nat, n: nat)
    ensures 0 <= WriteBound(off, n)
  {
    NothingTouched(off, n);
  }

  /** File i has src spliced in at off; every other file is as it was. */
  ghost predicate Overwritten(sb: Super, v: FsSpec.Fs, n: FsSpec.Fs, i: nat, off: nat, src: seq<Byte>)
    requires NoHoles(sb, v) && i < |v.inodes|
  {
    && NoHoles(sb, n) && |n.inodes| == |v.inodes| && off <= |Content(sb, v, i)|
    && Content(sb, n, i) == Splice(Content(sb, v, i), off, src)
    && n.inodes[i] == v.inodes[i].(addrs := n.inodes[i].addrs, size := |Content(sb, n, i)|)
    && forall j :: 0 <= j < |v.inodes| && j != i ==> n.inodes[j] == v.inodes[j] && Content(sb, n, j) == Content(sb, v, j)
  }

  lemma OverwrittenMore(sb: Super, v: FsSpec.Fs, m: FsSpec.Fs, n: FsSpec.Fs, i: nat, off: nat, src: seq<Byte>, k: nat, next: nat)
    requires NoHoles(sb, v) && i < |v.inodes| && k <= next <= |src|
    requires Overwritten(sb, v, m, i, off, src[..k]) && Overwritten(sb, m, n, i, off + k, src[k..next])
    ensures Overwritten(sb, v, n, i, off, src[..next])
  {
    SpliceMore(Content(sb, v, i), off, src[..k], src[k..next]);
    assert src[..k] + src[k..next] == src[..next];
  }
}
