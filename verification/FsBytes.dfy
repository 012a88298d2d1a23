/** A file's contents as one byte sequence, and what storing a few bytes in one of
    its blocks does to it. */
module FsBytes {
  import opened FsSpec

  const MAXBYTES: nat := MAXFILE * BSIZE

  /** The bytes of file block bn. */
  ghost function BlockOf(sb: Super, v: Fs, i: nat, bn: int): Blk
    requires Shape(sb, v) && i < |v.inodes| && 0 <= bn < MAXFILE
  {
    var b := Slot(sb, v, i, DataSlot(bn));
    if b < |v.data| then v.data[b] else Zero()
  }

  ghost function Bytes(sb: Super, v: Fs, i: nat, len: nat): (s: seq<Byte>)
    requires Shape(sb, v) && i < |v.inodes| && len <= MAXBYTES
    ensures |s| == len && forall x :: 0 <= x < len ==> s[x] == BlockOf(sb, v, i, x / BSIZE)[x % BSIZE]
  {
    seq(len, x requires 0 <= x < len => BlockOf(sb, v, i, x / BSIZE)[x % BSIZE])
  }

  /** File block bn has a block. */
  ghost predicate Has(sb: Super, v: Fs, i: nat, bn: int)
    requires Shape(sb, v) && i < |v.inodes|
  {
    0 <= bn < MAXFILE && Slot(sb, v, i, DataSlot(bn)) != 0
  }

  /** Every block below byte len is there. */
  ghost predicate Covered(sb: Super, v: Fs, i: nat, len: nat)
    requires Shape(sb, v) && i < |v.inodes|
  {
    len <= MAXBYTES && forall bn :: 0 <= bn && bn * BSIZE < len ==> Has(sb, v, i, bn)
  }

  ghost predicate NoHoles(sb: Super, v: Fs) {
    && Shape(sb, v)
    && forall i :: 0 <= i < |v.inodes| ==> Covered(sb, v, i, v.inodes[i].size)
  }

  ghost function Content(sb: Super, v: Fs, i: nat): seq<Byte>
    requires NoHoles(sb, v) && i < |v.inodes|
  {
    assert Covered(sb, v, i, v.inodes[i].size);
    Bytes(sb, v, i, v.inodes[i].size)
  }

  /** s with piece in place from off on, extended where it runs past the end. */
  function Splice(s: seq<Byte>, off: nat, piece: seq<Byte>): (r: seq<Byte>)
    requires off <= |s|
    ensures |r| == Max(|s|, off + |piece|)
    ensures forall x :: 0 <= x < |r| ==> r[x] == if off <= x < off + |piece| then piece[x - off] else s[x]
  {
    s[..off] + piece + if off + |piece| < |s| then s[off + |piece|..] else []
  }

  function Max(a: nat, b: nat): nat {
    if a < b then b else a
  }

  lemma SpliceMore(s: seq<Byte>, off: nat, a: seq<Byte>, b: seq<Byte>)
    requires off <= |s|
    ensures Splice(Splice(s, off, a), off + |a|, b) == Splice(s, off, a + b)
  {
  }

  function Patch(blk: Blk, o: nat, piece: seq<Byte>): (r: Blk)
    requires o + |piece| <= BSIZE
    ensures forall x :: 0 <= x < BSIZE ==> r[x] == if o <= x < o + |piece| then piece[x - o] else blk[x]
  {
    blk[..o] + piece + blk[o + |piece|..]
  }

  // ----- one block stored ---------------------------------------------------

  /** From v to n, file block bn of inode i got a block if it had none and then
      `piece` at byte o of it; no other file block changed. */
  ghost predicate Stored(sb: Super, v: Fs, n: Fs, i: nat, bn: nat, o: nat, piece: seq<Byte>) {
    && Shape(sb, v) && Shape(sb, n) && Readdressed(v, n, i) && bn < MAXFILE && o + |piece| <= BSIZE
    && Has(sb, n, i, bn)
    && BlockOf(sb, n, i, bn) == Patch(if Has(sb, v, i, bn) then BlockOf(sb, v, i, bn) else Zero(), o, piece)
    && forall j: nat, b :: j < |v.inodes| && Has(sb, v, j, b) && !(j == i && b == bn) ==>
         Has(sb, n, j, b) && BlockOf(sb, n, j, b) == BlockOf(sb, v, j, b)
  }

  /** Mapping a new block leaves every other file block as it was. */
  lemma MappedKeeps(sb: Super, v: Fs, n: Fs, i: nat, bn: nat, a: nat, j: nat, b: int)
    requires Owns(sb, v) && Mapped(sb, v, n, i, bn, a) && j < |v.inodes| && Has(sb, v, j, b)
    requires !(j == i && b == bn)
    ensures Has(sb, n, j, b) && BlockOf(sb, n, j, b) == BlockOf(sb, v, j, b)
  {
    assert IsSlot(v, j, DataSlot(b)) && IsSlot(v, i, NDIRECT);
    assert InUse(sb, v, Slot(sb, v, j, DataSlot(b)));
  }

  /** Writing bytes into a file block that is there. */
  lemma PatchStored(sb: Super, v: Fs, n: Fs, i: nat, bn: nat, o: nat, piece: seq<Byte>)
    requires Owns(sb, v) && i < |v.inodes| && Has(sb, v, i, bn) && o + |piece| <= BSIZE
    requires Slot(sb, v, i, DataSlot(bn)) < sb.size
    requires n == v.(data := v.data[Slot(sb, v, i, DataSlot(bn)) := Patch(BlockOf(sb, v, i, bn), o, piece)])
    ensures Owns(sb, n) && Stored(sb, v, n, i, bn, o, piece)
    ensures Slot(sb, n, i, NDIRECT) == Slot(sb, v, i, NDIRECT)
  {
    assert IsSlot(v, i, DataSlot(bn)) && IsSlot(v, i, NDIRECT);
    WriteOwns(sb, v, i, DataSlot(bn), Patch(BlockOf(sb, v, i, bn), o, piece));
    forall j: nat, b | j < |v.inodes| && Has(sb, v, j, b) && !(j == i && b == bn)
      ensures Has(sb, n, j, b) && BlockOf(sb, n, j, b) == BlockOf(sb, v, j, b)
    {
      assert IsSlot(v, j, DataSlot(b));
      assert Slot(sb, v, j, DataSlot(b)) != Slot(sb, v, i, DataSlot(bn));
    }
  }

  /** Mapping a block and then writing into it. */
  lemma MapPatchStored(sb: Super, v: Fs, m: Fs, n: Fs, i: nat, bn: nat, a: nat, o: nat, piece: seq<Byte>)
    requires Owns(sb, v) && i < |v.inodes| && bn < MAXFILE && !Has(sb, v, i, bn) && Mapped(sb, v, m, i, bn, a)
    requires Stored(sb, m, n, i, bn, o, piece) && n.inodes == m.inodes
    ensures Stored(sb, v, n, i, bn, o, piece)
  {
    assert Slot(sb, m, i, DataSlot(bn)) == a;
    forall j: nat, b | j < |v.inodes| && Has(sb, v, j, b) && !(j == i && b == bn)
      ensures Has(sb, n, j, b) && BlockOf(sb, n, j, b) == BlockOf(sb, v, j, b)
    {
      MappedKeeps(sb, v, m, i, bn, a, j, b);
    }
  }

  /** Another file's bytes do not change. */
  lemma StoredOthers(sb: Super, v: Fs, n: Fs, i: nat, bn: nat, o: nat, piece: seq<Byte>, j: nat, len: nat)
    requires Stored(sb, v, n, i, bn, o, piece) && j < |v.inodes| && j != i && Covered(sb, v, j, len)
    ensures Covered(sb, n, j, len) && Bytes(sb, n, j, len) == Bytes(sb, v, j, len)
  {
    forall x | 0 <= x < len
      ensures Bytes(sb, n, j, len)[x] == Bytes(sb, v, j, len)[x]
    {
      assert Has(sb, v, j, x / BSIZE);
    }
  }

  /** The file's own bytes: the piece is spliced in. */
  lemma StoredBytes(sb: Super, v: Fs, n: Fs, i: nat, off: nat, piece: seq<Byte>, len: nat)
    requires off < MAXBYTES && Stored(sb, v, n, i, off / BSIZE, off % BSIZE, piece)
    requires Covered(sb, v, i, len) && off <= len && 0 < |piece|
    ensures Covered(sb, n, i, Max(len, off + |piece|))
    ensures Bytes(sb, n, i, Max(len, off + |piece|)) == Splice(Bytes(sb, v, i, len), off, piece)
  {
    var l := Max(len, off + |piece|);
    forall bn | 0 <= bn && bn * BSIZE < l
      ensures Has(sb, n, i, bn)
    {
      StoredCovers(off, |piece|, len, bn);
      assert bn != off / BSIZE ==> Has(sb, v, i, bn);
    }
    assert l <= MAXBYTES;
    forall x | 0 <= x < l
      ensures Bytes(sb, n, i, l)[x] == Splice(Bytes(sb, v, i, len), off, piece)[x]
    {
      StoredByte(sb, v, n, i, off, piece, len, x);
    }
  }

  lemma StoredCovers(off: nat, m: nat, len: nat, bn: int)
    requires off <= len && off % BSIZE + m <= BSIZE && 0 <= bn && bn * BSIZE < Max(len, off + m)
    ensures bn == off / BSIZE || bn * BSIZE < len
  {
  }

  lemma StoredByte(sb: Super, v: Fs, n: Fs, i: nat, off: nat, piece: seq<Byte>, len: nat, x: nat)
    requires off < MAXBYTES && Stored(sb, v, n, i, off / BSIZE, off % BSIZE, piece)
    requires Covered(sb, v, i, len) && off <= len && x < Max(len, off + |piece|) <= MAXBYTES
    ensures BlockOf(sb, n, i, x / BSIZE)[x % BSIZE] == if off <= x < off + |piece| then piece[x - off] else Bytes(sb, v, i, len)[x]
  {
    if x / BSIZE == off / BSIZE {
      assert x % BSIZE - off % BSIZE == x - off;
      if !(off <= x < off + |piece|) {
        assert Has(sb, v, i, x / BSIZE);
      }
    } else {
      assert !(off <= x < off + |piece|);
      assert Has(sb, v, i, x / BSIZE);
    }
  }
}
