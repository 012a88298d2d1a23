/** The image mkfs starts from, an empty root directory, and what it does to the size
    of that directory at the end. */
module FsImage {
  import opened FsSpec
  import opened FsBytes
  import opened FsBlocks
  import opened FsFiles

  const ROOTINO: nat := 1

  function EmptyMap(n: nat): seq<BitBlk> {
    seq(n, _ => seq(BSIZE, _ => 0))
  }

  lemma EmptyBit(n: nat, size: nat, b: nat)
    requires b < size <= n * BPB
    ensures b / BPB < n && !MapBit(EmptyMap(n), b)
  {
    assert EmptyMap(n)[b / BPB][b % BPB / 8] == 0;
  }

  /** mkfs's balloc: the free map with the blocks below `used` taken. */
  method MarkUsed(size: nat, used: nat) returns (bm: seq<BitBlk>)
    requires used < BPB && used <= size
    ensures |bm| == size / BPB + 1 && size <= |bm| * BPB
    ensures forall b :: 0 <= b < size ==> (Unpacked(bm, size)[b] <==> b < used)
  {
    bm := EmptyMap(size / BPB + 1);
    assert size <= |bm| * BPB;
    forall b | 0 <= b < size
      ensures !Unpacked(bm, size)[b]
    {
      EmptyBit(|bm|, size, b);
    }
    var i := 0;
    while i < used
      invariant 0 <= i <= used && |bm| == size / BPB + 1 && size <= |bm| * BPB
      invariant forall b :: 0 <= b < size ==> (Unpacked(bm, size)[b] <==> b < i)
    {
      var byte := SetBit(ByteOf(bm, i), i % BPB % 8);
      StoreInMap(bm, size, i, byte);
      bm := StoreByte(bm, i, byte);
      i := i + 1;
    }
  }

  /** The root directory has block nmeta; the other inodes have none. */
  function FirstInode(sb: Super, i: nat): (ip: Inode)
    ensures |ip.addrs| == NDIRECT + 1 && ip.size == if i == ROOTINO then BSIZE else 0
    ensures forall k :: 0 <= k <= NDIRECT ==> ip.addrs[k] == if i == ROOTINO && k == 0 then sb.nmeta else 0
  {
    if i == ROOTINO then Inode(false, 1, BSIZE, Zeros(NDIRECT + 1)[0 := sb.nmeta]) else Inode(false, 0, 0, Zeros(NDIRECT + 1))
  }

  function FirstInodes(sb: Super, ninodes: nat): (r: seq<Inode>)
    ensures |r| == ninodes && forall i :: 0 <= i < ninodes ==> r[i] == FirstInode(sb, i)
  {
    seq(ninodes, i requires 0 <= i < ninodes => FirstInode(sb, i))
  }

  ghost predicate FirstImage(sb: Super, v: FsSpec.Fs, ninodes: nat) {
    && 1 <= sb.nmeta < sb.size <= UINT && |v.bitmap| == sb.size == |v.data| && ninodes > ROOTINO
    && v.inodes == FirstInodes(sb, ninodes) && forall b :: 0 <= b < sb.size ==> (v.bitmap[b] <==> b <= sb.nmeta)
  }

  lemma FirstSlot(sb: Super, v: FsSpec.Fs, ninodes: nat, i: int, s: int)
    requires FirstImage(sb, v, ninodes) && IsSlot(v, i, s)
    ensures Shape(sb, v) && Slot(sb, v, i, s) == if i == ROOTINO && s == 0 then sb.nmeta else 0
  {
    FirstShape(sb, v, ninodes);
  }

  lemma FirstShape(sb: Super, v: FsSpec.Fs, ninodes: nat)
    requires FirstImage(sb, v, ninodes)
    ensures Shape(sb, v)
  {
    forall i | 0 <= i < |v.inodes|
      ensures InodeOk(sb, v.inodes[i])
    {
    }
  }

  /** Ownership and files without holes hold at the start. */
  lemma FirstOwns(sb: Super, v: FsSpec.Fs, ninodes: nat)
    requires FirstImage(sb, v, ninodes)
    ensures Owns(sb, v) && NoHoles(sb, v)
  {
    FirstShape(sb, v, ninodes);
    forall i, s | IsSlot(v, i, s)
      ensures Slot(sb, v, i, s) == if i == ROOTINO && s == 0 then sb.nmeta else 0
    {
      FirstSlot(sb, v, ninodes, i, s);
    }
    forall i | 0 <= i < |v.inodes|
      ensures Covered(sb, v, i, v.inodes[i].size)
    {
      assert i == ROOTINO ==> Has(sb, v, i, 0);
    }
  }

  /** mkfs without files: `root` holds the entries "." and "..". */
  method Mkfs(sb: Super, ninodes: nat, root: Blk) returns (fs: Blocks)
    requires 1 <= sb.nmeta < sb.size <= UINT && sb.nmeta + 1 < BPB && ninodes > ROOTINO
    ensures fresh(fs) && fs.sb == sb && Good(fs) && |fs.inodes| == ninodes
    ensures forall b :: 0 <= b < sb.size ==> (fs.Bitmap()[b] <==> b <= sb.nmeta)
    ensures Content(sb, fs.Fs(), ROOTINO) == root
    ensures forall i :: 0 <= i < ninodes && i != ROOTINO ==> fs.inodes[i].size == 0
  {
    var bm := MarkUsed(sb.size, sb.nmeta + 1);
    var data: seq<Blk> := seq(sb.size, _ => Zero());
    data := data[sb.nmeta := root];
    fs := new Blocks(sb, bm, data, FirstInodes(sb, ninodes));
    ghost var v := fs.Fs();
    FirstOwns(sb, v, ninodes);
    FirstSlot(sb, v, ninodes, ROOTINO, 0);
    assert Content(sb, v, ROOTINO) == root;
  }

  /** At the end mkfs rounds the root directory, of len bytes, up to whole blocks and
      one more if it already is: it then has a hole at its end, exactly in that case. */
  lemma RootRounded(sb: Super, v: FsSpec.Fs, i: nat, len: nat)
    requires Shape(sb, v) && i < |v.inodes| && Covered(sb, v, i, len) && (len / BSIZE + 1) * BSIZE <= MAXBYTES
    requires forall bn :: 0 <= bn && bn * BSIZE >= len ==> !Has(sb, v, i, bn)
    ensures Covered(sb, v, i, (len / BSIZE + 1) * BSIZE) <==> len % BSIZE != 0
  {
    var last := len / BSIZE;
    assert last * BSIZE <= len < last * BSIZE + BSIZE;
    if len % BSIZE == 0 {
      assert last * BSIZE == len && !Has(sb, v, i, last);
    } else {
      forall bn | 0 <= bn && bn * BSIZE < (last + 1) * BSIZE
        ensures Has(sb, v, i, bn)
      {
        assert bn <= last;
        assert bn * BSIZE < len;
      }
    }
  }

  /** It happens: with 30 files the root directory has 32 entries of 16 bytes, one
      whole block, and two blocks for its size. */
  lemma RootHole(sb: Super, v: FsSpec.Fs, ninodes: nat)
    requires FirstImage(sb, v, ninodes)
    ensures Shape(sb, v) && Covered(sb, v, ROOTINO, 32 * 16) && !Covered(sb, v, ROOTINO, (32 * 16 / BSIZE + 1) * BSIZE)
  {
    FirstOwns(sb, v, ninodes);
    forall bn | 0 <= bn && bn * BSIZE >= BSIZE
      ensures !Has(sb, v, ROOTINO, bn)
    {
      if bn < MAXFILE {
        FirstSlot(sb, v, ninodes, ROOTINO, DataSlot(bn));
      }
    }
    FirstSlot(sb, v, ninodes, ROOTINO, 0);
    RootRounded(sb, v, ROOTINO, BSIZE);
  }
}
