/** Blocks, inodes and who owns which block, as values.  A slot of an inode is one
    of its places for a block number: 12 direct ones, the pointer to the indirect
    block, and the 128 words of that block. */
module FsSpec {

  const BSIZE: nat := 512
  const NDIRECT: nat := 12
  const NINDIRECT: nat := 128
  const MAXFILE: nat := NDIRECT + NINDIRECT
  const BPB: nat := BSIZE * 8
  const IPB: nat := 8           // BSIZE / sizeof(struct dinode)
  const NSLOT: nat := NDIRECT + 1 + NINDIRECT
  const UINT: nat := 0x1_0000_0000

  type Byte = x: int | 0 <= x < 256
  type Blk = b: seq<Byte> | |b| == BSIZE witness seq(BSIZE, _ => 0)

  datatype Inode = Inode(dev: bool, nlink: int, size: nat, addrs: seq<nat>)

  /** Superblock: size, and where the inode blocks and the bitmap start.  Blocks
      below nmeta are never file blocks. */
  datatype Super = Super(size: nat, inodestart: nat, bmapstart: nat, nmeta: nat) {
    function BBlock(b: nat): nat { b / BPB + bmapstart }
    function IBlock(i: nat): nat { i / IPB + inodestart }
  }

  datatype Fs = Fs(bitmap: seq<bool>, data: seq<Blk>, inodes: seq<Inode>)

  // ----- a block as 32-bit words, low byte first ----------------------------

  function Zero(): Blk {
    seq(BSIZE, _ => 0)
  }

  function Word(b: Blk, j: int): (w: nat)
    requires 0 <= j < NINDIRECT
    ensures w < UINT
  {
    var b0: int, b1: int, b2: int, b3: int := b[4 * j], b[4 * j + 1], b[4 * j + 2], b[4 * j + 3];
    b0 + 0x100 * b1 + 0x1_0000 * b2 + 0x100_0000 * b3
  }

  function SetWord(b: Blk, j: int, w: nat): (c: Blk)
    requires 0 <= j < NINDIRECT && w < UINT
  {
    b[4 * j := w % 0x100][4 * j + 1 := w / 0x100 % 0x100]
     [4 * j + 2 := w / 0x1_0000 % 0x100][4 * j + 3 := w / 0x100_0000]
  }

  lemma WordSet(b: Blk, j: int, w: nat, k: int)
    requires 0 <= j < NINDIRECT && w < UINT && 0 <= k < NINDIRECT
    ensures Word(SetWord(b, j, w), k) == if k == j then w else Word(b, k)
  {
    if k == j {
      Digits(w);
    } else {
      var c := SetWord(b, j, w);
      assert c[4 * k] == b[4 * k] && c[4 * k + 1] == b[4 * k + 1];
      assert c[4 * k + 2] == b[4 * k + 2] && c[4 * k + 3] == b[4 * k + 3];
    }
  }

  lemma Digits(w: nat)
    ensures w == w % 0x100 + 0x100 * (w / 0x100 % 0x100) + 0x1_0000 * (w / 0x1_0000 % 0x100) + 0x100_0000 * (w / 0x100_0000)
  {
    assert w / 0x1_0000 == w / 0x100 / 0x100;
    assert w / 0x100_0000 == w / 0x1_0000 / 0x100;
  }

  // ----- slots --------------------------------------------------------------

  ghost predicate Shape(sb: Super, v: Fs) {
    && |v.bitmap| == sb.size == |v.data| && sb.size <= UINT && 1 <= sb.nmeta <= sb.size
    && forall i :: 0 <= i < |v.inodes| ==> InodeOk(sb, v.inodes[i])
  }

  ghost predicate InodeOk(sb: Super, ip: Inode) {
    && |ip.addrs| == NDIRECT + 1
    && ip.addrs[NDIRECT] < sb.size
  }

  /** The block number in slot s of inode i, 0 when there is none. */
  ghost function Slot(sb: Super, v: Fs, i: int, s: int): nat
    requires Shape(sb, v) && 0 <= i < |v.inodes| && 0 <= s < NSLOT
  {
    var ip := v.inodes[i];
    if s <= NDIRECT then ip.addrs[s]
    else if ip.addrs[NDIRECT] == 0 then 0
    else
      assert InodeOk(sb, ip);
      Word(v.data[ip.addrs[NDIRECT]], s - NDIRECT - 1)
  }

  /** The slot of file block bn. */
  function DataSlot(bn: int): int {
    if bn < NDIRECT then bn else bn + 1
  }

  ghost predicate IsSlot(v: Fs, i: int, s: int) {
    0 <= i < |v.inodes| && 0 <= s < NSLOT
  }

  /** Block ownership: a block in a slot is a data block marked in use, and no
      block is in two slots of any inodes. */
  ghost predicate Owns(sb: Super, v: Fs) {
    && Shape(sb, v)
    && (forall b :: 0 <= b < sb.nmeta ==> v.bitmap[b])
    && (forall i, s :: IsSlot(v, i, s) && Slot(sb, v, i, s) != 0 ==> InUse(sb, v, Slot(sb, v, i, s)))
    && (forall i, s, j, t :: IsSlot(v, i, s) && IsSlot(v, j, t) && Slot(sb, v, i, s) == Slot(sb, v, j, t) != 0 ==> i == j && s == t)
  }

  ghost predicate InUse(sb: Super, v: Fs, b: int)
    requires Shape(sb, v)
  {
    sb.nmeta <= b < sb.size && v.bitmap[b]
  }

  ghost predicate Unowned(sb: Super, v: Fs, b: int)
    requires Shape(sb, v)
  {
    forall i, s :: IsSlot(v, i, s) ==> Slot(sb, v, i, s) != b
  }

  // ----- the state changes the code makes -----------------------------------

  /** balloc: mark block b and zero it. */
  ghost function Allocated(v: Fs, b: nat): Fs
    requires b < |v.bitmap| == |v.data|
  {
    v.(bitmap := v.bitmap[b := true], data := v.data[b := Zero()])
  }

  /** Taking a free block disturbs no slot, and the block is in none. */
  lemma AllocatedOwns(sb: Super, v: Fs, b: nat)
    requires Owns(sb, v) && b < sb.size && !v.bitmap[b]
    ensures Owns(sb, Allocated(v, b)) && sb.nmeta <= b && Unowned(sb, Allocated(v, b), b)
    ensures forall i, s :: IsSlot(v, i, s) ==> Slot(sb, Allocated(v, b), i, s) == Slot(sb, v, i, s)
    ensures forall i, s :: IsSlot(v, i, s) && Slot(sb, v, i, s) != 0 ==>
              Allocated(v, b).data[Slot(sb, v, i, s)] == v.data[Slot(sb, v, i, s)]
  {
    var n := Allocated(v, b);
    forall i, s | IsSlot(v, i, s)
      ensures Slot(sb, v, i, s) != b && Slot(sb, n, i, s) == Slot(sb, v, i, s)
    {
      assert Slot(sb, v, i, s) != 0 ==> InUse(sb, v, Slot(sb, v, i, s));
      assert IsSlot(v, i, NDIRECT);
      assert Slot(sb, v, i, NDIRECT) != 0 ==> InUse(sb, v, Slot(sb, v, i, NDIRECT));
      assert InodeOk(sb, v.inodes[i]);
    }
    assert forall i, s :: IsSlot(n, i, s) <==> IsSlot(v, i, s);
  }

  /** Storing a block number in one of the inode's own slots. */
  ghost function Pointed(v: Fs, i: nat, k: nat, b: nat): Fs
    requires i < |v.inodes| && k < |v.inodes[i].addrs|
  {
    v.(inodes := v.inodes[i := v.inodes[i].(addrs := v.inodes[i].addrs[k := b])])
  }

  /** The slots after slot k of inode i has been given b. */
  ghost predicate SlotSet(sb: Super, v: Fs, n: Fs, i: nat, k: nat, b: nat) {
    && Shape(sb, v) && Shape(sb, n) && |n.inodes| == |v.inodes|
    && forall j, s :: IsSlot(v, j, s) ==> Slot(sb, n, j, s) == if j == i && s == k then b else Slot(sb, v, j, s)
  }

  /** Giving an empty slot a block that nobody owns keeps ownership. */
  lemma SlotSetOwns(sb: Super, v: Fs, n: Fs, i: nat, k: nat, b: nat)
    requires Owns(sb, v) && SlotSet(sb, v, n, i, k, b) && IsSlot(v, i, k)
    requires n.bitmap == v.bitmap && InUse(sb, v, b) && Unowned(sb, v, b)
    ensures Owns(sb, n)
  {
    assert forall j, s :: IsSlot(n, j, s) <==> IsSlot(v, j, s);
    forall j, s | IsSlot(n, j, s) && Slot(sb, n, j, s) != 0
      ensures InUse(sb, n, Slot(sb, n, j, s))
    {
      assert IsSlot(v, j, s);
    }
    forall j, s, g, t | IsSlot(n, j, s) && IsSlot(n, g, t) && Slot(sb, n, j, s) == Slot(sb, n, g, t) != 0
      ensures j == g && s == t
    {
      assert IsSlot(v, j, s) && IsSlot(v, g, t);
    }
  }

  lemma PointedOwns(sb: Super, v: Fs, i: nat, k: nat, b: nat)
    requires Owns(sb, v) && i < |v.inodes| && k <= NDIRECT && Slot(sb, v, i, k) == 0
    requires InUse(sb, v, b) && Unowned(sb, v, b) && (k == NDIRECT ==> v.data[b] == Zero())
    ensures InodeOk(sb, v.inodes[i]) && Owns(sb, Pointed(v, i, k, b)) && SlotSet(sb, v, Pointed(v, i, k, b), i, k, b)
  {
    assert InodeOk(sb, v.inodes[i]);
    var n := Pointed(v, i, k, b);
    assert Shape(sb, n);
    forall j, s | IsSlot(v, j, s)
      ensures Slot(sb, n, j, s) == if j == i && s == k then b else Slot(sb, v, j, s)
    {
    }
    SlotSetOwns(sb, v, n, i, k, b);
  }

  /** Storing a block number in a word of the inode's indirect block. */
  ghost function WordPointed(v: Fs, ind: nat, j: nat, b: nat): Fs
    requires ind < |v.data| && j < NINDIRECT && b < UINT
  {
    v.(data := v.data[ind := SetWord(v.data[ind], j, b)])
  }

  lemma WordPointedOwns(sb: Super, v: Fs, i: nat, j: nat, b: nat)
    requires Owns(sb, v) && i < |v.inodes| && j < NINDIRECT
    requires Slot(sb, v, i, NDIRECT) != 0 && Slot(sb, v, i, NDIRECT + 1 + j) == 0
    requires InUse(sb, v, b) && Unowned(sb, v, b)
    ensures InodeOk(sb, v.inodes[i])
    ensures var n := WordPointed(v, Slot(sb, v, i, NDIRECT), j, b);
            Owns(sb, n) && SlotSet(sb, v, n, i, NDIRECT + 1 + j, b)
  {
    assert InodeOk(sb, v.inodes[i]);
    var ind := Slot(sb, v, i, NDIRECT);
    var n := WordPointed(v, ind, j, b);
    forall g, s | IsSlot(v, g, s)
      ensures Slot(sb, n, g, s) == if g == i && s == NDIRECT + 1 + j then b else Slot(sb, v, g, s)
    {
      if s > NDIRECT {
        if g == i {
          WordSet(v.data[ind], j, b, s - NDIRECT - 1);
        } else {
          assert IsSlot(v, g, NDIRECT) && IsSlot(v, i, NDIRECT);
          assert Slot(sb, v, g, NDIRECT) != ind;
        }
      }
    }
    SlotSetOwns(sb, v, n, i, NDIRECT + 1 + j, b);
  }

  /** Changing the bytes of a data block disturbs no slot. */
  lemma WriteOwns(sb: Super, v: Fs, i: nat, s: nat, blk: Blk)
    requires Owns(sb, v) && IsSlot(v, i, s) && s != NDIRECT && Slot(sb, v, i, s) != 0
    ensures Slot(sb, v, i, s) < |v.data|
    ensures var n := v.(data := v.data[Slot(sb, v, i, s) := blk]);
            && Owns(sb, n)
            && forall j, t :: IsSlot(v, j, t) ==> Slot(sb, n, j, t) == Slot(sb, v, j, t)
  {
    var b := Slot(sb, v, i, s);
    assert InUse(sb, v, b);
    var n := v.(data := v.data[b := blk]);
    assert Shape(sb, n);
    forall j, t | IsSlot(v, j, t)
      ensures Slot(sb, n, j, t) == Slot(sb, v, j, t)
    {
      assert IsSlot(v, j, NDIRECT);
    }
    assert forall j, t :: IsSlot(n, j, t) <==> IsSlot(v, j, t);
  }

  // ----- itrunc -------------------------------------------------------------

  /** Block b is in one of slots lo..hi of inode i. */
  ghost predicate InSlots(sb: Super, v: Fs, i: nat, lo: int, hi: int, b: nat)
    requires Shape(sb, v)
  {
    b != 0 && exists s :: lo <= s < hi && IsSlot(v, i, s) && Slot(sb, v, i, s) == b
  }

  /** What has been freed so far: the blocks of slots lo..hi, each once. */
  ghost predicate Freed(sb: Super, v: Fs, i: nat, lo: int, hi: int, gone: seq<nat>)
    requires Shape(sb, v)
  {
    && (forall b :: b in gone <==> InSlots(sb, v, i, lo, hi, b))
    && (forall x, y :: 0 <= x < y < |gone| ==> gone[x] != gone[y])
  }

  ghost predicate Without(v: Fs, bm: seq<bool>, gone: seq<nat>) {
    |bm| == |v.bitmap| && forall b :: 0 <= b < |bm| ==> (bm[b] <==> v.bitmap[b] && b !in gone)
  }

  /** The next slot to free: an empty one adds nothing, a full one adds a block
      whose bit is still set. */
  lemma FreedNext(sb: Super, v: Fs, i: nat, lo: int, s: int, gone: seq<nat>)
    requires Owns(sb, v) && IsSlot(v, i, s) && lo <= s && Freed(sb, v, i, lo, s, gone)
    ensures Slot(sb, v, i, s) == 0 ==> Freed(sb, v, i, lo, s + 1, gone)
    ensures Slot(sb, v, i, s) != 0 ==> Freed(sb, v, i, lo, s + 1, gone + [Slot(sb, v, i, s)])
    ensures Slot(sb, v, i, s) != 0 ==> InUse(sb, v, Slot(sb, v, i, s)) && Slot(sb, v, i, s) !in gone
  {
    var w := Slot(sb, v, i, s);
    forall b: nat | b != w
      ensures InSlots(sb, v, i, lo, s, b) <==> InSlots(sb, v, i, lo, s + 1, b)
    {
      if InSlots(sb, v, i, lo, s + 1, b) {
        var t :| lo <= t < s + 1 && IsSlot(v, i, t) && Slot(sb, v, i, t) == b;
        assert t != s;
      }
    }
    assert w != 0 ==> InSlots(sb, v, i, lo, s + 1, w);
    assert !InSlots(sb, v, i, lo, s, w);
  }

  /** Disjoint slots hold different blocks. */
  lemma FreedApart(sb: Super, v: Fs, i: nat, a: int, b: int, c: int, d: int, gone: seq<nat>, more: seq<nat>)
    requires Owns(sb, v) && (b <= c || d <= a)
    requires Freed(sb, v, i, a, b, gone) && Freed(sb, v, i, c, d, more)
    ensures forall x :: x in more ==> x !in gone
  {
    forall x | x in more
      ensures x !in gone
    {
      assert InSlots(sb, v, i, c, d, x);
    }
  }

  function Zeros(n: nat): (z: seq<nat>)
    ensures |z| == n && forall k :: 0 <= k < n ==> z[k] == 0
  {
    seq(n, _ => 0)
  }

  /** The block numbers with the first k cleared. */
  function ClearedTo(addrs: seq<nat>, k: nat): (r: seq<nat>)
    requires k <= |addrs|
    ensures |r| == |addrs| && forall j :: 0 <= j < |addrs| ==> r[j] == if j < k then 0 else addrs[j]
  {
    Zeros(k) + addrs[k..]
  }

  lemma ClearedNext(addrs: seq<nat>, k: nat)
    requires k < |addrs|
    ensures ClearedTo(addrs, k)[k := 0] == ClearedTo(addrs, k + 1)
    ensures addrs[k] == 0 ==> ClearedTo(addrs, k) == ClearedTo(addrs, k + 1)
  {
  }

  /** The file system once inode i has lost all its blocks. */
  ghost function Emptied(v: Fs, i: nat, bm: seq<bool>): Fs
    requires i < |v.inodes|
  {
    Fs(bm, v.data, v.inodes[i := v.inodes[i].(addrs := Zeros(NDIRECT + 1), size := 0)])
  }

  lemma EmptiedOwns(sb: Super, v: Fs, i: nat, bm: seq<bool>, gone: seq<nat>)
    requires Owns(sb, v) && i < |v.inodes| && Without(v, bm, gone)
    requires forall b :: b in gone <==> InSlots(sb, v, i, 0, NSLOT, b)
    ensures Owns(sb, Emptied(v, i, bm))
    ensures forall j, s :: IsSlot(v, j, s) ==> Slot(sb, Emptied(v, i, bm), j, s) == if j == i then 0 else Slot(sb, v, j, s)
  {
    var n := Emptied(v, i, bm);
    assert Shape(sb, n);
    forall j, s | IsSlot(v, j, s)
      ensures Slot(sb, n, j, s) == if j == i then 0 else Slot(sb, v, j, s)
    {
    }
    assert forall j, s :: IsSlot(n, j, s) <==> IsSlot(v, j, s);
    forall j, s | IsSlot(n, j, s) && Slot(sb, n, j, s) != 0
      ensures InUse(sb, n, Slot(sb, n, j, s))
    {
      assert IsSlot(v, j, s);
      assert !InSlots(sb, v, i, 0, NSLOT, Slot(sb, v, j, s));
    }
    forall b | 0 <= b < sb.nmeta
      ensures bm[b]
    {
      assert !InSlots(sb, v, i, 0, NSLOT, b);
    }
  }

  // ----- bmap ---------------------------------------------------------------

  /** Slot k of inode i, empty in v, has been given the free block b. */
  ghost predicate Filled(sb: Super, v: Fs, n: Fs, i: nat, k: nat, b: nat) {
    && SlotSet(sb, v, n, i, k, b) && IsSlot(v, i, k) && Owns(sb, n)
    && sb.nmeta <= b < sb.size && !v.bitmap[b] && n.bitmap == v.bitmap[b := true]
    && Readdressed(v, n, i)
    && n.data[b] == Zero()
    && forall c :: 0 <= c < sb.size && v.bitmap[c] && !(k > NDIRECT && c == Slot(sb, v, i, NDIRECT)) ==> n.data[c] == v.data[c]
  }

  /** Only the block numbers of inode i may differ. */
  ghost predicate Readdressed(v: Fs, n: Fs, i: nat) {
    && |n.inodes| == |v.inodes| && i < |v.inodes|
    && (forall j :: 0 <= j < |v.inodes| && j != i ==> n.inodes[j] == v.inodes[j])
    && n.inodes[i] == v.inodes[i].(addrs := n.inodes[i].addrs)
  }

  /** File block bn of inode i, without a block in v, is block b in n; the indirect
      block came with it where there was none. */
  ghost predicate Mapped(sb: Super, v: Fs, n: Fs, i: nat, bn: nat, b: nat) {
    && Shape(sb, v) && Owns(sb, n) && Readdressed(v, n, i) && bn < MAXFILE
    && sb.nmeta <= b < sb.size && !v.bitmap[b] && n.data[b] == Zero()
    && Slot(sb, n, i, DataSlot(bn)) == b
    && (forall j, s :: IsSlot(v, j, s) && !(j == i && s == DataSlot(bn)) ==>
          || Slot(sb, n, j, s) == Slot(sb, v, j, s)
          || (j == i && s == NDIRECT && NDIRECT <= bn && Slot(sb, v, j, s) == 0))
    && (forall c :: 0 <= c < sb.size ==>
          (n.bitmap[c] <==> v.bitmap[c] || c == b || (c != 0 && c == Slot(sb, n, i, NDIRECT))))
    && (forall c :: 0 <= c < sb.size && v.bitmap[c] && !(bn >= NDIRECT && c == Slot(sb, v, i, NDIRECT)) ==> n.data[c] == v.data[c])
  }

  lemma FilledMapped(sb: Super, v: Fs, n: Fs, i: nat, bn: nat, b: nat)
    requires Owns(sb, v) && bn < MAXFILE && Filled(sb, v, n, i, DataSlot(bn), b)
    requires bn >= NDIRECT ==> Slot(sb, v, i, NDIRECT) != 0
    ensures Mapped(sb, v, n, i, bn, b)
  {
    assert IsSlot(v, i, NDIRECT) && IsSlot(v, i, DataSlot(bn));
    assert Slot(sb, v, i, NDIRECT) != 0 ==> InUse(sb, v, Slot(sb, v, i, NDIRECT));
  }

  lemma FilledTwiceMapped(sb: Super, v: Fs, m: Fs, n: Fs, i: nat, bn: nat, ind: nat, b: nat)
    requires Owns(sb, v) && NDIRECT <= bn < MAXFILE && i < |v.inodes| && Slot(sb, v, i, NDIRECT) == 0
    requires Filled(sb, v, m, i, NDIRECT, ind) && Filled(sb, m, n, i, DataSlot(bn), b)
    ensures Mapped(sb, v, n, i, bn, b)
  {
    assert forall j, s :: IsSlot(m, j, s) <==> IsSlot(v, j, s);
    assert IsSlot(v, i, NDIRECT) && IsSlot(m, i, NDIRECT) && IsSlot(m, i, DataSlot(bn));
    assert Slot(sb, m, i, NDIRECT) == ind == Slot(sb, n, i, NDIRECT);
    forall j, s | IsSlot(v, j, s) && !(j == i && s == DataSlot(bn))
      ensures Slot(sb, n, j, s) == Slot(sb, v, j, s) || (j == i && s == NDIRECT && Slot(sb, v, j, s) == 0)
    {
      assert IsSlot(m, j, s);
    }
  }

  // ----- free blocks --------------------------------------------------------

  /** How many blocks are free. */
  function FreeCount(bm: seq<bool>): nat {
    if bm == [] then 0 else FreeCount(bm[..|bm| - 1]) + if bm[|bm| - 1] then 0 else 1
  }

  lemma {:induction false} FreeTaken(bm: seq<bool>, b: nat)
    requires b < |bm| && !bm[b]
    ensures FreeCount(bm[b := true]) + 1 == FreeCount(bm)
  {
    var k := |bm| - 1;
    if b < k {
      FreeTaken(bm[..k], b);
      assert bm[b := true][..k] == bm[..k][b := true];
    } else {
      assert bm[b := true][..k] == bm[..k];
    }
  }

  lemma {:induction false} FreeNone(bm: seq<bool>)
    ensures FreeCount(bm) == 0 <==> forall c :: 0 <= c < |bm| ==> bm[c]
  {
    if bm != [] {
      FreeNone(bm[..|bm| - 1]);
      assert FreeCount(bm) == 0 ==> forall c :: 0 <= c < |bm| - 1 ==> bm[..|bm| - 1][c] && bm[c];
      assert forall c :: 0 <= c < |bm| - 1 ==> bm[..|bm| - 1][c] == bm[c];
    }
  }

  /** The blocks that file block bn of inode i takes when it is needed. */
  ghost function Wants(sb: Super, v: Fs, i: int, bn: int): nat
    requires Shape(sb, v) && 0 <= i < |v.inodes| && 0 <= bn < MAXFILE
  {
    if Slot(sb, v, i, DataSlot(bn)) != 0 then 0
    else if bn >= NDIRECT && Slot(sb, v, i, NDIRECT) == 0 then 2
    else 1
  }

  /** How many of the file blocks lo..hi of inode i have no block. */
  ghost function Lacking(sb: Super, v: Fs, i: int, lo: nat, hi: nat): nat
    requires Shape(sb, v) && 0 <= i < |v.inodes| && hi <= MAXFILE
    decreases hi
  {
    if hi <= lo then 0
    else Lacking(sb, v, i, lo, hi - 1) + if Slot(sb, v, i, DataSlot(hi - 1)) == 0 then 1 else 0
  }

  /** The file blocks lo..hi reach the indirect block, and there is none. */
  ghost predicate NoPointer(sb: Super, v: Fs, i: int, lo: nat, hi: nat)
    requires Shape(sb, v) && 0 <= i < |v.inodes|
  {
    lo < hi && NDIRECT < hi && Slot(sb, v, i, NDIRECT) == 0
  }

  /** The free blocks it takes to have all file blocks lo..hi of inode i. */
  ghost function Needs(sb: Super, v: Fs, i: int, lo: nat, hi: nat): nat
    requires Shape(sb, v) && 0 <= i < |v.inodes| && hi <= MAXFILE
  {
    Lacking(sb, v, i, lo, hi) + if NoPointer(sb, v, i, lo, hi) then 1 else 0
  }

  lemma {:induction false} LackingMore(sb: Super, v: Fs, i: int, lo: nat, a: nat, b: nat)
    requires Shape(sb, v) && 0 <= i < |v.inodes| && a <= b <= MAXFILE
    ensures Lacking(sb, v, i, lo, a) <= Lacking(sb, v, i, lo, b) && Needs(sb, v, i, lo, a) <= Needs(sb, v, i, lo, b)
    decreases b
  {
    if a < b {
      LackingMore(sb, v, i, lo, a, b - 1);
    }
  }

  /** From v to n the file blocks lo..b of inode i have been made, and no others. */
  ghost predicate Provided(sb: Super, v: Fs, n: Fs, i: int, lo: nat, b: nat)
    requires Shape(sb, v) && Shape(sb, n) && 0 <= i < |v.inodes| == |n.inodes| && b <= MAXFILE
  {
    && FreeCount(n.bitmap) + Needs(sb, v, i, lo, b) == FreeCount(v.bitmap)
    && (forall x :: b <= x < MAXFILE ==> (Slot(sb, n, i, DataSlot(x)) == 0 <==> Slot(sb, v, i, DataSlot(x)) == 0))
    && (Slot(sb, n, i, NDIRECT) == 0 <==> Slot(sb, v, i, NDIRECT) == 0 && !NoPointer(sb, v, i, lo, b))
  }

  lemma NeedsNext(sb: Super, v: Fs, n: Fs, i: int, lo: nat, b: nat, next: nat)
    requires Shape(sb, v) && Shape(sb, n) && 0 <= i < |v.inodes| == |n.inodes| && lo <= b && next == b + 1 <= MAXFILE
    requires Provided(sb, v, n, i, lo, b)
    ensures Needs(sb, v, i, lo, next) == Needs(sb, v, i, lo, b) + Wants(sb, n, i, b)
  {
    assert b >= NDIRECT && Slot(sb, n, i, DataSlot(b)) != 0 ==> Slot(sb, n, i, NDIRECT) != 0;
    assert Lacking(sb, v, i, lo, next) == Lacking(sb, v, i, lo, b) + if Slot(sb, v, i, DataSlot(b)) == 0 then 1 else 0;
  }

  /** File block b has been made where it was missing. */
  ghost predicate Made(sb: Super, m: Fs, n: Fs, i: int, b: nat)
    requires Shape(sb, m) && Shape(sb, n) && 0 <= i < |m.inodes| == |n.inodes| && b < MAXFILE
  {
    && FreeCount(n.bitmap) + Wants(sb, m, i, b) == FreeCount(m.bitmap)
    && (forall x :: 0 <= x < MAXFILE && x != b ==> (Slot(sb, n, i, DataSlot(x)) == 0 <==> Slot(sb, m, i, DataSlot(x)) == 0))
    && (Slot(sb, n, i, NDIRECT) == 0 <==> Slot(sb, m, i, NDIRECT) == 0 && b < NDIRECT)
  }

  lemma ProvidedNext(sb: Super, v: Fs, m: Fs, n: Fs, i: int, lo: nat, b: nat, next: nat)
    requires Shape(sb, v) && Shape(sb, m) && Shape(sb, n) && 0 <= i < |v.inodes| == |m.inodes| == |n.inodes| && lo <= b && next == b + 1 <= MAXFILE
    requires Provided(sb, v, m, i, lo, b) && Made(sb, m, n, i, b)
    ensures Provided(sb, v, n, i, lo, next)
  {
    NeedsNext(sb, v, m, i, lo, b, next);
  }
}
