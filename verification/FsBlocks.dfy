/** The block layer of fs.c: balloc, bfree, bmap, itrunc and iupdate, on the
    contents the buffer cache presents.  `logged` collects the blocks handed to
    log_write. */
module FsBlocks {
  import opened FsSpec

  // ----- bits of a byte -----------------------------------------------------

  /** 1 << k */
  function Mask(k: int): (m: bv8)
    requires 0 <= k < 8
  {
    if k == 0 then 1 else if k == 1 then 2 else if k == 2 then 4 else if k == 3 then 8
    else if k == 4 then 16 else if k == 5 then 32 else if k == 6 then 64 else 128
  }

  predicate Bit(x: bv8, k: int)
    requires 0 <= k < 8
  {
    x & Mask(k) != 0
  }

  lemma SetBitAt(x: bv8, k: int, j: int)
    requires 0 <= k < 8 && 0 <= j < 8
    ensures Bit(x | Mask(k), j) <==> j == k || Bit(x, j)
    ensures Bit(x & !Mask(k), j) <==> j != k && Bit(x, j)
  {
  }

  type BitBlk = b: seq<bv8> | |b| == BSIZE witness seq(BSIZE, _ => 0)

  /** Bit b of the free map: blocks of BPB bits, 8 to a byte. */
  predicate MapBit(bm: seq<BitBlk>, b: nat)
    requires b / BPB < |bm|
  {
    Bit(bm[b / BPB][b % BPB / 8], b % BPB % 8)
  }

  /** Store y in the byte that holds bit b. */
  function StoreByte(bm: seq<BitBlk>, b: nat, y: bv8): (n: seq<BitBlk>)
    requires b / BPB < |bm|
  {
    bm[b / BPB := bm[b / BPB][b % BPB / 8 := y]]
  }

  function ByteOf(bm: seq<BitBlk>, b: nat): bv8
    requires b / BPB < |bm|
  {
    bm[b / BPB][b % BPB / 8]
  }

  /** Storing y changes bit b as y does, and no bit of another byte. */
  lemma StoreByteAt(bm: seq<BitBlk>, b: nat, y: bv8, c: nat)
    requires b / BPB < |bm| && c / BPB < |bm|
    requires forall k :: 0 <= k < 8 && k != b % BPB % 8 ==> (Bit(y, k) <==> Bit(ByteOf(bm, b), k))
    ensures MapBit(StoreByte(bm, b, y), c) <==> if c == b then Bit(y, b % BPB % 8) else MapBit(bm, c)
  {
    if c != b && c / BPB == b / BPB && c % BPB / 8 == b % BPB / 8 {
      assert c % BPB % 8 != b % BPB % 8;
    }
  }

  /** The first n bits of the map. */
  function Unpacked(bm: seq<BitBlk>, n: nat): (m: seq<bool>)
    requires n <= |bm| * BPB
    ensures |m| == n && forall b :: 0 <= b < n ==> b / BPB < |bm| && m[b] == MapBit(bm, b)
  {
    seq(n, b requires 0 <= b < n => MapBit(bm, b))
  }

  /** Bit bi of the map block that begins at b. */
  lemma BitPlace(bm: seq<BitBlk>, n: nat, b: nat, bi: nat)
    requires n <= |bm| * BPB && b % BPB == 0 && bi < BPB && b + bi < n
    ensures b / BPB < |bm| && (Bit(bm[b / BPB][bi / 8], bi % 8) <==> Unpacked(bm, n)[b + bi])
  {
    assert (b + bi) / BPB == b / BPB && (b + bi) % BPB == bi;
  }

  lemma StoreInMap(bm: seq<BitBlk>, n: nat, b: nat, y: bv8)
    requires n <= |bm| * BPB && b < n
    requires forall k :: 0 <= k < 8 && k != b % BPB % 8 ==> (Bit(y, k) <==> Bit(ByteOf(bm, b), k))
    ensures Unpacked(StoreByte(bm, b, y), n) == Unpacked(bm, n)[b := Bit(y, b % BPB % 8)]
  {
    forall c | 0 <= c < n
      ensures Unpacked(StoreByte(bm, b, y), n)[c] == Unpacked(bm, n)[b := Bit(y, b % BPB % 8)][c]
    {
      StoreByteAt(bm, b, y, c);
    }
  }

  // ----- what is logged -----------------------------------------------------

  /** Every block of the free map that changed is in l. */
  ghost predicate MapLogged(sb: Super, m: seq<bool>, n: seq<bool>, l: set<nat>) {
    |m| == |n| && forall b :: 0 <= b < |m| && n[b] != m[b] ==> sb.BBlock(b) in l
  }

  /** Every block whose contents changed is in l. */
  ghost predicate DataLogged(d: seq<Blk>, e: seq<Blk>, l: set<nat>) {
    |d| == |e| && forall b :: 0 <= b < |d| && e[b] != d[b] ==> b in l
  }

  /** Every block of a disk inode that changed is in l. */
  ghost predicate InodesLogged(sb: Super, m: seq<Inode>, n: seq<Inode>, l: set<nat>) {
    |m| == |n| && forall i :: 0 <= i < |m| && n[i] != m[i] ==> sb.IBlock(i) in l
  }

  /** What changed from v to n has been logged, and nothing was unlogged. */
  ghost predicate Recorded(sb: Super, v: FsSpec.Fs, n: FsSpec.Fs, before: set<nat>, l: set<nat>) {
    before <= l && MapLogged(sb, v.bitmap, n.bitmap, l) && DataLogged(v.data, n.data, l)
  }

  lemma RecordedOn(sb: Super, v: FsSpec.Fs, m: FsSpec.Fs, n: FsSpec.Fs, before: set<nat>, l: set<nat>, k: set<nat>)
    requires Recorded(sb, v, m, before, l) && Recorded(sb, m, n, l, k)
    ensures Recorded(sb, v, n, before, k)
  {
  }

  method SetBit(x: bv8, k: int) returns (y: bv8)
    requires 0 <= k < 8
    ensures forall j :: 0 <= j < 8 ==> (Bit(y, j) <==> j == k || Bit(x, j))
  {
    y := x | Mask(k);
    forall j | 0 <= j < 8
      ensures Bit(y, j) <==> j == k || Bit(x, j)
    {
      SetBitAt(x, k, j);
    }
  }

  method ClearBit(x: bv8, k: int) returns (y: bv8)
    requires 0 <= k < 8
    ensures forall j :: 0 <= j < 8 ==> (Bit(y, j) <==> j != k && Bit(x, j))
  {
    y := x & !Mask(k);
    forall j | 0 <= j < 8
      ensures Bit(y, j) <==> j != k && Bit(x, j)
    {
      SetBitAt(x, k, j);
    }
  }

  class Blocks {
    const sb: Super
    var bmap: seq<BitBlk>       // the free map blocks
    var data: seq<Blk>          // every block, with pending updates
    var inodes: seq<Inode>      // in-memory inodes
    var dinodes: seq<Inode>     // on-disk inodes, with pending updates
    ghost var logged: set<nat>

    constructor (sb: Super, bmap: seq<BitBlk>, data: seq<Blk>, inodes: seq<Inode>)
      ensures this.sb == sb && this.bmap == bmap && this.data == data && this.inodes == dinodes == inodes && logged == {}
    {
      this.sb, this.bmap, this.data, this.inodes, dinodes, logged := sb, bmap, data, inodes, inodes, {};
    }

    ghost function Bitmap(): seq<bool>
      requires sb.size <= |bmap| * BPB
      reads `bmap
    {
      Unpacked(bmap, sb.size)
    }

    ghost function Fs(): FsSpec.Fs
      requires sb.size <= |bmap| * BPB
      reads `bmap, `data, `inodes
    {
      FsSpec.Fs(Bitmap(), data, inodes)
    }

    ghost predicate Valid()
      reads `bmap, `data, `inodes, `dinodes
    {
      && sb.size <= |bmap| * BPB
      && |dinodes| == |inodes|
      && Owns(sb, Fs())
    }

    /** balloc: take the first free block.  False where the code panics, which it
        does exactly when no block is free. */
    method BAlloc() returns (ok: bool, r: nat)
      requires Valid()
      modifies `bmap, `data, `logged
      ensures Valid()
      ensures ok ==>
                && r < sb.size && !old(Bitmap())[r]
                && (forall c :: 0 <= c < r ==> old(Bitmap())[c])
                && Fs() == Allocated(old(Fs()), r)
                && logged == old(logged) + {sb.BBlock(r), r}
      ensures !ok ==> Fs() == old(Fs()) && logged == old(logged) && forall c :: 0 <= c < sb.size ==> Bitmap()[c]
    {
      r := 0;
      var b := 0;
      while b < sb.size
        invariant b % BPB == 0 && Valid() && bmap == old(bmap) && data == old(data) && logged == old(logged)
        invariant forall c :: 0 <= c < b && c < sb.size ==> Bitmap()[c]
      {
        var bi := FirstClear(b);
        if bi < BPB && b + bi < sb.size {
          r := b + bi;
          Take(r);
          ok := true;
          return;
        }
        b := b + BPB;
      }
      ok := false;
    }

    /** The first clear bit among the BPB bits from b on. */
    method FirstClear(b: nat) returns (bi: nat)
      requires sb.size <= |bmap| * BPB && b % BPB == 0 && b < sb.size
      ensures bi <= BPB && forall c :: b <= c < b + bi && c < sb.size ==> Bitmap()[c]
      ensures bi < BPB && b + bi < sb.size ==> !Bitmap()[b + bi]
      ensures bi < BPB ==> b + bi <= sb.size
    {
      bi := 0;
      while bi < BPB && b + bi < sb.size
        invariant 0 <= bi <= BPB && b + bi <= sb.size
        invariant forall c :: b <= c < b + bi ==> Bitmap()[c]
      {
        BitPlace(bmap, sb.size, b, bi);
        if !Bit(bmap[b / BPB][bi / 8], bi % 8) {
          return;
        }
        bi := bi + 1;
      }
    }

    /** Mark a free block in use, log its map block, zero it. */
    method Take(b: nat)
      requires Valid() && b < sb.size && !Bitmap()[b]
      modifies `bmap, `data, `logged
      ensures Valid() && Fs() == Allocated(old(Fs()), b) && logged == old(logged) + {sb.BBlock(b), b}
    {
      AllocatedOwns(sb, Fs(), b);
      var byte := SetBit(ByteOf(bmap, b), b % BPB % 8);
      StoreInMap(bmap, sb.size, b, byte);
      bmap := StoreByte(bmap, b, byte);
      logged := logged + {sb.BBlock(b)};
      data := data[b := Zero()];
      logged := logged + {b};
    }

    /** bfree: false where the code panics, on a block that is already free. */
    method BFree(b: nat) returns (ok: bool)
      requires sb.size <= |bmap| * BPB && b < sb.size
      modifies `bmap, `logged
      ensures |bmap| == |old(bmap)|
      ensures ok <==> old(Bitmap())[b]
      ensures Bitmap() == if ok then old(Bitmap())[b := false] else old(Bitmap())
      ensures logged == if ok then old(logged) + {sb.BBlock(b)} else old(logged)
    {
      if !Bit(ByteOf(bmap, b), b % BPB % 8) {
        return false;
      }
      var byte := ClearBit(ByteOf(bmap, b), b % BPB % 8);
      StoreInMap(bmap, sb.size, b, byte);
      bmap := StoreByte(bmap, b, byte);
      logged := logged + {sb.BBlock(b)};
      ok := true;
    }

    /** Give an empty slot among the inode's own a new block. */
    method FillAddr(inum: nat, k: nat) returns (ok: bool, b: nat)
      requires Valid() && inum < |inodes| && k <= NDIRECT && Slot(sb, Fs(), inum, k) == 0
      modifies `bmap, `data, `logged, `inodes
      ensures Valid()
      ensures ok ==> Filled(sb, old(Fs()), Fs(), inum, k, b) && logged == old(logged) + {sb.BBlock(b), b}
      ensures ok ==> inodes[inum].addrs[k] == b
      ensures Recorded(sb, old(Fs()), Fs(), old(logged), logged)
      ensures !ok ==> Fs() == old(Fs()) && forall c :: 0 <= c < sb.size ==> Bitmap()[c]
    {
      ghost var v := Fs();
      ok, b := BAlloc();
      if ok {
        ghost var m := Fs();
        AllocatedOwns(sb, v, b);
        PointedOwns(sb, m, inum, k, b);
        inodes := inodes[inum := inodes[inum].(addrs := inodes[inum].addrs[k := b])];
        AddrFilled(sb, v, m, Fs(), inum, k, b);
      }
    }

    /** Give an empty word of the inode's indirect block a new block. */
    method FillWord(inum: nat, j: nat) returns (ok: bool, b: nat)
      requires Valid() && inum < |inodes| && j < NINDIRECT
      requires Slot(sb, Fs(), inum, NDIRECT) != 0 && Slot(sb, Fs(), inum, NDIRECT + 1 + j) == 0
      modifies `bmap, `data, `logged
      ensures Valid()
      ensures ok ==> Filled(sb, old(Fs()), Fs(), inum, NDIRECT + 1 + j, b)
      ensures ok ==> logged == old(logged) + {sb.BBlock(b), b, Slot(sb, old(Fs()), inum, NDIRECT)}
      ensures Recorded(sb, old(Fs()), Fs(), old(logged), logged)
      ensures !ok ==> Fs() == old(Fs()) && forall c :: 0 <= c < sb.size ==> Bitmap()[c]
    {
      ghost var v := Fs();
      assert InodeOk(sb, inodes[inum]);
      var ind := inodes[inum].addrs[NDIRECT];
      assert IsSlot(v, inum, NDIRECT) && InUse(sb, v, Slot(sb, v, inum, NDIRECT));
      ok, b := BAlloc();
      if ok {
        ghost var m := Fs();
        AllocatedOwns(sb, v, b);
        assert IsSlot(v, inum, NDIRECT + 1 + j);
        WordPointedOwns(sb, m, inum, j, b);
        data := data[ind := SetWord(data[ind], j, b)];
        WordFilled(sb, v, m, Fs(), inum, j, b);
        logged := logged + {ind};
      }
    }

    /** bmap: the block of file block bn, allocated where there is none.  False where
        the code panics: past the last file block, or with fewer blocks free than it
        takes. */
    method BMap(inum: nat, bn: nat) returns (ok: bool, addr: nat)
      requires Valid() && inum < |inodes|
      modifies `bmap, `data, `logged, `inodes
      ensures Valid() && |inodes| == |old(inodes)|
      ensures ok <==> bn < MAXFILE && FreeCount(old(Bitmap())) >= Wants(sb, old(Fs()), inum, bn)
      ensures !ok && bn < MAXFILE ==> forall c :: 0 <= c < sb.size ==> Bitmap()[c]
      ensures bn < MAXFILE && old(Slot(sb, Fs(), inum, DataSlot(bn))) != 0 ==>
                addr == old(Slot(sb, Fs(), inum, DataSlot(bn))) && Fs() == old(Fs()) && logged == old(logged)
      ensures ok && old(Slot(sb, Fs(), inum, DataSlot(bn))) == 0 ==> Mapped(sb, old(Fs()), Fs(), inum, bn, addr)
      ensures ok && old(Slot(sb, Fs(), inum, DataSlot(bn))) == 0 ==>
                Logs(sb, old(logged), logged, addr, false, Slot(sb, Fs(), inum, NDIRECT))
      ensures ok ==> Made(sb, old(Fs()), Fs(), inum, bn)
      ensures Recorded(sb, old(Fs()), Fs(), old(logged), logged)
    {
      ghost var v := Fs();
      assert InodeOk(sb, inodes[inum]);
      FreeNone(v.bitmap);
      if bn < NDIRECT {
        addr := inodes[inum].addrs[bn];
        ok := true;
        if addr == 0 {
          ok, addr := FillAddr(inum, bn);
          if ok {
            FilledMapped(sb, v, Fs(), inum, bn, addr);
            FreeTaken(v.bitmap, addr);
            MappedMade(sb, v, Fs(), inum, bn, addr);
          }
        } else {
          ThereMade(sb, v, inum, bn);
        }
      } else if bn < MAXFILE {
        ok, addr := BMapIndirect(inum, bn);
      } else {
        ok, addr := false, 0;
      }
    }

    /** The indirect half of bmap. */
    method BMapIndirect(inum: nat, bn: nat) returns (ok: bool, addr: nat)
      requires Valid() && inum < |inodes| && NDIRECT <= bn < MAXFILE
      modifies `bmap, `data, `logged, `inodes
      ensures Valid() && |inodes| == |old(inodes)|
      ensures ok <==> FreeCount(old(Bitmap())) >= Wants(sb, old(Fs()), inum, bn)
      ensures !ok ==> forall c :: 0 <= c < sb.size ==> Bitmap()[c]
      ensures old(Slot(sb, Fs(), inum, bn + 1)) != 0 ==>
                addr == old(Slot(sb, Fs(), inum, bn + 1)) && Fs() == old(Fs()) && logged == old(logged)
      ensures ok && old(Slot(sb, Fs(), inum, bn + 1)) == 0 ==> Mapped(sb, old(Fs()), Fs(), inum, bn, addr)
      ensures ok && old(Slot(sb, Fs(), inum, bn + 1)) == 0 ==>
                Logs(sb, old(logged), logged, addr, false, Slot(sb, Fs(), inum, NDIRECT))
      ensures ok ==> Made(sb, old(Fs()), Fs(), inum, bn)
      ensures Recorded(sb, old(Fs()), Fs(), old(logged), logged)
    {
      ghost var v := Fs();
      assert InodeOk(sb, inodes[inum]);
      addr := inodes[inum].addrs[NDIRECT];
      if addr == 0 {
        ok, addr := MapTwice(inum, bn);
      } else {
        FreeNone(v.bitmap);
        ok, addr := MapWord(inum, bn, addr);
        if Slot(sb, v, inum, bn + 1) != 0 {
          ThereMade(sb, v, inum, bn);
        } else if ok {
          FilledMapped(sb, v, Fs(), inum, bn, addr);
          MappedMade(sb, v, Fs(), inum, bn, addr);
          LogsWord(sb, old(logged), old(logged), logged, addr, Slot(sb, v, inum, NDIRECT));
        }
      }
    }

    /** Without an indirect block: it, and the block. */
    method MapTwice(inum: nat, bn: nat) returns (ok: bool, addr: nat)
      requires Valid() && inum < |inodes| && NDIRECT <= bn < MAXFILE && Slot(sb, Fs(), inum, NDIRECT) == 0
      modifies `bmap, `data, `logged, `inodes
      ensures Valid() && |inodes| == |old(inodes)|
      ensures ok <==> FreeCount(old(Bitmap())) >= 2
      ensures !ok ==> forall c :: 0 <= c < sb.size ==> Bitmap()[c]
      ensures ok ==> Mapped(sb, old(Fs()), Fs(), inum, bn, addr) && Made(sb, old(Fs()), Fs(), inum, bn)
      ensures ok ==> Logs(sb, old(logged), logged, addr, false, Slot(sb, Fs(), inum, NDIRECT))
      ensures Recorded(sb, old(Fs()), Fs(), old(logged), logged)
    {
      ghost var v := Fs();
      FreeNone(v.bitmap);
      ok, addr := FillAddr(inum, NDIRECT);
      if !ok { return; }
      ghost var m, l, ind := Fs(), logged, addr;
      FreeTaken(v.bitmap, ind);
      assert IsSlot(v, inum, bn + 1) && IsSlot(v, inum, NDIRECT);
      ok, addr := MapWord(inum, bn, addr);
      RecordedOn(sb, v, m, Fs(), old(logged), l, logged);
      if ok {
        FilledTwiceMapped(sb, v, m, Fs(), inum, bn, ind, addr);
        MappedMade(sb, v, Fs(), inum, bn, addr);
        LogsWord(sb, old(logged), l, logged, addr, ind);
      }
    }

    /** The block in a word of the indirect block ind. */
    method MapWord(inum: nat, bn: nat, ind: nat) returns (ok: bool, addr: nat)
      requires Valid() && inum < |inodes| && NDIRECT <= bn < MAXFILE && ind == Slot(sb, Fs(), inum, NDIRECT) != 0
      modifies `bmap, `data, `logged
      ensures Valid()
      ensures old(Slot(sb, Fs(), inum, bn + 1)) != 0 ==>
                ok && addr == old(Slot(sb, Fs(), inum, bn + 1)) && Fs() == old(Fs()) && logged == old(logged)
      ensures old(Slot(sb, Fs(), inum, bn + 1)) == 0 ==> (ok <==> FreeCount(old(Bitmap())) > 0)
      ensures ok && old(Slot(sb, Fs(), inum, bn + 1)) == 0 ==>
                && Filled(sb, old(Fs()), Fs(), inum, bn + 1, addr) && logged == old(logged) + {sb.BBlock(addr), addr, ind}
                && FreeCount(Bitmap()) + 1 == FreeCount(old(Bitmap())) && Slot(sb, Fs(), inum, NDIRECT) == ind
      ensures !ok ==> forall c :: 0 <= c < sb.size ==> Bitmap()[c]
      ensures Recorded(sb, old(Fs()), Fs(), old(logged), logged)
    {
      ghost var v := Fs();
      assert InodeOk(sb, inodes[inum]) && IsSlot(v, inum, NDIRECT);
      addr := Word(data[ind], bn - NDIRECT);
      ok := true;
      if addr == 0 {
        FreeNone(v.bitmap);
        ok, addr := FillWord(inum, bn - NDIRECT);
        if ok {
          FreeTaken(v.bitmap, addr);
        }
      }
    }

    /** iupdate: copy the in-memory inode to its disk block. */
    method IUpdate(inum: nat)
      requires inum < |inodes| == |dinodes|
      modifies `dinodes, `logged
      ensures dinodes == old(dinodes)[inum := inodes[inum]] && logged == old(logged) + {sb.IBlock(inum)}
    {
      dinodes := dinodes[inum := inodes[inum]];
      logged := logged + {sb.IBlock(inum)};
    }

    /** itrunc: free every block of the inode.  `ok` says that bfree never met a
        block that was already free; `freed` lists its calls. */
    method ITrunc(inum: nat) returns (ok: bool, ghost freed: seq<nat>)
      requires Valid() && inum < |inodes|
      modifies `bmap, `inodes, `dinodes, `logged
      ensures Valid() && ok
      ensures Freed(sb, old(Fs()), inum, 0, NSLOT, freed)
      ensures Without(old(Fs()), Bitmap(), freed) && Fs() == Emptied(old(Fs()), inum, Bitmap())
      ensures forall j, s :: IsSlot(old(Fs()), j, s) ==>
                Slot(sb, Fs(), j, s) == if j == inum then 0 else Slot(sb, old(Fs()), j, s)
      ensures dinodes == old(dinodes)[inum := inodes[inum]]
      ensures Recorded(sb, old(Fs()), Fs(), old(logged), logged) && InodesLogged(sb, old(dinodes), dinodes, logged)
    {
      ghost var v := Fs();
      ok, freed := FreeAll(inum);
      inodes := inodes[inum := inodes[inum].(size := 0)];
      IUpdate(inum);
      EmptiedOwns(sb, v, inum, Bitmap(), freed);
    }

    /** The blocks themselves: direct ones, those the indirect block names, and it. */
    method FreeAll(inum: nat) returns (ok: bool, ghost freed: seq<nat>)
      requires Valid() && inum < |inodes|
      modifies `bmap, `inodes, `logged
      ensures ok && sb.size <= |bmap| * BPB
      ensures Freed(sb, old(Fs()), inum, 0, NSLOT, freed) && Without(old(Fs()), Bitmap(), freed)
      ensures inodes == old(inodes)[inum := old(inodes)[inum].(addrs := Zeros(NDIRECT + 1))]
      ensures old(logged) <= logged && MapLogged(sb, old(Bitmap()), Bitmap(), logged)
    {
      ghost var v := Fs();
      ok, freed := FreeDirect(inum);
      assert InodeOk(sb, v.inodes[inum]);
      if inodes[inum].addrs[NDIRECT] != 0 {
        var fine;
        fine, freed := FreeIndirect(inum, v, freed);
        ok := ok && fine;
        inodes := inodes[inum := inodes[inum].(addrs := inodes[inum].addrs[NDIRECT := 0])];
      } else {
        NoneFreed(sb, v, inum, freed);
      }
      assert inodes[inum].addrs == Zeros(NDIRECT + 1);
    }

    method FreeDirect(inum: nat) returns (ok: bool, ghost gone: seq<nat>)
      requires Valid() && inum < |inodes|
      modifies `bmap, `inodes, `logged
      ensures ok && sb.size <= |bmap| * BPB
      ensures Freed(sb, old(Fs()), inum, 0, NDIRECT, gone) && Without(old(Fs()), Bitmap(), gone)
      ensures |old(inodes)[inum].addrs| == NDIRECT + 1
      ensures inodes == old(inodes)[inum := old(inodes)[inum].(addrs := ClearedTo(old(inodes)[inum].addrs, NDIRECT))]
      ensures old(logged) <= logged && MapLogged(sb, old(Bitmap()), Bitmap(), logged)
    {
      ghost var v := Fs();
      assert InodeOk(sb, v.inodes[inum]);
      ghost var was := v.inodes[inum];
      var i := 0;
      ok, gone := true, [];
      assert was.addrs == ClearedTo(was.addrs, 0);
      while i < NDIRECT
        invariant 0 <= i <= NDIRECT && ok && sb.size <= |bmap| * BPB
        invariant Freed(sb, v, inum, 0, i, gone) && Without(v, Bitmap(), gone)
        invariant inodes == v.inodes[inum := was.(addrs := ClearedTo(was.addrs, i))]
        invariant old(logged) <= logged && MapLogged(sb, v.bitmap, Bitmap(), logged)
      {
        var fine;
        fine, gone := FreeAddr(inum, i, v, was, gone);
        ok := ok && fine;
        i := i + 1;
      }
    }

    /** One turn of the loop over the direct addresses. */
    method FreeAddr(inum: nat, i: nat, ghost v: FsSpec.Fs, ghost was: Inode, ghost gone: seq<nat>) returns (ok: bool, ghost all: seq<nat>)
      requires Owns(sb, v) && inum < |v.inodes| && i < NDIRECT && was == v.inodes[inum] && |was.addrs| == NDIRECT + 1
      requires inodes == v.inodes[inum := was.(addrs := ClearedTo(was.addrs, i))]
      requires sb.size <= |bmap| * BPB && Freed(sb, v, inum, 0, i, gone) && Without(v, Bitmap(), gone) && MapLogged(sb, v.bitmap, Bitmap(), logged)
      modifies `bmap, `inodes, `logged
      ensures ok && sb.size <= |bmap| * BPB
      ensures Freed(sb, v, inum, 0, i + 1, all) && Without(v, Bitmap(), all)
      ensures inodes == v.inodes[inum := was.(addrs := ClearedTo(was.addrs, i + 1))]
      ensures old(logged) <= logged && MapLogged(sb, v.bitmap, Bitmap(), logged)
    {
      ClearedNext(was.addrs, i);
      ok, all := FreeLow(inodes[inum].addrs[i], v, inum, i, gone);
      if inodes[inum].addrs[i] != 0 {
        inodes := inodes[inum := inodes[inum].(addrs := inodes[inum].addrs[i := 0])];
      }
    }

    /** bfree on a direct block if there is one. */
    method FreeLow(a: nat, ghost v: FsSpec.Fs, ghost inum: nat, ghost i: nat, ghost gone: seq<nat>) returns (ok: bool, ghost all: seq<nat>)
      requires Owns(sb, v) && IsSlot(v, inum, i) && a == Slot(sb, v, inum, i)
      requires sb.size <= |bmap| * BPB && Freed(sb, v, inum, 0, i, gone) && Without(v, Bitmap(), gone) && MapLogged(sb, v.bitmap, Bitmap(), logged)
      modifies `bmap, `logged
      ensures ok && sb.size <= |bmap| * BPB
      ensures Freed(sb, v, inum, 0, i + 1, all) && Without(v, Bitmap(), all)
      ensures old(logged) <= logged && MapLogged(sb, v.bitmap, Bitmap(), logged)
    {
      assert [] + gone == gone;
      assert Freed(sb, v, inum, 0, 0, []);
      ok, all := FreeBlock(a, v, inum, 0, i, [], gone);
      assert [] + all == all;
    }

    /** bfree on the block of slot s if it has one, after `before` and `gone` have been freed. */
    method FreeBlock(a: nat, ghost v: FsSpec.Fs, ghost inum: nat, ghost lo: int, ghost s: int, ghost before: seq<nat>, ghost gone: seq<nat>)
      returns (ok: bool, ghost all: seq<nat>)
      requires Owns(sb, v) && IsSlot(v, inum, s) && 0 <= lo <= s && a == Slot(sb, v, inum, s)
      requires sb.size <= |bmap| * BPB && Without(v, Bitmap(), before + gone)
      requires (exists h :: h <= lo && Freed(sb, v, inum, 0, h, before)) && Freed(sb, v, inum, lo, s, gone)
      requires MapLogged(sb, v.bitmap, Bitmap(), logged)
      modifies `bmap, `logged
      ensures ok && sb.size <= |bmap| * BPB
      ensures old(logged) <= logged && MapLogged(sb, v.bitmap, Bitmap(), logged)
      ensures Freed(sb, v, inum, lo, s + 1, all) && Without(v, Bitmap(), before + all)
    {
      FreedNext(sb, v, inum, lo, s, gone);
      ok, all := true, gone;
      if a != 0 {
        all := gone + [a];
        ghost var h :| h <= lo && Freed(sb, v, inum, 0, h, before);
        FreedApart(sb, v, inum, 0, h, lo, s + 1, before, all);
        assert a in all;
        ok := BFree(a);
      }
    }

    method FreeIndirect(inum: nat, ghost v: FsSpec.Fs, ghost gone: seq<nat>) returns (ok: bool, ghost all: seq<nat>)
      requires inum < |inodes| && |inodes[inum].addrs| == NDIRECT + 1
      requires Owns(sb, v) && inum < |v.inodes| && inodes[inum].addrs[NDIRECT] == Slot(sb, v, inum, NDIRECT) != 0
      requires sb.size <= |bmap| * BPB && data == v.data
      requires Freed(sb, v, inum, 0, NDIRECT, gone) && Without(v, Bitmap(), gone) && MapLogged(sb, v.bitmap, Bitmap(), logged)
      modifies `bmap, `logged
      ensures ok && sb.size <= |bmap| * BPB
      ensures old(logged) <= logged && MapLogged(sb, v.bitmap, Bitmap(), logged)
      ensures Freed(sb, v, inum, 0, NSLOT, all) && Without(v, Bitmap(), all)
    {
      var ind := inodes[inum].addrs[NDIRECT];
      ghost var words;
      ok, words := FreeWords(inum, ind, v, gone);
      PointerFreed(sb, v, inum, gone, words);
      all := gone + words + [ind];
      var fine := BFree(ind);
      ok := ok && fine;
    }

    /** Free the blocks named by the words of the indirect block, which still names
        them when the loop ends. */
    method FreeWords(inum: nat, ind: nat, ghost v: FsSpec.Fs, ghost gone: seq<nat>) returns (ok: bool, ghost words: seq<nat>)
      requires Owns(sb, v) && inum < |v.inodes| && ind == Slot(sb, v, inum, NDIRECT) != 0
      requires sb.size <= |bmap| * BPB && data == v.data
      requires Freed(sb, v, inum, 0, NDIRECT, gone) && Without(v, Bitmap(), gone) && MapLogged(sb, v.bitmap, Bitmap(), logged)
      modifies `bmap, `logged
      ensures ok && sb.size <= |bmap| * BPB
      ensures old(logged) <= logged && MapLogged(sb, v.bitmap, Bitmap(), logged)
      ensures Freed(sb, v, inum, NDIRECT + 1, NSLOT, words) && Without(v, Bitmap(), gone + words)
    {
      assert InodeOk(sb, v.inodes[inum]);
      var j := 0;
      ok, words := true, [];
      while j < NINDIRECT
        invariant 0 <= j <= NINDIRECT && ok && sb.size <= |bmap| * BPB
        invariant Freed(sb, v, inum, NDIRECT + 1, NDIRECT + 1 + j, words) && Without(v, Bitmap(), gone + words)
        invariant old(logged) <= logged && MapLogged(sb, v.bitmap, Bitmap(), logged)
      {
        var fine;
        fine, words := FreeBlock(Word(data[ind], j), v, inum, NDIRECT + 1, NDIRECT + 1 + j, gone, words);
        ok := ok && fine;
        j := j + 1;
      }
    }
  }

  lemma MappedMade(sb: Super, v: FsSpec.Fs, n: FsSpec.Fs, i: nat, bn: nat, a: nat)
    requires Owns(sb, v) && Mapped(sb, v, n, i, bn, a) && Slot(sb, v, i, DataSlot(bn)) == 0
    requires FreeCount(n.bitmap) + Wants(sb, v, i, bn) == FreeCount(v.bitmap)
    ensures Made(sb, v, n, i, bn)
  {
    assert IsSlot(v, i, NDIRECT);
    forall x | 0 <= x < MAXFILE && x != bn
      ensures Slot(sb, n, i, DataSlot(x)) == 0 <==> Slot(sb, v, i, DataSlot(x)) == 0
    {
      assert IsSlot(v, i, DataSlot(x));
    }
  }

  lemma ThereMade(sb: Super, v: FsSpec.Fs, i: nat, bn: nat)
    requires Owns(sb, v) && i < |v.inodes| && bn < MAXFILE && Slot(sb, v, i, DataSlot(bn)) != 0
    ensures Made(sb, v, v, i, bn)
  {
  }

  /** x is the indirect block ptr or its bitmap block. */
  predicate OfIndirect(sb: Super, ptr: nat, x: nat) {
    ptr != 0 && (x == ptr || x == sb.BBlock(ptr))
  }

  /** What mapping a block and writing to it may log: the block, the bitmap block of
      a new one, and the indirect block's. */
  ghost predicate Logs(sb: Super, l: set<nat>, m: set<nat>, addr: nat, had: bool, ptr: nat) {
    forall x :: x in m ==> x in l || x == addr || (!had && x == sb.BBlock(addr)) || OfIndirect(sb, ptr, x)
  }

  /** The bitmap block of an indirect block may have been logged before its word. */
  lemma LogsWord(sb: Super, l: set<nat>, k: set<nat>, m: set<nat>, addr: nat, ind: nat)
    requires ind != 0 && (k == l || k == l + {sb.BBlock(ind), ind}) && m == k + {sb.BBlock(addr), addr, ind}
    ensures Logs(sb, l, m, addr, false, ind)
  {
  }

  lemma AddrFilled(sb: Super, v: FsSpec.Fs, m: FsSpec.Fs, n: FsSpec.Fs, i: nat, k: nat, b: nat)
    requires Owns(sb, v) && Owns(sb, n) && IsSlot(v, i, k) && k <= NDIRECT
    requires sb.nmeta <= b < sb.size && !v.bitmap[b] && m == Allocated(v, b)
    requires forall j, s :: IsSlot(v, j, s) ==> Slot(sb, m, j, s) == Slot(sb, v, j, s)
    requires |m.inodes[i].addrs| == NDIRECT + 1 && n == Pointed(m, i, k, b) && SlotSet(sb, m, n, i, k, b)
    ensures Filled(sb, v, n, i, k, b)
  {
    assert forall j, s :: IsSlot(m, j, s) <==> IsSlot(v, j, s);
  }

  lemma WordFilled(sb: Super, v: FsSpec.Fs, m: FsSpec.Fs, n: FsSpec.Fs, i: nat, j: nat, b: nat)
    requires Owns(sb, v) && Owns(sb, n) && i < |v.inodes| && j < NINDIRECT
    requires sb.nmeta <= b < sb.size && !v.bitmap[b] && m == Allocated(v, b)
    requires forall h, s :: IsSlot(v, h, s) ==> Slot(sb, m, h, s) == Slot(sb, v, h, s)
    requires Slot(sb, v, i, NDIRECT) != 0 && Slot(sb, v, i, NDIRECT) < sb.size && v.bitmap[Slot(sb, v, i, NDIRECT)]
    requires n == WordPointed(m, Slot(sb, v, i, NDIRECT), j, b) && SlotSet(sb, m, n, i, NDIRECT + 1 + j, b)
    ensures Filled(sb, v, n, i, NDIRECT + 1 + j, b)
  {
    assert forall h, s :: IsSlot(m, h, s) <==> IsSlot(v, h, s);
  }

  /** The pointer's own block is still marked, and with it everything is freed. */
  lemma PointerFreed(sb: Super, v: FsSpec.Fs, i: nat, gone: seq<nat>, words: seq<nat>)
    requires Owns(sb, v) && i < |v.inodes| && Slot(sb, v, i, NDIRECT) != 0
    requires Freed(sb, v, i, 0, NDIRECT, gone) && Freed(sb, v, i, NDIRECT + 1, NSLOT, words)
    ensures InUse(sb, v, Slot(sb, v, i, NDIRECT)) && Slot(sb, v, i, NDIRECT) !in gone + words
    ensures Freed(sb, v, i, 0, NSLOT, gone + words + [Slot(sb, v, i, NDIRECT)])
  {
    assert IsSlot(v, i, NDIRECT);
    var ind := Slot(sb, v, i, NDIRECT);
    FreedNext(sb, v, i, 0, NDIRECT, gone);
    var first := gone + [ind];
    FreedApart(sb, v, i, 0, NDIRECT + 1, NDIRECT + 1, NSLOT, first, words);
    assert ind in first;
    var all := gone + words + [ind];
    forall x, y | 0 <= x < y < |all|
      ensures all[x] != all[y]
    {
      if x < |gone| <= y < |all| - 1 {
        assert all[y] in words && all[x] in first;
      }
      if y == |all| - 1 {
        assert all[x] in gone + words;
      }
    }
    forall b
      ensures b in all <==> InSlots(sb, v, i, 0, NSLOT, b)
    {
      SplitSlots(sb, v, i, b);
      assert b in all <==> b in first || b in words;
    }
  }

  lemma SplitSlots(sb: Super, v: FsSpec.Fs, i: nat, b: nat)
    requires Shape(sb, v)
    ensures InSlots(sb, v, i, 0, NSLOT, b) <==> InSlots(sb, v, i, 0, NDIRECT + 1, b) || InSlots(sb, v, i, NDIRECT + 1, NSLOT, b)
  {
    if InSlots(sb, v, i, 0, NSLOT, b) {
      var s :| 0 <= s < NSLOT && IsSlot(v, i, s) && Slot(sb, v, i, s) == b;
      assert s < NDIRECT + 1 ==> InSlots(sb, v, i, 0, NDIRECT + 1, b);
    }
  }

  /** Without an indirect block the direct blocks are all there are. */
  lemma NoneFreed(sb: Super, v: FsSpec.Fs, i: nat, gone: seq<nat>)
    requires Owns(sb, v) && i < |v.inodes| && Slot(sb, v, i, NDIRECT) == 0
    requires Freed(sb, v, i, 0, NDIRECT, gone)
    ensures Freed(sb, v, i, 0, NSLOT, gone)
  {
    assert IsSlot(v, i, NDIRECT);
    FreedNext(sb, v, i, 0, NDIRECT, gone);
    forall b
      ensures InSlots(sb, v, i, 0, NDIRECT + 1, b) <==> InSlots(sb, v, i, 0, NSLOT, b)
    {
      SplitSlots(sb, v, i, b);
    }
  }
}
