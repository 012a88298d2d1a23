/** malloc, free and morecore over the circular free list. */
module Malloc {
  import opened HeapSpec

  const UINT: nat := 0x1_0000_0000
  const HEADER: nat := 8          // sizeof(Header)
  const NALLOC: nat := 4096       // least units asked of sbrk

  /** What sbrk answers: a refusal, or where the memory ended before the call. */
  datatype Brk = Refused | Top(unit: nat)

  /** What malloc comes to.  Wild: it stores the header of a block it believes sbrk
      has added, at the end of the process's memory, where there is none. */
  datatype Got = Null | Block(addr: nat) | Wild

  /** Units for nbytes: the header and the bytes rounded up, in 32-bit arithmetic. */
  function NUnits(nbytes: nat): (n: nat)
    ensures 1 <= n <= UINT / HEADER
  {
    (nbytes + HEADER - 1) % UINT / HEADER + 1
  }

  class Allocator {
    const base: nat
    var freep: nat              // 0 before the first malloc
    var ptr: map<nat, nat>      // s.ptr of each header
    var size: map<nat, nat>     // s.size of each header
    ghost var list: seq<nat>    // the free list from base up
    ghost var live: set<nat>    // headers of blocks handed out
    ghost var arena: set<nat>   // units obtained from sbrk

    constructor (base: nat)
      requires base > 0
      ensures Valid() && live == {} && arena == {} && this.base == base
    {
      this.base, freep, ptr, size, list, live, arena := base, 0, map[], map[], [], {}, {};
    }

    ghost predicate Valid()
      reads this
    {
      base > 0 && if freep == 0 then list == [] && live == {} && arena == {} else Ready()
    }

    ghost predicate Ready()
      reads this
    {
      Heap(size, list, base, live, arena, 0, 0) && Circle(ptr, list) && freep in list
    }

    /** Where bp belongs: after the last entry below it. */
    lemma {:induction false} Spot(bp: nat, n: nat) returns (pos: nat)
      requires 1 <= n <= |list| && list[0] < bp && (n < |list| ==> bp < list[n])
      requires forall i :: 0 <= i < |list| ==> list[i] != bp
      ensures pos < |list| && list[pos] < bp && (pos + 1 < |list| ==> bp < list[pos + 1])
    {
      if list[n - 1] < bp {
        pos := n - 1;
      } else {
        pos := Spot(bp, n - 1);
      }
    }

    /** free's search: the list entry after which bp belongs. */
    method FindSpot(bp: nat) returns (p: nat, ghost pos: nat)
      requires Ready() && base < bp && bp !in list
      ensures pos < |list| && p == list[pos] && base <= p < bp && (pos + 1 < |list| ==> bp < list[pos + 1])
    {
      pos := Spot(bp, |list|);
      p := freep;
      ghost var i :| 0 <= i < |list| && list[i] == p;
      assert LinkAt(ptr, list, i);
      while !(bp > p && bp < ptr[p])
        invariant 0 <= i < |list| && list[i] == p && p in ptr && ptr[p] == After(list, i)
        decreases if i <= pos then pos - i else pos - i + |list|
      {
        if p >= ptr[p] && (bp > p || bp < ptr[p]) {
          break;
        }
        Stops(size, list, bp, pos, i);
        p := ptr[p];
        i := if i + 1 < |list| then i + 1 else 0;
        assert LinkAt(ptr, list, i);
      }
      Found(size, list, bp, pos, i);
      if pos > 0 { Ascending(size, list, 0, pos); }
    }

    /** free.  The units of the block become free, nothing else changes hands. */
    method Free(ap: nat)
      requires Valid() && ap > 0 && ap - 1 in live
      modifies this
      ensures Valid() && freep != 0 && live == old(live) - {ap - 1} && arena == old(arena)
      ensures SameSizes(live, old(size), size)
      ensures ap - 1 in old(size) && Fits(old(size)[ap - 1])
    {
      var bp := ap - 1;
      LiveAbove(size, list, base, live, arena, bp);
      var p;
      ghost var pos;
      p, pos := FindSpot(bp);
      PutBack(size, list, base, live, arena, pos, bp);
      live := live - {bp};
      JoinNext(p, bp, pos);
      JoinPrev(p, bp, pos);
      freep := p;
    }

    /** bp takes in the entry after p if it touches it, or points to it. */
    method JoinNext(p: nat, bp: nat, ghost pos: nat)
      requires pos < |list| && p == list[pos] && bp !in list && Circle(ptr, list)
      requires Heap(size, With(list, pos + 1, bp), base, live, arena, pos, pos + 2) && (forall j :: InOrder(size, list, j))
      modifies `ptr, `size, `list
      ensures pos + 1 < |list| && list[pos] == p && list[pos + 1] == bp && bp in ptr
      ensures Heap(size, list, base, live, arena, pos, pos + 1) && Circle(ptr[p := bp], list)
      ensures SameSizes(live, old(size), size)
      ensures bp in size && bp in old(size) && size[bp] >= old(size)[bp]
    {
      ghost var n := With(list, pos + 1, bp);
      Inserted(ptr, size, list, base, live, arena, pos, bp);
      if bp + size[bp] == ptr[p] {
        NextMerged(ptr, size, list, base, live, arena, pos, bp);
        list := Without(n, pos + 2);
        size := size[bp := size[bp] + size[ptr[p]]];
        ptr := ptr[bp := ptr[ptr[p]]];
      } else {
        NextApart(ptr, size, list, base, live, arena, pos, bp);
        list := n;
        ptr := ptr[bp := ptr[p]];
      }
    }

    /** p takes in bp if it touches it, or points to it. */
    method JoinPrev(p: nat, bp: nat, ghost pos: nat)
      requires pos + 1 < |list| && list[pos] == p && list[pos + 1] == bp && bp in ptr && bp in size
      requires Heap(size, list, base, live, arena, pos, pos + 1) && Circle(ptr[p := bp], list)
      modifies `ptr, `size, `list
      ensures Heap(size, list, base, live, arena, 0, 0) && Circle(ptr, list) && p in list && Fits(old(size)[bp])
      ensures SameSizes(live, old(size), size)
    {
      ghost var n := list;
      assert bp in FreeSet(n);
      assert InOrder(size, n, pos);
      assert pos > 0 ==> p in FreeSet(n);
      if p + size[p] == bp {
        MergeAt(size, n, base, live, arena, pos, pos);
        CircleWithout(ptr[p := bp], size, n, pos + 1);
        size := size[p := size[p] + size[bp]];
        ptr := ptr[p := ptr[bp]];
        list := Without(n, pos + 1);
        assert old(ptr)[p := bp][p := ptr[p]] == ptr;
        assert EntrySize(size, list, pos) >= old(size)[bp];
      } else {
        ptr := ptr[p := bp];
        assert EntrySize(size, list, pos + 1) >= old(size)[bp];
      }
    }

    /** morecore.  It goes wild exactly when sbrk does not refuse a byte count that is
        no positive int; the list is then none that the invariant describes, and what
        that store destroys is not followed. */
    method MoreCore(nu: nat, brk: Brk) returns (got: Got)
      requires Valid() && freep != 0 && nu <= UINT / HEADER
      requires brk.Top? ==> base < brk.unit && forall u :: u in arena ==> u < brk.unit
      modifies this
      ensures !got.Wild? ==> Valid() && freep != 0 && live == old(live) && SameSizes(live, old(size), size)
      ensures got.Null? <==> brk.Refused?
      ensures got.Wild? <==> brk.Top? && AsInt(Max(nu, NALLOC) * HEADER) <= 0
      ensures got.Block? ==> got.addr == freep && Fits(nu) && arena == old(arena) + Units(brk.unit, Max(nu, NALLOC))
      ensures got.Null? ==> arena == old(arena) && list == old(list) && size == old(size)
    {
      var n := Max(nu, NALLOC);
      if brk.Refused? {
        return Null;
      }
      if AsInt(n * HEADER) <= 0 {
        return Wild;
      }
      var hp := brk.unit;
      GrowHeap(size, list, base, live, arena, hp, n);
      size := size[hp := n];
      live := live + {hp};
      arena := arena + Units(hp, n);
      Free(hp + 1);
      got := Block(freep);
    }

    /** Take nunits from the block p that follows prevp, all of it or its tail. */
    method Carve(prevp: nat, p: nat, nunits: nat, ghost k: nat) returns (b: nat)
      requires Valid() && freep != 0 && k < |list| && list[k] == prevp && p == After(list, k)
      requires p in size && size[p] >= nunits >= 1
      modifies this
      ensures Valid() && freep == prevp != 0 && b !in old(live) && live == old(live) + {b} && arena == old(arena)
      ensures b in size && size[b] == nunits && SameSizes(old(live), old(size), size)
    {
      assert LinkAt(ptr, list, k);
      AfterFirst(size, list, base, live, arena, k);
      if k > 0 { Ascending(size, list, 0, k); }
      if size[p] == nunits {
        b := p;
        CarveWhole(prevp, p, k);
      } else {
        b := CarveTail(p, nunits, k);
      }
      freep := prevp;
    }

    method CarveWhole(prevp: nat, p: nat, ghost k: nat)
      requires Valid() && freep != 0 && k + 1 < |list| && list[k] == prevp && p == list[k + 1]
      modifies `ptr, `list, `live
      ensures Heap(size, list, base, live, arena, 0, 0) && Circle(ptr, list) && prevp in list
      ensures p !in old(live) && live == old(live) + {p}
    {
      TakeWhole(size, list, base, live, arena, k + 1);
      CircleWithout(ptr, size, list, k + 1);
      ptr := ptr[prevp := ptr[p]];
      list := Without(list, k + 1);
      live := live + {p};
      assert list[k] == prevp;
    }

    method CarveTail(p: nat, nunits: nat, ghost k: nat) returns (b: nat)
      requires Valid() && freep != 0 && k + 1 < |list| && p == list[k + 1]
      requires p in size && size[p] > nunits >= 1
      modifies `size, `live
      ensures Heap(size, list, base, live, arena, 0, 0)
      ensures b !in old(live) && live == old(live) + {b}
      ensures b in size && size[b] == nunits && SameSizes(old(live), old(size), size)
    {
      TakeTail(size, list, base, live, arena, k + 1, nunits);
      b := p + size[p] - nunits;
      TailSizes(size, list, live, k + 1, b, nunits);
      size := size[p := size[p] - nunits][b := nunits];
      live := live + {b};
    }

    /** Before the first call the free list is `base` alone. */
    method Init()
      requires Valid() && freep == 0
      modifies this
      ensures Valid() && freep == base && list == [base] && live == old(live) && arena == old(arena)
    {
      ptr := map[base := base];
      freep := base;
      size := map[base := 0];
      list := [base];
      assert FreeSet(list) == {};
    }

    /** malloc's search, once round from freep: the first entry with nunits, and the
        one before it. */
    method Search(nunits: nat) returns (found: bool, prevp: nat, p: nat, ghost k: nat)
      requires Valid() && freep != 0 && nunits >= 1
      ensures found <==> Fits(nunits)
      ensures found ==> k < |list| && list[k] == prevp && p == After(list, k) && p in size && size[p] >= nunits
    {
      prevp := freep;
      k :| 0 <= k < |list| && list[k] == prevp;
      ghost var f := k;
      assert LinkAt(ptr, list, k);
      p := ptr[prevp];
      while true
        invariant 0 <= f < |list| && list[f] == freep && 0 <= k < |list| && list[k] == prevp && p == After(list, k)
        invariant forall j :: Seen(f, k, |list|, j) ==> EntrySize(size, list, j) < nunits
        decreases if k < f then f - k else f - k + |list|
      {
        EntryKnown(size, list, base, live, arena, Next(k, |list|));
        if size[p] >= nunits {
          FitsNow(size, list, base, Next(k, |list|), nunits);
          return true, prevp, p, k;
        }
        if p == freep {
          AllSeen(size, list, base, live, arena, f, k, nunits);
          return false, prevp, p, k;
        }
        SeenNext(size, list, f, k);
        k := Next(k, |list|);
        prevp := p;
        assert LinkAt(ptr, list, k);
        p := ptr[p];
      }
    }

    /** malloc.  The block handed out, with its header one unit below, is new, has
        exactly the units asked for, and no other block in use changes.  sbrk is asked
        exactly when no free block is large enough, and the search after it succeeds. */
    method Malloc(nbytes: nat, brk: Brk) returns (got: Got, asked: bool)
      requires Valid() && nbytes < UINT
      requires brk.Top? ==> base < brk.unit && forall u :: u in arena ==> u < brk.unit
      modifies this
      ensures !got.Wild? ==> Valid() && freep != 0 && SameSizes(old(live), old(size), size)
      ensures asked <==> !old(Fits(NUnits(nbytes)))
      ensures got.Null? <==> asked && brk.Refused?
      ensures got.Wild? <==> asked && brk.Top? && AsInt(Max(NUnits(nbytes), NALLOC) * HEADER) <= 0
      ensures got.Null? ==> live == old(live) && arena == old(arena)
      ensures got.Block? ==>
                var b := got.addr - 1;
                && got.addr > 0 && b !in old(live) && live == old(live) + {b} && b in size && size[b] == NUnits(nbytes)
                && arena == old(arena) + if asked then Units(brk.unit, Max(NUnits(nbytes), NALLOC)) else {}
    {
      var nunits := NUnits(nbytes);
      if freep == 0 {
        Init();
      }
      var found, prevp, p;
      ghost var k;
      found, prevp, p, k := Search(nunits);
      asked := !found;
      if asked {
        got := MoreCore(nunits, brk);
        if !got.Block? {
          return;
        }
        found, prevp, p, k := Search(nunits);
      }
      var b := Carve(prevp, p, nunits, k);
      got := Block(b + 1);
    }

    /** Some free block has at least k units. */
    ghost predicate Fits(k: nat)
      reads this
    {
      exists i :: 1 <= i < |list| && EntrySize(size, list, i) >= k
    }
  }

  function Max(a: nat, b: nat): nat {
    if a < b then b else a
  }

  ghost predicate SameSizes(live: set<nat>, s: Sizes, n: Sizes) {
    forall a :: a in live ==> a in s && a in n && n[a] == s[a]
  }

  function EntrySize(size: Sizes, list: seq<nat>, i: int): nat {
    if 0 <= i < |list| && list[i] in size then size[list[i]] else 0
  }

  function Next(k: nat, n: nat): nat {
    if k + 1 < n then k + 1 else 0
  }

  /** Going round from just after f, entry j has been passed when the search stands
      at k. */
  predicate Seen(f: nat, k: nat, n: nat, j: int) {
    0 <= j < n && if f <= k then f < j <= k else j > f || j <= k
  }

  lemma Stops(size: Sizes, list: seq<nat>, bp: nat, pos: nat, i: nat)
    requires (forall j :: InOrder(size, list, j)) && pos < |list| && i < |list|
    requires list[pos] < bp && (pos + 1 < |list| ==> bp < list[pos + 1]) && list[0] < bp
    requires !(bp > list[i] && bp < After(list, i))
    requires !(list[i] >= After(list, i) && (bp > list[i] || bp < After(list, i)))
    ensures i != pos
  {
    if i > 0 { Ascending(size, list, 0, i); }
  }

  lemma Found(size: Sizes, list: seq<nat>, bp: nat, pos: nat, i: nat)
    requires (forall j :: InOrder(size, list, j)) && pos < |list| && i < |list|
    requires list[pos] < bp && (pos + 1 < |list| ==> bp < list[pos + 1]) && list[0] < bp
    requires (bp > list[i] && bp < After(list, i)) || (list[i] >= After(list, i) && (bp > list[i] || bp < After(list, i)))
    ensures i == pos
  {
    assert InOrder(size, list, i);
    if i + 1 < pos { Ascending(size, list, i + 1, pos); }
    if pos + 1 < i { Ascending(size, list, pos + 1, i); }
  }

  lemma LiveAbove(size: Sizes, list: seq<nat>, base: nat, live: set<nat>, arena: set<nat>, bp: nat)
    requires Heap(size, list, base, live, arena, 0, 0) && bp in live
    ensures bp in size && base < bp && bp !in list
  {
    assert Covers(size, bp, bp);
    forall i | 0 <= i < |list|
      ensures list[i] != bp
    {
      assert i > 0 ==> list[i] in FreeSet(list);
    }
  }

  lemma TailSizes(size: Sizes, list: seq<nat>, live: set<nat>, i: nat, b: nat, k: nat)
    requires 1 <= i < |list| && list[i] in size && k <= size[list[i]] && FreeSet(list) !! live && b !in live
    requires forall a :: a in live ==> a in size
    ensures SameSizes(live, size, size[list[i] := size[list[i]] - k][b := k])
  {
    assert list[i] in FreeSet(list);
  }

  lemma Inserted(ptr: Sizes, size: Sizes, list: seq<nat>, base: nat, live: set<nat>, arena: set<nat>, pos: nat, bp: nat)
    requires pos < |list| && Circle(ptr, list) && Heap(size, With(list, pos + 1, bp), base, live, arena, pos, pos + 2)
    ensures list[pos] in ptr && ptr[list[pos]] == After(list, pos) && bp in size && bp !in live
  {
    assert With(list, pos + 1, bp)[pos + 1] == bp;
    assert bp in FreeSet(With(list, pos + 1, bp));
    assert LinkAt(ptr, list, pos);
  }

  /** bp takes in the entry after it. */
  lemma NextMerged(ptr: Sizes, size: Sizes, list: seq<nat>, base: nat, live: set<nat>, arena: set<nat>, pos: nat, bp: nat)
    requires pos < |list| && bp !in list && Circle(ptr, list) && (forall j :: InOrder(size, list, j))
    requires Heap(size, With(list, pos + 1, bp), base, live, arena, pos, pos + 2)
    requires bp in size && bp + size[bp] == After(list, pos)
    ensures var next := After(list, pos);
            && pos + 1 < |list| && next in size && next in ptr
            && var m: Sizes, p: Sizes, n := size[bp := size[bp] + size[next]], ptr[bp := ptr[next]], Without(With(list, pos + 1, bp), pos + 2);
            Heap(m, n, base, live, arena, pos, pos + 1) && Circle(p[list[pos] := bp], n)
  {
    var n := With(list, pos + 1, bp);
    NextThere(size, list, base, live, arena, pos, bp);
    MergeAt(size, n, base, live, arena, pos, pos + 1);
    InOrderOf(size, n, base, live, arena, pos, pos + 2);
    NextUnlinked(ptr, size, list, pos, bp, n);
  }

  lemma InOrderOf(size: Sizes, list: seq<nat>, base: nat, live: set<nat>, arena: set<nat>, lo: int, hi: int)
    requires Heap(size, list, base, live, arena, lo, hi)
    ensures forall j :: InOrder(size, list, j)
  {
  }

  /** The entry bp touches is the one after it on the list. */
  lemma NextThere(size: Sizes, list: seq<nat>, base: nat, live: set<nat>, arena: set<nat>, pos: nat, bp: nat)
    requires pos < |list| && Heap(size, With(list, pos + 1, bp), base, live, arena, pos, pos + 2)
    requires bp in size && bp + size[bp] == After(list, pos)
    ensures pos + 1 < |list| && list[pos + 1] in size
  {
    var n := With(list, pos + 1, bp);
    Ascending(size, n, 0, pos + 1);
    assert n[pos + 1] == bp;
    if pos + 1 < |list| {
      assert n[pos + 2] == list[pos + 1] && n[pos + 2] in FreeSet(n);
    }
  }

  /** On the circle: bp comes in after entry pos, and the next entry goes. */
  lemma NextUnlinked(ptr: Sizes, size: Sizes, list: seq<nat>, pos: nat, bp: nat, n: seq<nat>)
    requires pos + 1 < |list| && bp !in list && Circle(ptr, list) && n == With(list, pos + 1, bp)
    requires (forall j :: InOrder(size, list, j)) && (forall j :: InOrder(size, n, j))
    ensures list[pos + 1] in ptr
    ensures var p: Sizes := ptr[bp := ptr[list[pos + 1]]]; Circle(p[list[pos] := bp], Without(n, pos + 2))
  {
    var next := list[pos + 1];
    assert LinkAt(ptr, list, pos) && LinkAt(ptr, list, pos + 1);
    CircleWith(ptr, size, list, pos, bp);
    var c: Sizes := ptr[bp := ptr[list[pos]]][list[pos] := bp];
    assert n[pos + 2] == next && n[pos + 1] == bp;
    CircleWithout(c, size, n, pos + 2);
    Elsewhere(size, list, pos, pos + 1);
    assert c[bp := c[next]] == ptr[bp := ptr[next]][list[pos] := bp];
  }

  /** bp does not touch the entry after it. */
  lemma NextApart(ptr: Sizes, size: Sizes, list: seq<nat>, base: nat, live: set<nat>, arena: set<nat>, pos: nat, bp: nat)
    requires pos < |list| && bp !in list && Circle(ptr, list) && (forall j :: InOrder(size, list, j))
    requires Heap(size, With(list, pos + 1, bp), base, live, arena, pos, pos + 2)
    requires bp in size && bp + size[bp] != After(list, pos)
    ensures var n := With(list, pos + 1, bp);
            list[pos] in ptr && Heap(size, n, base, live, arena, pos, pos + 1) && Circle(ptr[bp := ptr[list[pos]]][list[pos] := bp], n)
  {
    var n := With(list, pos + 1, bp);
    CircleWith(ptr, size, list, pos, bp);
    assert InOrder(size, n, pos + 1);
    assert Gap(size, n, pos + 1);
  }

  /** A block with units is not base: it comes after prevp on the list. */
  lemma AfterFirst(size: Sizes, list: seq<nat>, base: nat, live: set<nat>, arena: set<nat>, k: nat)
    requires Heap(size, list, base, live, arena, 0, 0) && k < |list|
    requires After(list, k) in size && size[After(list, k)] >= 1
    ensures k + 1 < |list|
  {
  }

  lemma EntryKnown(size: Sizes, list: seq<nat>, base: nat, live: set<nat>, arena: set<nat>, i: nat)
    requires Heap(size, list, base, live, arena, 0, 0) && i < |list|
    ensures list[i] in size && EntrySize(size, list, i) == size[list[i]]
  {
    assert i > 0 ==> list[i] in FreeSet(list);
  }

  lemma FitsNow(size: Sizes, list: seq<nat>, base: nat, i: nat, n: nat)
    requires i < |list| && list[0] == base && base in size && size[base] == 0 && list[i] in size && size[list[i]] >= n >= 1
    ensures 1 <= i && EntrySize(size, list, i) >= n
  {
  }

  /** Back at freep: every entry has been passed. */
  lemma AllSeen(size: Sizes, list: seq<nat>, base: nat, live: set<nat>, arena: set<nat>, f: nat, k: nat, n: nat)
    requires Heap(size, list, base, live, arena, 0, 0) && f < |list| && k < |list| && After(list, k) == list[f]
    requires forall j :: Seen(f, k, |list|, j) ==> EntrySize(size, list, j) < n
    requires EntrySize(size, list, f) < n
    ensures forall j :: 0 <= j < |list| ==> EntrySize(size, list, j) < n
  {
    if Next(k, |list|) != f { Elsewhere(size, list, Next(k, |list|), f); }
    forall j | 0 <= j < |list|
      ensures EntrySize(size, list, j) < n
    {
      assert j == f || Seen(f, k, |list|, j);
    }
  }

  lemma SeenNext(size: Sizes, list: seq<nat>, f: nat, k: nat)
    requires f < |list| && k < |list| && After(list, k) != list[f]
    ensures forall j :: Seen(f, Next(k, |list|), |list|, j) ==> Seen(f, k, |list|, j) || j == Next(k, |list|)
  {
  }

  // ----- which requests are served ------------------------------------------

  /** The 32 bits of x as an int. */
  function AsInt(x: nat): int {
    if x % UINT < UINT / 2 then x % UINT else x % UINT - UINT
  }

  /** The size of the process, in bytes, after sbrk(n) has not refused: growproc adds n
      bytes, or lets them go, or does neither when the sum is no smaller size. */
  function Grown(sz: nat, n: int): nat {
    if n >= 0 then sz + n else if 0 <= sz + n then sz + n else sz
  }

  /** The block is large enough exactly when the size computation does not wrap. */
  lemma EnoughIff(nbytes: nat)
    requires nbytes < UINT
    ensures (NUnits(nbytes) - 1) * HEADER >= nbytes <==> nbytes + HEADER - 1 < UINT
  {
    var x := nbytes + HEADER - 1;
    if x < UINT {
      assert x % UINT == x;
    } else {
      assert x % UINT == x - UINT < HEADER;
    }
  }

  /** The last seven byte counts get one unit: no room at all. */
  lemma TooSmall(nbytes: nat)
    requires UINT - HEADER < nbytes < UINT
    ensures NUnits(nbytes) == 1
  {
    assert (nbytes + HEADER - 1) % UINT == nbytes + HEADER - 1 - UINT;
  }

  /** What morecore asks of sbrk for a request. */
  function Asked(nbytes: nat): nat {
    Max(NUnits(nbytes), NALLOC) * HEADER
  }

  /** sbrk adds the bytes morecore takes from it exactly when their number is a
      positive int; otherwise it adds none. */
  lemma AddedIff(sz: nat, x: nat)
    requires 0 < x <= UINT
    ensures sz + x <= Grown(sz, AsInt(x)) <==> AsInt(x) > 0
    ensures AsInt(x) > 0 <==> x < UINT / 2
    ensures AsInt(x) <= 0 ==> Grown(sz, AsInt(x)) <= sz
  {
  }

  /** From 0x7ffffff1 bytes on the number is no positive int, until the size
      computation itself wraps. */
  lemma AskedIff(nbytes: nat)
    requires nbytes < UINT
    ensures 0 < Asked(nbytes) <= UINT
    ensures AsInt(Asked(nbytes)) <= 0 <==> 0x7fff_fff0 < nbytes <= UINT - HEADER
  {
    if nbytes > UINT - HEADER {
      TooSmall(nbytes);
    } else {
      assert (nbytes + HEADER - 1) % UINT == nbytes + HEADER - 1;
      AddedIff(0, Asked(nbytes));
    }
  }

  /** The process has, or gets, memory for the bytes asked for. */
  predicate Served(nbytes: nat, sz: nat, fits: bool) {
    && (NUnits(nbytes) - 1) * HEADER >= nbytes
    && (fits || sz + Asked(nbytes) <= Grown(sz, AsInt(Asked(nbytes))))
  }

  /** malloc serves a request, unless sbrk refuses, exactly up to 0x7ffffff0 bytes, or
      up to eight less than 2^32 where a free block is large enough. */
  lemma ServedIff(nbytes: nat, sz: nat, fits: bool)
    requires nbytes < UINT
    ensures Served(nbytes, sz, fits) <==> nbytes <= 0x7fff_fff0 || (fits && nbytes <= UINT - HEADER)
  {
    EnoughIff(nbytes);
    AskedIff(nbytes);
    AddedIff(sz, Asked(nbytes));
  }

  /** A request that makes the process smaller: sbrk is given -65528. */
  lemma Shrinks(sz: nat)
    requires sz > 65528
    ensures AsInt(Asked(0xffff_0000)) == -65528 && Grown(sz, AsInt(Asked(0xffff_0000))) == sz - 65528
  {
    assert NUnits(0xffff_0000) == 0x1fff_e001;
  }
}
