/** The K&R allocator's heap as values, in units of one header: blocks that tile the
    memory obtained from sbrk, and the address-ordered free list. */
module HeapSpec {

  type Sizes = map<nat, nat>

  /** Block a covers unit u. */
  predicate Covers(size: Sizes, a: nat, u: nat) {
    a in size && a <= u < a + size[a]
  }

  predicate Apart(size: Sizes, a: nat, b: nat) {
    a in size && b in size && (a + size[a] <= b || b + size[b] <= a)
  }

  /** Blocks are nonempty, inside the arena, disjoint, and leave nothing out. */
  ghost predicate Tile(size: Sizes, blocks: set<nat>, arena: set<nat>) {
    && (forall a :: a in blocks ==> a in size && size[a] >= 1)
    && (forall a, u :: a in blocks && Covers(size, a, u) ==> u in arena)
    && (forall a, b :: a in blocks && b in blocks && a != b ==> Apart(size, a, b))
    && (forall u :: u in arena ==> Covered(size, blocks, u))
  }

  ghost predicate Covered(size: Sizes, blocks: set<nat>, u: nat) {
    exists a :: a in blocks && Covers(size, a, u)
  }

  /** Two touching blocks become one. */
  lemma MergeTile(size: Sizes, blocks: set<nat>, arena: set<nat>, a: nat, b: nat)
    requires Tile(size, blocks, arena) && a in blocks && b in blocks && a + size[a] == b
    ensures a != b && Tile(size[a := size[a] + size[b]], blocks - {b}, arena)
  {
    var n := size[a := size[a] + size[b]];
    var bs := blocks - {b};
    forall u | u in arena
      ensures Covered(n, bs, u)
    {
      var c :| c in blocks && Covers(size, c, u);
      assert Covers(n, if c == b then a else c, u);
    }
    forall c, u | c in bs && Covers(n, c, u)
      ensures u in arena
    {
      assert Covers(size, c, u) || Covers(size, b, u);
    }
    forall c, d | c in bs && d in bs && c != d
      ensures Apart(n, c, d)
    {
      assert Apart(size, c, d) && Apart(size, a, b);
      assert c == a ==> Apart(size, d, b);
      assert d == a ==> Apart(size, c, b);
    }
  }

  /** The last k units of a block become a block of their own. */
  lemma SplitTile(size: Sizes, blocks: set<nat>, arena: set<nat>, a: nat, k: nat)
    requires Tile(size, blocks, arena) && a in blocks && 0 < k < size[a]
    ensures var t := a + size[a] - k;
            t !in blocks && Tile(size[a := size[a] - k][t := k], blocks + {t}, arena)
  {
    var t := a + size[a] - k;
    assert Covers(size, a, t);
    assert t in blocks ==> Apart(size, a, t);
    var n := size[a := size[a] - k][t := k];
    var bs := blocks + {t};
    forall u | u in arena
      ensures Covered(n, bs, u)
    {
      var c :| c in blocks && Covers(size, c, u);
      assert Covers(n, if c == a && u >= t then t else c, u);
    }
    forall c, u | c in bs && Covers(n, c, u)
      ensures u in arena
    {
      assert Covers(size, if c == t then a else c, u);
    }
    forall c, d | c in bs && d in bs && c != d
      ensures Apart(n, c, d)
    {
      assert c != t && d != t ==> Apart(size, c, d);
      assert c == t && d != a ==> Apart(size, a, d);
      assert d == t && c != a ==> Apart(size, a, c);
    }
  }

  predicate InUnits(t: nat, n: nat, u: int) {
    t <= u < t + n
  }

  function Units(t: nat, n: nat): set<nat> {
    set u: nat | t <= u < t + n && InUnits(t, n, u)
  }

  /** Memory from sbrk, above all there is, becomes a block. */
  lemma GrowTile(size: Sizes, blocks: set<nat>, arena: set<nat>, t: nat, k: nat)
    requires Tile(size, blocks, arena) && 0 < k && forall u :: u in arena ==> u < t
    ensures t !in blocks && Tile(size[t := k], blocks + {t}, arena + Units(t, k))
  {
    if t in blocks {
      assert Covers(size, t, t);
      assert false;
    }
    var n := size[t := k];
    var bs := blocks + {t};
    forall u | u in arena + Units(t, k)
      ensures Covered(n, bs, u)
    {
      if u in arena {
        var c :| c in blocks && Covers(size, c, u);
        assert Covers(n, c, u);
      } else {
        assert Covers(n, t, u);
      }
    }
    forall c | c in blocks
      ensures c + size[c] <= t
    {
      assert Covers(size, c, c + size[c] - 1);
    }
    forall c, d | c in bs && d in bs && c != d
      ensures Apart(n, c, d)
    {
      assert c != t && d != t ==> Apart(size, c, d);
    }
    forall c, u | c in bs && Covers(n, c, u)
      ensures u in arena + Units(t, k)
    {
      assert c != t ==> Covers(size, c, u);
    }
  }

  // ----- the free list, lowest address first --------------------------------

  function End(size: Sizes, a: nat): nat {
    if a in size then a + size[a] else a
  }

  /** Entry j ends at or before the next. */
  predicate InOrder(size: Sizes, list: seq<nat>, j: int) {
    0 <= j < |list| - 1 ==> End(size, list[j]) <= list[j + 1] && list[j] < list[j + 1]
  }

  /** Entry j does not touch the next. */
  predicate Gap(size: Sizes, list: seq<nat>, j: int) {
    0 <= j < |list| - 1 ==> End(size, list[j]) < list[j + 1]
  }

  /** Address-ordered, and no two touch except perhaps entries lo..hi and their
      successors. */
  ghost predicate Ordered(size: Sizes, list: seq<nat>, lo: int, hi: int) {
    && (forall j :: InOrder(size, list, j))
    && (forall j :: j < lo || hi <= j ==> Gap(size, list, j))
  }

  lemma {:induction false} Ascending(size: Sizes, list: seq<nat>, i: nat, j: nat)
    requires (forall k :: InOrder(size, list, k)) && i < j < |list|
    ensures End(size, list[i]) <= list[j] && list[i] < list[j]
  {
    assert InOrder(size, list, j - 1);
    if i < j - 1 {
      Ascending(size, list, i, j - 1);
    }
  }

  /** The blocks on the list: all but the first entry, which is `base`. */
  function FreeSet(list: seq<nat>): (s: set<nat>)
    ensures forall a :: a in s <==> exists i :: 1 <= i < |list| && list[i] == a
  {
    set i | 1 <= i < |list| :: list[i]
  }

  function Without(list: seq<nat>, i: nat): (r: seq<nat>)
    requires i < |list|
    ensures |r| == |list| - 1 && forall j :: 0 <= j < |r| ==> r[j] == list[if j < i then j else j + 1]
  {
    list[..i] + list[i + 1..]
  }

  function With(list: seq<nat>, i: nat, a: nat): (r: seq<nat>)
    requires i <= |list|
    ensures |r| == |list| + 1 && r[i] == a
    ensures forall j :: 0 <= j < |r| && j != i ==> r[j] == list[if j < i then j else j - 1]
  {
    list[..i] + [a] + list[i..]
  }

  lemma WithoutSet(size: Sizes, list: seq<nat>, i: nat)
    requires (forall j :: InOrder(size, list, j)) && 1 <= i < |list|
    ensures FreeSet(Without(list, i)) == FreeSet(list) - {list[i]}
  {
    var r := Without(list, i);
    forall a
      ensures a in FreeSet(r) <==> a in FreeSet(list) && a != list[i]
    {
      if a in FreeSet(r) {
        var j :| 1 <= j < |r| && r[j] == a;
        var k := if j < i then j else j + 1;
        assert list[k] == a;
        if k < i { Ascending(size, list, k, i); } else { Ascending(size, list, i, k); }
      }
      if a in FreeSet(list) && a != list[i] {
        var k :| 1 <= k < |list| && list[k] == a;
        assert r[if k < i then k else k - 1] == a;
      }
    }
  }

  lemma WithSet(list: seq<nat>, i: nat, a: nat)
    requires 1 <= i <= |list|
    ensures FreeSet(With(list, i, a)) == FreeSet(list) + {a}
  {
    var r := With(list, i, a);
    forall b
      ensures b in FreeSet(r) <==> b in FreeSet(list) || b == a
    {
      if b in FreeSet(r) && b != a {
        var j :| 1 <= j < |r| && r[j] == b;
        assert list[if j < i then j else j - 1] == b;
      }
      if b in FreeSet(list) {
        var k :| 1 <= k < |list| && list[k] == b;
        assert r[if k < i then k else k + 1] == b;
      }
      assert r[i] == a;
    }
  }

  // ----- the circular links -------------------------------------------------

  function After(list: seq<nat>, i: int): nat
    requires 0 <= i < |list|
  {
    if i + 1 < |list| then list[i + 1] else list[0]
  }

  predicate LinkAt(ptr: Sizes, list: seq<nat>, i: int) {
    0 <= i < |list| ==> list[i] in ptr && ptr[list[i]] == After(list, i)
  }

  ghost predicate Circle(ptr: Sizes, list: seq<nat>) {
    forall i :: LinkAt(ptr, list, i)
  }

  // ----- the whole heap -----------------------------------------------------

  /** `base` comes first, is empty, and lies below the arena; live and free blocks
      tile the arena. */
  ghost predicate Heap(size: Sizes, list: seq<nat>, base: nat, live: set<nat>, arena: set<nat>, lo: int, hi: int) {
    && |list| >= 1 && list[0] == base && base in size && size[base] == 0
    && (forall u :: u in arena ==> base < u)
    && Ordered(size, list, lo, hi)
    && FreeSet(list) !! live
    && Tile(size, FreeSet(list) + live, arena)
  }

  /** A freed block goes on the list; it may touch its neighbours. */
  lemma PutBack(size: Sizes, list: seq<nat>, base: nat, live: set<nat>, arena: set<nat>, pos: nat, bp: nat)
    requires Heap(size, list, base, live, arena, 0, 0) && bp in live && pos < |list|
    requires list[pos] < bp && (pos + 1 < |list| ==> bp < list[pos + 1])
    ensures Heap(size, With(list, pos + 1, bp), base, live - {bp}, arena, pos, pos + 2)
  {
    var n := With(list, pos + 1, bp);
    WithSet(list, pos + 1, bp);
    assert FreeSet(n) + (live - {bp}) == FreeSet(list) + live;
    if pos >= 1 {
      assert list[pos] in FreeSet(list);
      assert Apart(size, list[pos], bp);
    }
    if pos + 1 < |list| {
      assert list[pos + 1] in FreeSet(list);
      assert Apart(size, list[pos + 1], bp);
    }
    forall j
      ensures InOrder(size, n, j) && (j < pos || pos + 2 <= j ==> Gap(size, n, j))
    {
      assert InOrder(size, list, if j < pos then j else j - 1) && Gap(size, list, if j < pos then j else j - 1);
    }
  }

  /** Entry i touches the next: they become one. */
  lemma MergeAt(size: Sizes, list: seq<nat>, base: nat, live: set<nat>, arena: set<nat>, lo: nat, i: nat)
    requires Heap(size, list, base, live, arena, lo, i + 1) && lo <= i && 1 <= i < |list| - 1 && End(size, list[i]) == list[i + 1]
    ensures list[i] in size && list[i + 1] in size
    ensures Heap(size[list[i] := size[list[i]] + size[list[i + 1]]], Without(list, i + 1), base, live, arena, lo, i)
  {
    var a, b := list[i], list[i + 1];
    assert a in FreeSet(list) && b in FreeSet(list);
    var n, m := Without(list, i + 1), size[a := size[a] + size[b]];
    MergeTile(size, FreeSet(list) + live, arena, a, b);
    WithoutSet(size, list, i + 1);
    assert FreeSet(n) + live == FreeSet(list) + live - {b};
    Ascending(size, list, 0, i);
    forall j
      ensures InOrder(m, n, j) && (j < lo || i <= j ==> Gap(m, n, j))
    {
      assert InOrder(size, list, j) && InOrder(size, list, j + 1);
      assert (j < lo ==> Gap(size, list, j)) && (i <= j ==> Gap(size, list, j + 1));
      if 0 <= j < |n| && j != i { Elsewhere(size, list, i, if j < i then j else j + 1); }
    }
  }

  lemma Elsewhere(size: Sizes, list: seq<nat>, i: nat, j: nat)
    requires (forall k :: InOrder(size, list, k)) && i < |list| && j < |list| && i != j
    ensures list[i] != list[j]
  {
    if i < j { Ascending(size, list, i, j); } else { Ascending(size, list, j, i); }
  }

  /** A whole free block is taken. */
  lemma TakeWhole(size: Sizes, list: seq<nat>, base: nat, live: set<nat>, arena: set<nat>, i: nat)
    requires Heap(size, list, base, live, arena, 0, 0) && 1 <= i < |list|
    ensures list[i] !in live && Heap(size, Without(list, i), base, live + {list[i]}, arena, 0, 0)
  {
    var n := Without(list, i);
    assert list[i] in FreeSet(list);
    WithoutSet(size, list, i);
    assert FreeSet(n) + (live + {list[i]}) == FreeSet(list) + live;
    forall j
      ensures InOrder(size, n, j) && Gap(size, n, j)
    {
      assert InOrder(size, list, j) && InOrder(size, list, j + 1) && Gap(size, list, j) && Gap(size, list, j + 1);
    }
  }

  /** The tail of a free block is taken. */
  lemma TakeTail(size: Sizes, list: seq<nat>, base: nat, live: set<nat>, arena: set<nat>, i: nat, k: nat)
    requires Heap(size, list, base, live, arena, 0, 0) && 1 <= i < |list| && list[i] in size && 0 < k < size[list[i]]
    ensures var a := list[i];
            var t := a + size[a] - k;
            t !in live && t != base && Heap(size[a := size[a] - k][t := k], list, base, live + {t}, arena, 0, 0)
  {
    var a := list[i];
    var t := a + size[a] - k;
    assert a in FreeSet(list);
    SplitTile(size, FreeSet(list) + live, arena, a, k);
    assert FreeSet(list) + (live + {t}) == FreeSet(list) + live + {t};
    var m := size[a := size[a] - k][t := k];
    Ascending(size, list, 0, i);
    forall j
      ensures InOrder(m, list, j) && Gap(m, list, j)
    {
      assert InOrder(size, list, j) && Gap(size, list, j);
      if 0 <= j < |list| { assert j == 0 || list[j] in FreeSet(list); }
    }
  }

  /** New memory, as a live block. */
  lemma GrowHeap(size: Sizes, list: seq<nat>, base: nat, live: set<nat>, arena: set<nat>, t: nat, k: nat)
    requires Heap(size, list, base, live, arena, 0, 0) && 0 < k && base < t && forall u :: u in arena ==> u < t
    ensures t !in live && Heap(size[t := k], list, base, live + {t}, arena + Units(t, k), 0, 0)
  {
    GrowTile(size, FreeSet(list) + live, arena, t, k);
    assert FreeSet(list) + (live + {t}) == FreeSet(list) + live + {t};
    var m := size[t := k];
    forall j
      ensures InOrder(m, list, j) && Gap(m, list, j)
    {
      assert InOrder(size, list, j) && Gap(size, list, j);
      if 0 <= j < |list| { assert j == 0 || list[j] in FreeSet(list); }
    }
  }

  // ----- links --------------------------------------------------------------

  lemma CircleWith(ptr: Sizes, size: Sizes, list: seq<nat>, pos: nat, bp: nat)
    requires Circle(ptr, list) && (forall j :: InOrder(size, list, j)) && pos < |list| && bp !in list
    ensures list[pos] in ptr && Circle(ptr[bp := ptr[list[pos]]][list[pos] := bp], With(list, pos + 1, bp))
  {
    assert LinkAt(ptr, list, pos);
    var n, p := With(list, pos + 1, bp), ptr[bp := ptr[list[pos]]][list[pos] := bp];
    forall i
      ensures LinkAt(p, n, i)
    {
      var j := if i <= pos then i else i - 1;
      assert LinkAt(ptr, list, j);
      if 0 <= i < |n| && i != pos && i != pos + 1 { Elsewhere(size, list, pos, j); }
    }
  }

  lemma CircleWithout(ptr: Sizes, size: Sizes, list: seq<nat>, i: nat)
    requires Circle(ptr, list) && (forall j :: InOrder(size, list, j)) && 1 <= i < |list|
    ensures list[i] in ptr && Circle(ptr[list[i - 1] := ptr[list[i]]], Without(list, i))
  {
    assert LinkAt(ptr, list, i);
    var n, p := Without(list, i), ptr[list[i - 1] := ptr[list[i]]];
    forall h
      ensures LinkAt(p, n, h)
    {
      var j := if h < i then h else h + 1;
      assert LinkAt(ptr, list, j);
      if 0 <= h < |n| && h != i - 1 { Elsewhere(size, list, i - 1, j); }
    }
  }
}
