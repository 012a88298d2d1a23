/** How many frames the operations of vm.c take from the free list: the tables a
    directory has, the tables a range of pages needs, and what is left. */
module PageCounts {
  import opened PageSpec
  import opened PageViews

  /** Directory entry i is for one of the pages lo..a. */
  predicate Under(lo: nat, a: nat, i: int) {
    lo < a && lo / NENT <= i <= (a - 1) / NENT
  }

  /** How many of the tables for pages lo..a directory d does not have. */
  function Missing(v: Vm, d: int, lo: nat, a: nat): (c: nat)
    decreases a
  {
    if a <= lo then 0
    else Missing(v, d, lo, a - 1) + if Lacks(v, d, lo, a - 1) then 1 else 0
  }

  /** Page a needs a table that neither d has nor the pages from lo on needed. */
  predicate Lacks(v: Vm, d: int, lo: nat, a: nat) {
    TabAt(v, d, a / NENT) == -1 && !Under(lo, a, a / NENT)
  }

  lemma UnderNext(lo: nat, a: nat, i: int)
    requires lo <= a
    ensures Under(lo, a + 1, i) <==> Under(lo, a, i) || i == a / NENT
  {
    if lo < a {
      assert a / NENT == (a - 1) / NENT || a / NENT == (a - 1) / NENT + 1;
    }
  }

  lemma {:induction false} MissingMore(v: Vm, d: int, lo: nat, a: nat, b: nat)
    requires a <= b
    ensures Missing(v, d, lo, a) <= Missing(v, d, lo, b)
    decreases b
  {
    if a < b {
      MissingMore(v, d, lo, a, b - 1);
    }
  }

  // ----- the count as a set -------------------------------------------------

  /** The directory entries for pages lo..a that have no table. */
  ghost function MissingSet(v: Vm, d: int, lo: nat, a: nat): (r: set<int>)
    ensures forall i :: i in r <==> Under(lo, a, i) && TabAt(v, d, i) == -1
    decreases a
  {
    if a <= lo then {}
    else
      assert forall i :: Under(lo, a, i) <==> Under(lo, a - 1, i) || i == (a - 1) / NENT by {
        forall i
          ensures Under(lo, a, i) <==> Under(lo, a - 1, i) || i == (a - 1) / NENT
        {
          UnderNext(lo, a - 1, i);
        }
      }
      MissingSet(v, d, lo, a - 1) + if TabAt(v, d, (a - 1) / NENT) == -1 then {(a - 1) / NENT} else {}
  }

  /** Missing counts them. */
  lemma {:induction false} MissingIs(v: Vm, d: int, lo: nat, a: nat)
    ensures Missing(v, d, lo, a) == |MissingSet(v, d, lo, a)|
    decreases a
  {
    if a > lo {
      MissingIs(v, d, lo, a - 1);
      var i, m := (a - 1) / NENT, MissingSet(v, d, lo, a - 1);
      if Lacks(v, d, lo, a - 1) {
        assert i !in m && MissingSet(v, d, lo, a) == m + {i};
      } else {
        assert MissingSet(v, d, lo, a) == m;
      }
    }
  }

  // ----- what is taken ------------------------------------------------------

  function One(b: bool): nat {
    if b then 1 else 0
  }

  /** From v to n directory d has table i, made of a free frame if it did not have it;
      no other table changed. */
  ghost predicate OneTab(v: Vm, n: Vm, d: int, i: int) {
    && |n.free| + One(TabAt(v, d, i) == -1) == |v.free| && TabAt(n, d, i) != -1
    && forall k :: 0 <= k < NENT && k != i ==> TabAt(n, d, k) == TabAt(v, d, k)
  }

  /** Pages lo..a of d have tables, and c frames went into those that were missing. */
  ghost predicate Spent(v: Vm, n: Vm, d: int, lo: nat, a: nat, c: int) {
    && |n.free| + Missing(v, d, lo, a) + c == |v.free|
    && forall k :: 0 <= k < NENT ==> if Under(lo, a, k) then TabAt(n, d, k) != -1 else TabAt(n, d, k) == TabAt(v, d, k)
  }

  /** With a frame for each of the pages besides. */
  ghost predicate SpentTo(v: Vm, n: Vm, d: int, lo: nat, a: nat) {
    Spent(v, n, d, lo, a, a - lo)
  }

  lemma SpentNone(v: Vm, d: int, lo: nat)
    ensures Spent(v, v, d, lo, lo, 0)
  {
  }

  /** The table for page a, and j frames more. */
  lemma SpentNext(v: Vm, m: Vm, n: Vm, d: int, lo: nat, a: nat, c: int, j: int)
    requires lo <= a < NPAGES && Spent(v, m, d, lo, a, c) && |n.free| + One(TabAt(m, d, a / NENT) == -1) + j == |m.free|
    requires TabAt(n, d, a / NENT) != -1 && forall k :: 0 <= k < NENT && k != a / NENT ==> TabAt(n, d, k) == TabAt(m, d, k)
    ensures Spent(v, n, d, lo, a + 1, c + j)
  {
    var i := a / NENT;
    assert 0 <= i < NENT;
    assert Lacks(v, d, lo, a) <==> TabAt(m, d, i) == -1;
    assert Missing(v, d, lo, a + 1) == Missing(v, d, lo, a) + One(Lacks(v, d, lo, a));
    forall k | 0 <= k < NENT
      ensures if Under(lo, a + 1, k) then TabAt(n, d, k) != -1 else TabAt(n, d, k) == TabAt(v, d, k)
    {
      UnderNext(lo, a, k);
    }
  }

  /** mappages has come to page a = first + k, with frame f = pa + k. */
  ghost predicate MapAt(v: Vm, n: Vm, d: int, first: nat, k: nat, pa: nat, perm: nat, a: nat, f: nat) {
    && a == first + k && f == pa + k && Mapping(v, n, d, first, k, pa, perm) && AllAbsent(v, d, first, a)
    && Spent(v, n, d, first, a, 0)
  }

  lemma MapAtNext(v: Vm, m: Vm, n: Vm, d: int, first: nat, k: nat, pa: nat, perm: nat, a: nat, f: nat)
    requires MapAt(v, m, d, first, k, pa, perm, a, f) && PteOf(v, d, a) == Absent && a < NPAGES
    requires Grows(m, n, d) && OnePage(m, n, d, a, Pte(f, perm)) && OneTab(m, n, d, a / NENT)
    requires n.held == m.held - if a < USERPAGES then {f} else {}
    ensures MapAt(v, n, d, first, k + 1, pa, perm, a + 1, f + 1)
  {
    AbsentNext(v, d, first, a);
    SpentNext(v, m, n, d, first, a, 0, 0);
    MappingNext(v, m, n, d, first, k, pa, perm, a, f);
  }

  /** One more page of allocuvm. */
  lemma AllocMore(v: Vm, m: Vm, n: Vm, d: int, lo: nat, a: nat, b: nat, f: nat)
    requires b == a + 1
    requires lo <= a < NPAGES && d in v.dirs && Growing(v, m, d, lo, a) && SpentTo(v, m, d, lo, a) && PteOf(v, d, a) == Absent
    requires Grows(m, n, d) && n.held == m.held && PageTab(m, n, d, a / NENT)
    requires OnePage(m, n, d, a, Pte(f, W + U)) && f in m.free && f !in n.free && f in n.mem && n.mem[f] == ZeroPage()
    ensures Growing(v, n, d, lo, b) && SpentTo(v, n, d, lo, b)
  {
    GrowsOn(v, m, n, d);
    GrownNext(v, m, n, d, lo, a, f);
    AbsentNext(v, d, lo, a);
    SpentNext(v, m, n, d, lo, a, a - lo, 1);
  }

  /** OneTab, and a frame for the page. */
  ghost predicate PageTab(v: Vm, n: Vm, d: int, i: int) {
    && |n.free| + One(TabAt(v, d, i) == -1) + 1 == |v.free| && TabAt(n, d, i) != -1
    && forall k :: 0 <= k < NENT && k != i ==> TabAt(n, d, k) == TabAt(v, d, k)
  }

  lemma TabOfPage(v: Vm, m: Vm, n: Vm, d: int, i: int)
    requires |m.free| + 1 == |v.free| && d in v.dirs && SameTabs(v, m) && 0 <= i < NENT && OneTab(m, n, d, i)
    ensures PageTab(v, n, d, i)
  {
  }

  lemma SameTab(v: Vm, m: Vm, n: Vm, d: int, i: int)
    requires OneTab(v, m, d, i) && n.free == m.free && d in m.dirs && SameTabs(m, n) && 0 <= i < NENT
    ensures OneTab(v, n, d, i)
  {
  }

  /** The frames that mapping new user pages lo..hi of d takes. */
  function Need(v: Vm, d: int, lo: nat, hi: nat): int {
    hi - lo + Missing(v, d, lo, hi)
  }

  /** One page more needs a frame, and a table if none is there by then. */
  lemma NeedNext(v: Vm, n: Vm, d: int, lo: nat, a: nat)
    requires lo <= a < NPAGES && SpentTo(v, n, d, lo, a)
    ensures Need(v, d, lo, a + 1) == Need(v, d, lo, a) + if TabAt(n, d, a / NENT) == -1 then 2 else 1
  {
    var i := a / NENT;
    assert 0 <= i < NENT;
    assert Lacks(v, d, lo, a) <==> TabAt(n, d, i) == -1;
    assert Missing(v, d, lo, a + 1) == Missing(v, d, lo, a) + One(Lacks(v, d, lo, a));
  }

  lemma NeedMore(v: Vm, d: int, lo: nat, a: nat, b: nat)
    requires a <= b
    ensures Need(v, d, lo, a) <= Need(v, d, lo, b)
  {
    MissingMore(v, d, lo, a, b);
  }

  // ----- allocuvm -----------------------------------------------------------

  /** The first mapped page among lo..hi, or hi. */
  ghost function FirstMapped(v: Vm, d: int, lo: nat, hi: nat): (a: nat)
    requires lo <= hi
    ensures lo <= a <= hi && AllAbsent(v, d, lo, a) && (a < hi ==> PteOf(v, d, a).Pte?)
    decreases hi - lo
  {
    if lo == hi || PteOf(v, d, lo).Pte? then lo else FirstMapped(v, d, lo + 1, hi)
  }

  /** How allocuvm ends: it is done exactly when none of the pages is mapped and the
      frames for all of them are there; it panics exactly when the frames last until
      the first page that is mapped, with one to spare. */
  ghost predicate AllocEnds(v: Vm, d: int, lo: nat, hi: nat, how: Outcome)
    requires lo <= hi
  {
    var a := FirstMapped(v, d, lo, hi);
    && (how.Done? <==> a == hi && |v.free| >= Need(v, d, lo, hi))
    && (how.Panics? <==> a < hi && |v.free| > Need(v, d, lo, a))
  }

  /** The frames do not last for page a. */
  ghost predicate Short(v: Vm, d: int, lo: nat, a: nat) {
    if PteOf(v, d, a).Pte? then |v.free| <= Need(v, d, lo, a) else |v.free| < Need(v, d, lo, a + 1)
  }

  lemma ShortAt(v: Vm, m: Vm, d: int, lo: nat, a: nat)
    requires lo <= a < NPAGES && SpentTo(v, m, d, lo, a)
    requires m.free == [] || (|m.free| == 1 && TabAt(m, d, a / NENT) == -1 && PteOf(v, d, a) == Absent)
    ensures Short(v, d, lo, a)
  {
    NeedNext(v, m, d, lo, a);
  }

  lemma AllocStops(v: Vm, d: int, lo: nat, hi: nat, a: nat, how: Outcome)
    requires lo <= a < hi && AllAbsent(v, d, lo, a) && !how.Done?
    requires how.NoMemory? ==> Short(v, d, lo, a)
    requires how.Panics? ==> PteOf(v, d, a).Pte? && |v.free| > Need(v, d, lo, a)
    ensures AllocEnds(v, d, lo, hi, how)
  {
    var stop := FirstMapped(v, d, lo, hi);
    FirstAt(v, d, lo, hi, a);
    NeedMore(v, d, lo, a, hi);
    NeedMore(v, d, lo, a + 1, hi);
    if a < stop {
      NeedMore(v, d, lo, a + 1, stop);
    }
  }

  lemma FirstAt(v: Vm, d: int, lo: nat, hi: nat, a: nat)
    requires lo <= a < hi && AllAbsent(v, d, lo, a)
    ensures var stop := FirstMapped(v, d, lo, hi); if PteOf(v, d, a).Pte? then stop == a else stop > a
  {
    var stop := FirstMapped(v, d, lo, hi);
    assert stop < a ==> PteOf(v, d, stop) == Absent;
    assert a < stop ==> PteOf(v, d, a) == Absent;
  }

  lemma AllocDone(v: Vm, n: Vm, d: int, lo: nat, hi: nat)
    requires lo <= hi && AllAbsent(v, d, lo, hi) && SpentTo(v, n, d, lo, hi)
    ensures AllocEnds(v, d, lo, hi, Done)
  {
    var stop := FirstMapped(v, d, lo, hi);
    assert stop < hi ==> PteOf(v, d, stop) == Absent;
  }

  /** What allocuvm does from oldsz to newsz.  Done: every new page has a zeroed frame
      of its own that was free.  NoMemory: the pages between the sizes are all gone. */
  ghost predicate Alloced(v: Vm, n: Vm, d: int, oldsz: nat, newsz: nat, how: Outcome, r: nat) {
    if newsz >= KERNBASE then how.NoMemory? && r == 0 && n == v
    else if newsz < oldsz then how.Done? && r == oldsz && n == v
    else
      var lo, hi := Up(oldsz), Up(newsz);
      && lo <= hi && AllocEnds(v, d, lo, hi, how)
      && (how.Done? ==> r == newsz && Growing(v, n, d, lo, hi) && SpentTo(v, n, d, lo, hi))
      && (how.NoMemory? ==> r == 0 && Emptied(v, n, d, lo, hi))
      && (how.Panics? ==> Inv(n))
  }

  // ----- setupkvm and copyuvm -----------------------------------------------

  const KFRAMES: nat := 65      // a directory and the tables of the kernel's mappings

  /** The tables of directory d: below 512 the first t, then 512..x and 1016..y. */
  ghost predicate HasTabs(n: Vm, d: int, t: nat, x: nat, y: nat) {
    && t <= 512 <= x <= 568 && 1016 <= y <= 1024
    && forall i :: 0 <= i < NENT ==> (TabAt(n, d, i) != -1 <==> i < t || 512 <= i < x || 1016 <= i < y)
  }

  /** Directory d of n is made of free frames of v: itself, those tables, and c more. */
  ghost predicate MadeOf(v: Vm, n: Vm, d: int, t: nat, x: nat, y: nat, c: nat) {
    HasTabs(n, d, t, x, y) && |n.free| + 1 + t + (x - 512) + (y - 1016) + c == |v.free|
  }

  function Max(a: int, b: int): int {
    if a < b then b else a
  }

  /** In a stretch whose tables are there up to x, what is missing is from x on. */
  lemma {:induction false} MissingFrom(m: Vm, d: int, lo: nat, a: nat, x: nat)
    requires lo <= a && lo / NENT <= x && forall i :: lo / NENT <= i && i * NENT < a && i < x ==> TabAt(m, d, i) != -1
    requires forall i :: x <= i && i * NENT < a ==> TabAt(m, d, i) == -1
    ensures Missing(m, d, lo, a) == if lo < a then Max(0, (a - 1) / NENT + 1 - x) else 0
    decreases a
  {
    if lo < a {
      var b := a - 1;
      MissingFrom(m, d, lo, b, x);
      var i := b / NENT;
      assert i * NENT <= b < i * NENT + NENT;
      if lo < b {
        assert (b - 1) / NENT == i || (b - 1) / NENT == i - 1;
      }
      assert Missing(m, d, lo, a) == Missing(m, d, lo, b) + One(Lacks(m, d, lo, b));
    }
  }

  /** A row of kmap: lo is under a table that is there or is the next one. */
  lemma RowTabs(v: Vm, m: Vm, n: Vm, d: int, lo: nat, a: nat, x: nat, y: nat)
    requires MadeOf(v, m, d, 0, x, y, 0) && Spent(m, n, d, lo, a, 0) && lo <= a
    requires (512 <= lo / NENT <= x && lo < 568 * NENT && a <= 568 * NENT) || (lo == 1016 * NENT && a <= NPAGES && y == 1016)
    ensures MadeOf(v, n, d, 0, if lo < 568 * NENT then Reach(lo, a, x) else x, if lo < 568 * NENT then y else Reach(lo, a, y), 0)
  {
    if lo < 568 * NENT {
      RowMissing(m, d, lo, a, x, 0, x, y);
      LowRow(m, n, d, lo, a, x, y);
    } else {
      RowMissing(m, d, lo, a, y, 0, x, y);
      HighRow(m, n, d, lo, a, x, y);
    }
  }

  /** How far the tables go after pages lo..a. */
  function Reach(lo: nat, a: nat, x: nat): (r: nat)
    ensures r >= x
  {
    if lo < a && (a - 1) / NENT + 1 > x then (a - 1) / NENT + 1 else x
  }

  lemma RowMissing(m: Vm, d: int, lo: nat, a: nat, z: nat, t: nat, x: nat, y: nat)
    requires HasTabs(m, d, t, x, y) && lo <= a && t == 0
    requires (z == x && 512 <= lo / NENT <= x && a <= 568 * NENT) || (z == y == 1016 && lo == 1016 * NENT && a <= NPAGES)
    ensures Missing(m, d, lo, a) == Reach(lo, a, z) - z
  {
    forall i | lo / NENT <= i && i * NENT < a
      ensures TabAt(m, d, i) != -1 <==> i < z
    {
      assert 0 <= i < NENT;
    }
    MissingFrom(m, d, lo, a, z);
  }

  lemma LowRow(m: Vm, n: Vm, d: int, lo: nat, a: nat, x: nat, y: nat)
    requires HasTabs(m, d, 0, x, y) && lo <= a && 512 <= lo / NENT <= x && a <= 568 * NENT
    requires forall k :: 0 <= k < NENT ==> if Under(lo, a, k) then TabAt(n, d, k) != -1 else TabAt(n, d, k) == TabAt(m, d, k)
    ensures HasTabs(n, d, 0, Reach(lo, a, x), y)
  {
    if lo < a {
      assert (a - 1) / NENT < 568;
    }
  }

  lemma HighRow(m: Vm, n: Vm, d: int, lo: nat, a: nat, x: nat, y: nat)
    requires HasTabs(m, d, 0, x, y) && lo <= a <= NPAGES && lo == 1016 * NENT && y == 1016
    requires forall k :: 0 <= k < NENT ==> if Under(lo, a, k) then TabAt(n, d, k) != -1 else TabAt(n, d, k) == TabAt(m, d, k)
    ensures HasTabs(n, d, 0, x, Reach(lo, a, y))
  {
    if lo < a {
      assert (a - 1) / NENT < 1024;
    }
  }

  /** How far the low and the high stretch of tables go after k rows of kmap. */
  function LowTabs(datap: nat, k: nat): nat {
    if k == 0 then 512 else if k == 1 then 513 else if k == 2 && datap > 0 then (datap - 1) / NENT + 1 else 568
  }

  function HighTabs(k: nat): nat {
    if k <= 3 then 1016 else 1024
  }

  /** setupkvm has mapped k rows of kmap. */
  ghost predicate RowsMade(v: Vm, n: Vm, d: int, datap: nat, k: nat) {
    MadeOf(v, n, d, 0, LowTabs(datap, k), HighTabs(k), 0)
  }

  lemma NoRows(v: Vm, n: Vm, d: int, datap: nat)
    requires d in n.mem && n.mem[d] == EmptyTable() && |n.free| + 1 == |v.free|
    ensures RowsMade(v, n, d, datap, 0)
  {
    assert forall i :: 0 <= i < NENT ==> TabAt(n, d, i) == -1;
  }

  /** The pages lo..hi of row k. */
  predicate RowIs(datap: nat, k: nat, lo: nat, hi: nat) {
    if k == 0 then lo == KERNP && hi == KERNLINKP
    else if k == 1 then lo == KERNLINKP && hi == datap
    else if k == 2 then lo == datap && hi == PHYSTOPP
    else lo == DEVP && hi == NPAGES
  }

  lemma KmapRow(datap: nat, k: nat, hi: nat)
    requires KERNLINKP < datap < PHYSTOPP && k < 4
    requires var e := Kmap(datap)[k]; hi == e.virt + (e.end - e.start) % NPAGES
    ensures RowIs(datap, k, Kmap(datap)[k].virt, hi)
  {
    var e := Kmap(datap)[k];
    assert k == 3 ==> (e.end - e.start) % NPAGES == NPAGES - DEVP;
  }

  lemma RowMade(v: Vm, m: Vm, n: Vm, d: int, datap: nat, k: nat, lo: nat, hi: nat)
    requires KERNLINKP < datap < PHYSTOPP && k < 4 && RowsMade(v, m, d, datap, k)
    requires RowIs(datap, k, lo, hi) && Spent(m, n, d, lo, hi, 0)
    ensures RowsMade(v, n, d, datap, k + 1)
  {
    RowTabs(v, m, n, d, lo, hi, LowTabs(datap, k), HighTabs(k));
  }

  /** A row that breaks off for want of a table. */
  lemma RowShort(v: Vm, m: Vm, n: Vm, d: int, datap: nat, k: nat, lo: nat, hi: nat, a: nat)
    requires KERNLINKP < datap < PHYSTOPP && k < 4 && RowsMade(v, m, d, datap, k)
    requires RowIs(datap, k, lo, hi) && lo <= a < hi && Spent(m, n, d, lo, a, 0)
    requires n.free == [] && TabAt(n, d, a / NENT) == -1
    ensures |v.free| < KFRAMES
  {
    RowTabs(v, m, n, d, lo, a, LowTabs(datap, k), HighTabs(k));
    assert 0 <= a / NENT < NENT;
  }

  /** The frames that copying the first x user pages takes. */
  function CopyNeed(x: nat): nat {
    KFRAMES + x + Tables(x)
  }

  /** How many tables hold the first x pages. */
  function Tables(x: nat): nat {
    (x + NENT - 1) / NENT
  }

  /** copyuvm has copied a pages to c. */
  ghost predicate CopyMade(v: Vm, n: Vm, c: int, a: nat) {
    MadeOf(v, n, c, Tables(a), 568, 1024, a)
  }

  /** After the last row. */
  lemma AllRows(v: Vm, n: Vm, d: int, datap: nat, k: nat)
    requires k == 4 && RowsMade(v, n, d, datap, k)
    ensures CopyMade(v, n, d, 0) && |n.free| + KFRAMES == |v.free|
  {
    assert Tables(0) == 0;
  }

  lemma CopyLeft(v: Vm, n: Vm, c: int, a: nat)
    requires CopyMade(v, n, c, a)
    ensures |v.free| == |n.free| + CopyNeed(a)
  {
  }

  lemma TablesNext(a: nat)
    ensures Tables(a + 1) == Tables(a) + One(a / NENT >= Tables(a)) && a / NENT <= Tables(a)
  {
  }

  lemma CopyNext(v: Vm, n: Vm, c: int, a: nat)
    requires a < USERPAGES && CopyMade(v, n, c, a)
    ensures CopyNeed(a + 1) == CopyNeed(a) + if TabAt(n, c, a / NENT) == -1 then 2 else 1
  {
    TablesNext(a);
    assert 0 <= a / NENT < 512;
  }

  /** The frames do not last for page a. */
  lemma CopyShort(v: Vm, m: Vm, c: int, a: nat, next: nat)
    requires next == a + 1 && a < USERPAGES && CopyMade(v, m, c, a)
    requires m.free == [] || (|m.free| == 1 && TabAt(m, c, a / NENT) == -1)
    ensures |v.free| < CopyNeed(next)
  {
    CopyNext(v, m, c, a);
    CopyLeft(v, m, c, a);
  }

  /** One page and its table. */
  lemma CopyMadeNext(v: Vm, m: Vm, w: Vm, n: Vm, c: int, a: nat, next: nat)
    requires next == a + 1 && a < USERPAGES && CopyMade(v, m, c, a)
    requires |w.free| + 1 == |m.free| && c in m.dirs && SameTabs(m, w) && OneTab(w, n, c, a / NENT)
    ensures CopyMade(v, n, c, next)
  {
    TabOfPage(m, w, n, c, a / NENT);
    TablesNext(a);
    assert 0 <= a / NENT < 512;
  }

  lemma CopyMore(a: nat, b: nat)
    requires a <= b
    ensures CopyNeed(a) <= CopyNeed(b)
  {
  }

  /** The first user page below hi that d lacks, or hi. */
  ghost function FirstAbsent(v: Vm, d: int, lo: nat, hi: nat): (a: nat)
    requires lo <= hi
    ensures lo <= a <= hi && (forall x :: lo <= x < a ==> PteOf(v, d, x).Pte?) && (a < hi ==> PteOf(v, d, a) == Absent)
    decreases hi - lo
  {
    if lo == hi || PteOf(v, d, lo) == Absent then lo else FirstAbsent(v, d, lo + 1, hi)
  }

  /** How copyuvm ends: it is done exactly when none of the pages is missing and there
      are frames for all; it panics exactly when the frames last until the first page
      that is missing. */
  ghost predicate CopyEnds(v: Vm, d: int, hi: nat, how: Outcome) {
    var a := FirstAbsent(v, d, 0, hi);
    && (how.Done? <==> a == hi && |v.free| >= CopyNeed(hi))
    && (how.Panics? <==> a < hi && |v.free| >= CopyNeed(a))
  }

  lemma CopyStops(v: Vm, n: Vm, d: int, c: int, hi: nat, a: nat, how: Outcome)
    requires a < hi && Copied(v, n, d, c, a) && !how.Done?
    requires how.NoMemory? ==> PteOf(v, d, a).Pte? && |v.free| < CopyNeed(a + 1)
    requires how.Panics? ==> PteOf(v, d, a) == Absent && |v.free| >= CopyNeed(a)
    ensures CopyEnds(v, d, hi, how)
  {
    var stop := FirstAbsent(v, d, 0, hi);
    assert stop < a ==> CopyAt(v, n, d, c, stop);
    assert a < stop ==> PteOf(v, d, a).Pte?;
    CopyMore(a + 1, hi);
    if a < stop {
      CopyMore(a + 1, stop);
    }
  }

  /** Without frames for the directory itself it cannot even begin. */
  lemma CopyNone(v: Vm, d: int, hi: nat)
    requires |v.free| < KFRAMES
    ensures CopyEnds(v, d, hi, NoMemory)
  {
  }

  lemma CopyAll(v: Vm, n: Vm, d: int, c: int, hi: nat)
    requires Copied(v, n, d, c, hi) && CopyMade(v, n, c, hi)
    ensures CopyEnds(v, d, hi, Done)
  {
    var stop := FirstAbsent(v, d, 0, hi);
    assert stop < hi ==> CopyAt(v, n, d, c, stop);
    CopyLeft(v, n, c, hi);
  }
}
