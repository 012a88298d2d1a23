/** User pages, kernel mappings and whole directories as views of those values, and
    how the operations of vm.c change them. */
module PageViews {
  import opened PageSpec
  import opened PageSteps

  const PGSIZE: nat := 4096
  const NPAGES: nat := NENT * NENT
  const USERPAGES: nat := NUSER * NENT
  const KERNBASE: nat := 0x8000_0000
  const UINT: nat := 0x1_0000_0000
  const W: nat := 2
  const U: nat := 4

  /** How an operation ends; Panics is where the machine stops. */
  datatype Outcome = Done | NoMemory | Panics

  /** The entry for virtual page a. */
  function PteOf(v: Vm, d: int, a: int): Pte {
    PteAt(v, d, a / NENT, a % NENT)
  }

  /** PGROUNDUP, as a page number. */
  function Up(sz: nat): nat {
    (sz + PGSIZE - 1) / PGSIZE
  }

  /** The pages an address space gets when it grows from oldsz to newsz. */
  predicate PagesOf(oldsz: nat, newsz: nat, lo: nat, hi: nat) {
    oldsz <= newsz < KERNBASE && lo == Up(oldsz) && hi == Up(newsz)
  }

  lemma Rounded(oldsz: nat, newsz: nat)
    requires oldsz <= newsz < KERNBASE
    ensures Up(oldsz) <= Up(newsz) <= USERPAGES
  {
  }

  function Min(a: nat, b: nat): nat {
    if a < b then a else b
  }

  function ZeroPage(): Frame { Data(seq(PGSIZE, _ => 0)) }
  function JunkPage(): Frame { Data(seq(PGSIZE, _ => 1)) }

  function EmptyTable(): (t: Frame)
    ensures t.Table? && |t.ptes| == NENT && forall x :: 0 <= x < NENT ==> t.ptes[x] == Absent
  {
    Table(seq(NENT, _ => Absent))
  }

  /** Tables of d may be new; all other tables are as they were. */
  ghost predicate TabsGrow(v: Vm, n: Vm, d: int) {
    n.dirs == v.dirs && forall e, k :: e in v.dirs && 0 <= k < NENT ==> TabAt(n, e, k) == TabAt(v, e, k) || (e == d && TabAt(v, e, k) == -1)
  }

  ghost predicate SameTabs(v: Vm, n: Vm) {
    n.dirs == v.dirs && forall e, k :: e in v.dirs && 0 <= k < NENT ==> TabAt(n, e, k) == TabAt(v, e, k)
  }

  /** Data in frames that were and are in use is untouched. */
  ghost predicate DataKept(v: Vm, n: Vm) {
    forall f :: IsData(v, f) && f !in v.free && f !in n.free ==> f in n.mem && n.mem[f] == v.mem[f]
  }

  /** What allocations for directory d may do besides. */
  ghost predicate Grows(v: Vm, n: Vm, d: int) {
    Inv(n) && n.mem.Keys == v.mem.Keys && FreeTail(v.free, n.free) && DataKept(v, n) && TabsGrow(v, n, d)
  }

  /** Page a of directory d has entry p; every other page of every directory has the
      entry it had. */
  ghost predicate OnePage(v: Vm, n: Vm, d: int, a: int, p: Pte) {
    n.dirs == v.dirs && forall e, b :: e in v.dirs && 0 <= b < NPAGES ==> PteOf(n, e, b) == if e == d && b == a then p else PteOf(v, e, b)
  }

  ghost predicate SamePages(v: Vm, n: Vm) {
    n.dirs == v.dirs && forall e, b :: e in v.dirs && 0 <= b < NPAGES ==> PteOf(n, e, b) == PteOf(v, e, b)
  }

  lemma OnePtePage(v: Vm, n: Vm, d: int, a: nat, p: Pte)
    requires OnePte(v, n, d, a / NENT, a % NENT, p) && a < NPAGES
    ensures OnePage(v, n, d, a, p) && SameTabs(v, n)
  {
    forall e, b | e in v.dirs && 0 <= b < NPAGES
      ensures PteOf(n, e, b) == if e == d && b == a then p else PteOf(v, e, b)
    {
      assert b / NENT == a / NENT && b % NENT == a % NENT ==> b == a;
    }
  }

  lemma SamePagesOn(v: Vm, m: Vm, n: Vm)
    requires SamePages(v, m) && SamePages(m, n)
    ensures SamePages(v, n)
  {
    forall e, b | e in v.dirs && 0 <= b < NPAGES
      ensures PteOf(n, e, b) == PteOf(v, e, b)
    {
      assert PteOf(m, e, b) == PteOf(v, e, b);
    }
  }

  lemma SameDirPages(v: Vm, n: Vm)
    requires n.dirs == v.dirs && forall e :: e in v.dirs ==> SameDir(v, n, e)
    ensures SamePages(v, n) && SameTabs(v, n)
  {
    forall e, b | e in v.dirs && 0 <= b < NPAGES
      ensures PteOf(n, e, b) == PteOf(v, e, b)
    {
      assert SameDir(v, n, e);
    }
    assert forall e, k :: e in v.dirs && 0 <= k < NENT ==> SameDir(v, n, e) && TabAt(n, e, k) == TabAt(v, e, k);
  }

  /** Frees and nothing else: tables, held frames and other data stay. */
  ghost predicate Shrinks(v: Vm, n: Vm) {
    && Inv(n) && n.mem.Keys == v.mem.Keys && n.held == v.held && n.dirs == v.dirs && DataKept(v, n)
    && (forall e, k :: e in v.dirs && 0 <= k < NENT ==> TabAt(n, e, k) == TabAt(v, e, k))
    && (forall f :: f in v.free ==> f in n.free)
  }

  /** Pages lo..hi of d are absent; every other entry is as it was. */
  ghost predicate Cleared(v: Vm, n: Vm, d: int, lo: int, hi: int) {
    n.dirs == v.dirs && forall e, b :: e in v.dirs && 0 <= b < NPAGES ==> PteOf(n, e, b) == if e == d && lo <= b < hi then Absent else PteOf(v, e, b)
  }

  /** What freeing the frame f of user page a comes to. */
  lemma PageFreeing(v: Vm, d: nat, a: nat, t: nat, f: nat)
    requires Inv(v) && d in v.dirs && a < USERPAGES && TabAt(v, d, a / NENT) == t && IsTable(v, t)
    requires PteOf(v, d, a).Pte? && PteOf(v, d, a).frame == f
    ensures f != t && f in v.mem && f !in v.held
    ensures var n := Vm([f] + v.free, v.mem[f := JunkPage()][t := Table(v.mem[t].ptes[a % NENT := Absent])], v.dirs, v.held);
            Shrinks(v, n) && OnePage(v, n, d, a, Absent)
  {
    var m := SetEnt(v, t, a % NENT, Absent).(held := v.held + {f});
    assert Has(v, d, Page(a / NENT, a % NENT), f) && Has(v, d, Tab(a / NENT), t);
    PageUnmapped(v, m, d, a, t, f);
    HeldFreed(m, f);
    var n := Vm([f] + v.free, v.mem[f := JunkPage()][t := Table(v.mem[t].ptes[a % NENT := Absent])], v.dirs, v.held);
    assert n == Vm([f] + m.free, m.mem[f := JunkPage()], m.dirs, m.held - {f});
    PageFreed(v, m, n, d, a, f);
  }

  lemma PageUnmapped(v: Vm, m: Vm, d: nat, a: nat, t: nat, f: nat)
    requires Inv(v) && d in v.dirs && a < USERPAGES && TabAt(v, d, a / NENT) == t && IsTable(v, t)
    requires PteOf(v, d, a).Pte? && PteOf(v, d, a).frame == f && m == SetEnt(v, t, a % NENT, Absent).(held := v.held + {f})
    ensures Inv(m) && OnePage(v, m, d, a, Absent) && SameTabs(v, m)
  {
    UnmapUser(v, m, d, a / NENT, a % NENT);
    OnePtePage(v, m, d, a, Absent);
  }

  lemma HeldFreed(m: Vm, f: nat)
    requires Inv(m) && f in m.held
    ensures var n := Vm([f] + m.free, m.mem[f := JunkPage()], m.dirs, m.held - {f});
            Inv(n) && SamePages(m, n) && SameTabs(m, n)
  {
    FreeInv(m, f, JunkPage());
    SameDirPages(m, Vm([f] + m.free, m.mem[f := JunkPage()], m.dirs, m.held - {f}));
  }

  lemma PageFreed(v: Vm, m: Vm, n: Vm, d: int, a: int, f: nat)
    requires OnePage(v, m, d, a, Absent) && SamePages(m, n) && Inv(n) && n.mem.Keys == v.mem.Keys && n.held == v.held && n.dirs == v.dirs
    requires n.free == [f] + v.free && SameTabs(v, m) && SameTabs(m, n)
    requires forall g :: IsData(v, g) && g != f ==> g in n.mem && n.mem[g] == v.mem[g]
    ensures Shrinks(v, n) && OnePage(v, n, d, a, Absent)
  {
    assert f in n.free;
    forall e, b | e in v.dirs && 0 <= b < NPAGES
      ensures PteOf(n, e, b) == if e == d && b == a then Absent else PteOf(v, e, b)
    {
      assert PteOf(n, e, b) == PteOf(m, e, b);
    }
  }

  /** One more page cleared. */
  lemma ClearNext(v: Vm, m: Vm, n: Vm, d: int, lo: nat, a: nat, next: nat)
    requires next == a + 1 && lo <= a && Shrinks(v, m) && Cleared(v, m, d, lo, a)
    requires (Shrinks(m, n) && OnePage(m, n, d, a, Absent)) || (n == m && PteOf(m, d, a) == Absent)
    ensures Shrinks(v, n) && Cleared(v, n, d, lo, next)
  {
    forall e, b | e in v.dirs && 0 <= b < NPAGES
      ensures PteOf(n, e, b) == if e == d && lo <= b < next then Absent else PteOf(v, e, b)
    {
      assert PteOf(m, e, b) == if e == d && lo <= b < a then Absent else PteOf(v, e, b);
      assert n != m ==> PteOf(n, e, b) == if e == d && b == a then Absent else PteOf(m, e, b);
    }
  }

  lemma PageBelow(a: nat, oldsz: nat)
    requires oldsz <= KERNBASE && a * PGSIZE < oldsz
    ensures a < USERPAGES && a < Up(oldsz) && a < (a / NENT + 1) * NENT
  {
  }

  /** A missing table: every page under it is absent. */
  lemma SkipTable(v: Vm, m: Vm, d: int, lo: nat, a: nat, next: nat)
    requires a <= next <= (a / NENT + 1) * NENT && d in v.dirs && lo <= a && Cleared(v, m, d, lo, a) && TabAt(m, d, a / NENT) == -1
    ensures Cleared(v, m, d, lo, next)
  {
    forall e, b | e in v.dirs && 0 <= b < NPAGES
      ensures PteOf(m, e, b) == if e == d && lo <= b < next then Absent else PteOf(v, e, b)
    {
      assert PteOf(m, e, b) == if e == d && lo <= b < a then Absent else PteOf(v, e, b);
      if e == d && a <= b < next {
        assert b / NENT == a / NENT;
      }
    }
  }

  /** An entry for a frame that was free in v and is zeroed in n. */
  ghost predicate NewPage(v: Vm, n: Vm, p: Pte) {
    p.Pte? && p.flags == W + U && p.frame in v.free && p.frame !in n.free && p.frame in n.mem && n.mem[p.frame] == ZeroPage()
  }

  /** Pages lo..hi of d are new; every other entry is as it was. */
  ghost predicate Grown(v: Vm, n: Vm, d: int, lo: int, hi: int) {
    && n.dirs == v.dirs
    && (forall e, b :: e in v.dirs && 0 <= b < NPAGES && !(e == d && lo <= b < hi) ==> PteOf(n, e, b) == PteOf(v, e, b))
    && (forall b :: lo <= b < hi ==> NewPage(v, n, PteOf(n, d, b)))
  }

  /** All mappings and data of v are there in n; d may have new tables. */
  ghost predicate Restored(v: Vm, n: Vm, d: int) {
    Inv(n) && SamePages(v, n) && TabsGrow(v, n, d) && n.held == v.held && DataKept(v, n) && n.mem.Keys == v.mem.Keys
  }

  /** Pages lo..hi of d are gone; all other mappings and data of v are there in n; d
      may have new tables. */
  ghost predicate Emptied(v: Vm, n: Vm, d: int, lo: int, hi: int) {
    Inv(n) && Cleared(v, n, d, lo, hi) && TabsGrow(v, n, d) && n.held == v.held && DataKept(v, n) && n.mem.Keys == v.mem.Keys
  }

  /** Nothing was lost by that exactly if none of the pages was mapped. */
  lemma RestoredIff(v: Vm, n: Vm, d: int, lo: nat, hi: nat)
    requires Emptied(v, n, d, lo, hi) && d in v.dirs && hi <= NPAGES
    ensures Restored(v, n, d) <==> AllAbsent(v, d, lo, hi)
  {
    if AllAbsent(v, d, lo, hi) {
      forall e, b | e in v.dirs && 0 <= b < NPAGES
        ensures PteOf(n, e, b) == PteOf(v, e, b)
      {
      }
    }
  }

  lemma RestoredSelf(v: Vm, d: int)
    requires Inv(v)
    ensures Restored(v, v, d) && Grows(v, v, d) && forall lo :: Grown(v, v, d, lo, lo)
  {
  }

  /** A failed allocuvm loses nothing but the tables it made. */
  lemma OnlyTablesLost(v: Vm, n: Vm, d: int, f: nat)
    requires Inv(v) && Inv(n) && Restored(v, n, d) && f in v.free
    ensures f in n.free || exists i :: 0 <= i < NENT && TabAt(v, d, i) == -1 && TabAt(n, d, i) == f
  {
    assert f in n.mem && f !in n.held;
    if f !in n.free {
      assert Owned(n, f);
      var e, t :| Has(n, e, t, f);
      RestoredSlot(v, n, d, e, t);
      assert !Has(v, e, t, f);
      assert t == Tab(t.i);
      assert TabAt(v, d, t.i) == -1 && TabAt(n, d, t.i) == f;
    }
  }

  lemma RestoredSlot(v: Vm, n: Vm, d: int, e: int, t: Slot)
    requires Restored(v, n, d) && e in v.dirs && IsSlot(t)
    ensures At(n, e, t) == At(v, e, t) || (e == d && t.Tab? && At(v, e, t) == -1)
  {
    match t
    case Self =>
    case Tab(k) => assert TabAt(n, e, k) == TabAt(v, e, k) || (e == d && TabAt(v, e, k) == -1);
    case Page(i, j) =>
      var b := i * NENT + j;
      assert b / NENT == i && b % NENT == j;
      assert PteOf(n, e, b) == PteOf(v, e, b);
  }

  lemma PageAllocated(v: Vm, m: Vm, n: Vm, d: int, a: int, f: nat)
    requires Inv(v) && v.free != [] && f == v.free[0] && SamePages(v, m) && SameTabs(v, m)
    requires m == v.(mem := v.mem[f := ZeroPage()], free := v.free[1..], held := v.held + {f})
    requires Grows(m, n, d) && (n == m || (OnePage(m, n, d, a, Pte(f, W + U)) && n.held == m.held - {f}))
    ensures Grows(v, n, d) && f !in n.free && f in n.mem && n.mem[f] == ZeroPage()
    ensures n == m ==> SamePages(v, n)
    ensures n != m ==> OnePage(v, n, d, a, Pte(f, W + U))
  {
    PageTaken(v, m, f);
    assert forall g :: g in n.free ==> g in m.free;
    assert IsData(m, f);
    KeptOn(v, m, n, d);
    if n != m { OnePageAfter(v, m, n, d, a, Pte(f, W + U)); }
  }

  lemma PageTaken(v: Vm, m: Vm, f: nat)
    requires Inv(v) && v.free != [] && f == v.free[0]
    requires m == v.(mem := v.mem[f := ZeroPage()], free := v.free[1..], held := v.held + {f})
    ensures f in v.free && FreeTail(v.free, m.free) && DataKept(v, m) && f !in m.free && m.mem.Keys == v.mem.Keys
  {
    assert f in v.free;
    TailApart(v.free);
  }

  lemma GrownNext(v: Vm, m: Vm, n: Vm, d: int, lo: nat, a: nat, f: nat)
    requires lo <= a < NPAGES && Grown(v, m, d, lo, a) && Grows(v, m, d) && Grows(m, n, d) && d in v.dirs
    requires OnePage(m, n, d, a, Pte(f, W + U)) && f in m.free && f !in n.free && f in n.mem && n.mem[f] == ZeroPage()
    ensures Grown(v, n, d, lo, a + 1)
  {
    assert forall g :: g in n.free ==> g in m.free;
    assert forall g :: g in m.free ==> g in v.free;
    forall e, b | e in v.dirs && 0 <= b < NPAGES && !(e == d && lo <= b < a + 1)
      ensures PteOf(n, e, b) == PteOf(v, e, b)
    {
      assert PteOf(m, e, b) == PteOf(v, e, b);
    }
    forall b | lo <= b < a + 1
      ensures NewPage(v, n, PteOf(n, d, b))
    {
      if b < a {
        assert NewPage(v, m, PteOf(m, d, b));
        assert PteOf(n, d, b) == PteOf(m, d, b);
        assert IsData(m, PteOf(m, d, b).frame);
      }
    }
  }

  /** The new pages are there, whatever else failed. */
  ghost predicate GrownBefore(v: Vm, n: Vm, d: int, lo: int, hi: int) {
    n.dirs == v.dirs && forall e, b :: e in v.dirs && 0 <= b < NPAGES && !(e == d && lo <= b < hi) ==> PteOf(n, e, b) == PteOf(v, e, b)
  }

  lemma StillGrown(v: Vm, m: Vm, k: Vm, d: int, lo: int, a: int)
    requires Grown(v, m, d, lo, a) && SamePages(m, k)
    ensures GrownBefore(v, k, d, lo, a)
  {
    forall e, b | e in v.dirs && 0 <= b < NPAGES && !(e == d && lo <= b < a)
      ensures PteOf(k, e, b) == PteOf(v, e, b)
    {
      assert PteOf(m, e, b) == PteOf(v, e, b);
    }
  }

  /** deallocuvm after a failure clears the new pages and those beyond. */
  lemma Undone(v: Vm, k: Vm, n: Vm, d: int, lo: nat, a: nat, hi: nat)
    requires Grows(v, k, d) && GrownBefore(v, k, d, lo, a) && a <= hi && Shrinks(k, n) && Cleared(k, n, d, lo, hi)
    ensures Inv(n) && Cleared(v, n, d, lo, hi) && TabsGrow(v, n, d) && DataKept(v, n) && n.held == k.held && n.mem.Keys == v.mem.Keys
  {
    assert forall g :: g in k.free ==> g in v.free;
    forall e, b | e in v.dirs && 0 <= b < NPAGES
      ensures PteOf(n, e, b) == if e == d && lo <= b < hi then Absent else PteOf(v, e, b)
    {
      assert PteOf(n, e, b) == if e == d && lo <= b < hi then Absent else PteOf(k, e, b);
    }
  }

  lemma KfreeLast(v: Vm, u: Vm, n: Vm, d: int, f: nat, lo: nat, hi: nat)
    requires Cleared(v, u, d, lo, hi) && TabsGrow(v, u, d) && DataKept(v, u) && u.held == v.held + {f} && f !in v.held && u.mem.Keys == v.mem.Keys && f in v.free && f in v.mem
    requires Inv(n) && SamePages(u, n) && SameTabs(u, n) && DataKept(u, n) && n == Vm([f] + u.free, u.mem[f := JunkPage()], u.dirs, u.held - {f})
    ensures Emptied(v, n, d, lo, hi)
  {
    assert f in n.free;
    assert forall g :: g in u.free ==> g in n.free;
    forall e, b | e in v.dirs && 0 <= b < NPAGES
      ensures PteOf(n, e, b) == if e == d && lo <= b < hi then Absent else PteOf(v, e, b)
    {
      assert PteOf(n, e, b) == PteOf(u, e, b);
    }
  }

  /** The frames named by entries i and up. */
  function Rest(ptes: seq<Pte>, i: nat): (r: set<nat>)
    ensures forall f :: f in r <==> exists k :: i <= k < |ptes| && ptes[k].Pte? && ptes[k].frame == f
  {
    set k | i <= k < |ptes| && ptes[k].Pte? :: ptes[k].frame
  }

  lemma RestNext(ptes: seq<Pte>, i: nat)
    requires i < |ptes| && forall x, y :: 0 <= x < y < |ptes| && ptes[x].Pte? && ptes[y].Pte? ==> ptes[x].frame != ptes[y].frame
    ensures Rest(ptes, i) == Rest(ptes, i + 1) + if ptes[i].Pte? then {ptes[i].frame} else {}
    ensures ptes[i].Pte? ==> ptes[i].frame !in Rest(ptes, i + 1) && ptes[i].frame in Rest(ptes, 0)
  {
  }

  /** Without user pages a directory has itself and its tables, all different. */
  lemma OwnsTables(m: Vm, d: nat, ptes: seq<Pte>)
    requires Inv(m) && d in m.dirs && IsTable(m, d) && ptes == m.mem[d].ptes && (forall a :: 0 <= a < USERPAGES ==> PteOf(m, d, a) == Absent)
    ensures forall f :: f in {d} + Rest(ptes, 0) <==> exists s :: Has(m, d, s, f)
    ensures d !in Rest(ptes, 0) && d !in m.held && Rest(ptes, 0) !! m.held
    ensures forall x, y :: 0 <= x < y < NENT && ptes[x].Pte? && ptes[y].Pte? ==> ptes[x].frame != ptes[y].frame
  {
    assert Has(m, d, Self, d);
    forall i, j | 0 <= i < NUSER && 0 <= j < NENT
      ensures PteAt(m, d, i, j) == Absent
    {
      var a := i * NENT + j;
      assert a / NENT == i && a % NENT == j;
      assert PteOf(m, d, a) == Absent;
    }
    forall k | 0 <= k < NENT && ptes[k].Pte?
      ensures Has(m, d, Tab(k), ptes[k].frame)
    {
    }
    forall f | exists s :: Has(m, d, s, f)
      ensures f in {d} + Rest(ptes, 0)
    {
      var s :| Has(m, d, s, f);
      match s
      case Self =>
      case Tab(k) => assert ptes[k].frame == f;
      case Page(i, j) =>
    }
    forall f | f in {d} + Rest(ptes, 0)
      ensures exists s :: Has(m, d, s, f)
    {
      if f != d {
        var k :| 0 <= k < |ptes| && ptes[k].Pte? && ptes[k].frame == f;
        assert Has(m, d, Tab(k), f);
      }
    }
  }

  /** Pages and tables of the directories of n are as in v. */
  ghost predicate Others(v: Vm, n: Vm) {
    && (forall e, k :: e in n.dirs && 0 <= k < NENT ==> TabAt(n, e, k) == TabAt(v, e, k))
    && (forall e, b :: e in n.dirs && 0 <= b < NPAGES ==> PteOf(n, e, b) == PteOf(v, e, b))
  }

  /** Frames only become free. */
  ghost predicate Frees(v: Vm, n: Vm) {
    n.dirs == v.dirs && n.mem.Keys == v.mem.Keys && DataKept(v, n) && Others(v, n) && forall f :: f in v.free ==> f in n.free
  }

  lemma FreesOn(w: Vm, u: Vm, n: Vm)
    requires Frees(w, u) && SamePages(u, n) && SameTabs(u, n) && DataKept(u, n) && n.mem.Keys == u.mem.Keys
    requires forall f :: f in u.free ==> f in n.free
    ensures Frees(w, n)
  {
    forall e, b | e in n.dirs && 0 <= b < NPAGES
      ensures PteOf(n, e, b) == PteOf(w, e, b)
    {
      assert PteOf(u, e, b) == PteOf(w, e, b);
    }
  }

  lemma DroppedAll(v: Vm, m: Vm, w: Vm, n: Vm, d: nat)
    requires Inv(v) && d in v.dirs && Shrinks(v, m) && Cleared(v, m, d, 0, USERPAGES)
    requires w == m.(dirs := m.dirs - {d}, held := w.held) && Frees(w, n) && Inv(n) && n.held == v.held
    ensures Dropped(v, n, d) && forall s, f :: Has(v, d, s, f) ==> f in n.free
  {
    forall e, b | e in n.dirs && 0 <= b < NPAGES
      ensures PteOf(n, e, b) == PteOf(v, e, b)
    {
      assert PteOf(w, e, b) == PteOf(m, e, b);
    }
    assert forall e, k :: TabAt(w, e, k) == TabAt(m, e, k);
    assert Others(v, n);
    FreedAll(v, n, d);
  }

  /** What d had, nobody else has, so it is free. */
  lemma FreedAll(v: Vm, n: Vm, d: nat)
    requires Inv(v) && Inv(n) && n.dirs == v.dirs - {d} && n.held == v.held && n.mem.Keys == v.mem.Keys && Others(v, n)
    ensures forall s, f :: Has(v, d, s, f) ==> f in n.free
  {
    forall s, f | Has(v, d, s, f)
      ensures f in n.free
    {
      assert f in n.mem && f !in n.held;
      if Owned(n, f) {
        var e, t :| Has(n, e, t, f);
        OthersSlot(v, n, e, t);
        assert Has(v, e, t, f);
      }
    }
  }

  lemma OthersSlot(v: Vm, n: Vm, e: int, t: Slot)
    requires Others(v, n) && e in n.dirs && IsSlot(t)
    ensures At(n, e, t) == At(v, e, t)
  {
    match t
    case Self =>
    case Tab(k) =>
    case Page(i, j) =>
      var b := i * NENT + j;
      assert b / NENT == i && b % NENT == j;
      assert PteOf(n, e, b) == PteOf(v, e, b);
  }

  /** Directory d is gone; everything else of v is there, and more is free. */
  ghost predicate Dropped(v: Vm, n: Vm, d: int) {
    && n.dirs == v.dirs - {d} && n.held == v.held && n.mem.Keys == v.mem.Keys && DataKept(v, n) && Others(v, n)
    && forall f :: f in v.free ==> f in n.free
  }

  // ----- the kernel's mappings ----------------------------------------------

  const KERNP: nat := KERNBASE / PGSIZE
  const KERNLINKP: nat := KERNP + 0x100
  const PHYSTOPP: nat := KERNP + 0xE000
  const DEVP: nat := 0xFE000

  /** A row of kmap, in pages. */
  datatype Row = Row(virt: nat, start: nat, end: nat, perm: nat)

  function Kmap(datap: nat): seq<Row>
    requires KERNLINKP < datap < PHYSTOPP
  {
    [Row(KERNP, 0, 0x100, W), Row(KERNLINKP, 0x100, datap - KERNP, 0), Row(datap, datap - KERNP, 0xE000, W), Row(DEVP, DEVP, 0, W)]
  }

  /** What the first k rows map page a to. */
  function KernelPte(datap: nat, a: int, k: int): Pte {
    if k > 0 && KERNP <= a < KERNLINKP then Pte(a - KERNP, W)
    else if k > 1 && KERNLINKP <= a < datap then Pte(a - KERNP, 0)
    else if k > 2 && KERNLINKP <= a && datap <= a < PHYSTOPP then Pte(a - KERNP, W)
    else if k > 3 && DEVP <= a < NPAGES then Pte(a, W)
    else Absent
  }

  ghost predicate KernelMapped(n: Vm, d: int, datap: nat, k: int) {
    forall a :: 0 <= a < NPAGES ==> PteOf(n, d, a) == KernelPte(datap, a, k)
  }

  lemma RangeEmpty(m: Vm, d: int, datap: nat, k: nat)
    requires KERNLINKP < datap < PHYSTOPP && k < 4 && KernelMapped(m, d, datap, k)
    ensures var e := Kmap(datap)[k];
            && USERPAGES <= e.virt && 0 < (e.end - e.start) % NPAGES && e.virt + (e.end - e.start) % NPAGES <= NPAGES
            && forall a :: e.virt <= a < e.virt + (e.end - e.start) % NPAGES ==> PteOf(m, d, a) == Absent
  {
    var e := Kmap(datap)[k];
    assert k == 3 ==> (e.end - e.start) % NPAGES == NPAGES - DEVP;
  }

  lemma RangeMapped(m: Vm, n: Vm, d: int, datap: nat, k: nat)
    requires KERNLINKP < datap < PHYSTOPP && k < 4 && KernelMapped(m, d, datap, k) && d in m.dirs
    requires var e := Kmap(datap)[k]; Ranged(m, n, d, e.virt, (e.end - e.start) % NPAGES, e.start, e.perm)
    ensures KernelMapped(n, d, datap, k + 1)
  {
    var e := Kmap(datap)[k];
    assert k == 3 ==> (e.end - e.start) % NPAGES == NPAGES - DEVP;
    forall a | 0 <= a < NPAGES
      ensures PteOf(n, d, a) == KernelPte(datap, a, k + 1)
    {
      assert PteOf(m, d, a) == KernelPte(datap, a, k);
    }
  }

  // ----- a directory more ---------------------------------------------------

  /** n has directory c besides those of v, made of frames that were free. */
  ghost predicate Beside(v: Vm, n: Vm, c: int) {
    && c !in v.dirs && n.dirs == v.dirs + {c} && n.held == v.held && n.mem.Keys == v.mem.Keys && FreeTail(v.free, n.free) && DataKept(v, n)
    && (forall e, k :: e in v.dirs && 0 <= k < NENT ==> TabAt(n, e, k) == TabAt(v, e, k))
    && (forall e, b :: e in v.dirs && 0 <= b < NPAGES ==> PteOf(n, e, b) == PteOf(v, e, b))
  }

  /** Same directories with the same entries and data, same held frames. */
  ghost predicate Unchanged(v: Vm, n: Vm) {
    n.dirs == v.dirs && n.held == v.held && n.mem.Keys == v.mem.Keys && DataKept(v, n) && Others(v, n)
  }

  lemma UnchangedSelf(v: Vm)
    ensures Unchanged(v, v)
  {
  }

  lemma Started(v: Vm, w: Vm, m: Vm, n: Vm, d: nat, datap: nat)
    requires Inv(v) && v.free != [] && d == v.free[0] && w == v.(free := v.free[1..], held := v.held + {d})
    requires m == w.(mem := w.mem[d := EmptyTable()]) && SamePages(w, m) && SameTabs(w, m)
    requires n == m.(dirs := m.dirs + {d}, held := m.held - {d}) && d in v.mem && d !in v.held
    ensures Beside(v, n, d) && KernelMapped(n, d, datap, 0)
  {
    assert d in v.free;
    assert Has(v, d, Self, d) <==> d in v.dirs;
    forall e, b | e in v.dirs && 0 <= b < NPAGES
      ensures PteOf(n, e, b) == PteOf(v, e, b)
    {
      assert PteOf(n, e, b) == PteOf(m, e, b) == PteOf(w, e, b) == PteOf(v, e, b);
    }
    forall e, k | e in v.dirs && 0 <= k < NENT
      ensures TabAt(n, e, k) == TabAt(v, e, k)
    {
      assert TabAt(n, e, k) == TabAt(m, e, k) == TabAt(w, e, k) == TabAt(v, e, k);
    }
    forall a | 0 <= a < NPAGES
      ensures PteOf(n, d, a) == Absent
    {
      assert Ent(n, d, a / NENT) == Absent;
    }
  }

  lemma BesideMapped(v: Vm, m: Vm, n: Vm, d: int, first: int, k: nat, pa: nat, perm: nat)
    requires Beside(v, m, d) && Grows(m, n, d) && Ranged(m, n, d, first, k, pa, perm) && n.held == m.held
    ensures Beside(v, n, d)
  {
    assert forall f :: f in m.free ==> f in v.free;
    forall e, b | e in v.dirs && 0 <= b < NPAGES
      ensures PteOf(n, e, b) == PteOf(v, e, b)
    {
      assert PteOf(n, e, b) == PteOf(m, e, b);
    }
  }

  lemma BesideDropped(v: Vm, m: Vm, n: Vm, d: int)
    requires Beside(v, m, d) && Dropped(m, n, d)
    ensures Unchanged(v, n)
  {
    assert n.dirs == v.dirs;
    assert forall f :: f in m.free ==> f in v.free;
    forall e, b | e in n.dirs && 0 <= b < NPAGES
      ensures PteOf(n, e, b) == PteOf(v, e, b)
    {
      assert PteOf(n, e, b) == PteOf(m, e, b);
    }
  }

  /** Then the same frames are free as before. */
  lemma FreeAgain(v: Vm, n: Vm)
    requires Inv(v) && Inv(n) && Unchanged(v, n)
    ensures forall f :: f in v.free <==> f in n.free
  {
    forall f
      ensures f in v.free <==> f in n.free
    {
      if f in v.mem && f !in v.held {
        SameOwned(v, n, f);
      }
    }
  }

  lemma SameOwned(v: Vm, n: Vm, f: nat)
    requires Unchanged(v, n)
    ensures Owned(v, f) <==> Owned(n, f)
  {
    if Owned(v, f) {
      var e, t :| Has(v, e, t, f);
      OthersSlot(v, n, e, t);
      assert Has(n, e, t, f);
    }
    if Owned(n, f) {
      var e, t :| Has(n, e, t, f);
      OthersSlot(v, n, e, t);
      assert Has(v, e, t, f);
    }
  }

  // ----- copying ------------------------------------------------------------

  /** Page a of c is a copy of page a of d: same flags, a frame that was free, with
      the same contents. */
  ghost predicate CopyAt(v: Vm, n: Vm, d: int, c: int, a: int) {
    var p, q := PteOf(v, d, a), PteOf(n, c, a);
    p.Pte? && q.Pte? && q.flags == p.flags && q.frame in v.free && q.frame !in n.free
    && p.frame in v.mem && IsData(n, q.frame) && n.mem[q.frame] == v.mem[p.frame]
  }

  /** The page to copy is there, its frame holds data, and the copy's place is free. */
  lemma CopySource(v: Vm, m: Vm, d: int, c: int, a: nat)
    requires Inv(v) && d in v.dirs && Inv(m) && Beside(v, m, c) && a < USERPAGES && PteOf(v, d, a).Pte? && Copied(v, m, d, c, a)
    ensures PteOf(m, d, a) == PteOf(v, d, a) && PteOf(m, c, a) == Absent && TabAt(m, d, a / NENT) != -1 && IsTable(m, TabAt(m, d, a / NENT))
    ensures var g := PteOf(v, d, a).frame; IsData(v, g) && g !in v.free && g in m.mem && m.mem[g] == v.mem[g] && g !in m.free
  {
    var g := PteOf(v, d, a).frame;
    assert PteOf(m, d, a) == PteOf(v, d, a);
    assert Has(v, d, Page(a / NENT, a % NENT), g);
    assert Has(m, d, Tab(a / NENT), TabAt(m, d, a / NENT));
    assert forall f :: f in m.free ==> f in v.free;
  }

  /** State w: m with frame f taken and filled with the contents of g. */
  ghost predicate Taken(m: Vm, w: Vm, f: nat, g: nat) {
    && m.free != [] && f == m.free[0] && f in m.mem && g in m.mem && g != f && f !in m.held
    && w == m.(free := m.free[1..], mem := m.mem[f := m.mem[g]], held := m.held + {f}) && SamePages(m, w) && SameTabs(m, w)
  }

  lemma CopyTaken(m: Vm, w: Vm, f: nat, g: nat)
    requires m.free != [] && f == m.free[0] && f in m.mem && g in m.mem && g !in m.free && f !in m.held
    requires w == Vm(m.free[1..], m.mem[f := m.mem[g]], m.dirs, m.held + {f}) && SamePages(m, w) && SameTabs(m, w)
    ensures Taken(m, w, f, g)
  {
    assert f in m.free;
  }

  /** mappages failed: the frame goes back where it came from. */
  lemma CopyFailed(v: Vm, m: Vm, w: Vm, n: Vm, c: int, f: nat, g: nat)
    requires Beside(v, m, c) && Taken(m, w, f, g)
    requires n == Vm([f] + w.free, w.mem[f := JunkPage()], w.dirs, w.held - {f}) && SamePages(w, n) && SameTabs(w, n)
    ensures Beside(v, n, c)
  {
    assert n.free == m.free;
    assert f in m.free;
    assert forall h :: h in m.free ==> h in v.free;
    forall e, b | e in v.dirs && 0 <= b < NPAGES
      ensures PteOf(n, e, b) == PteOf(v, e, b)
    {
      assert PteOf(n, e, b) == PteOf(w, e, b) == PteOf(m, e, b);
    }
    forall e, k | e in v.dirs && 0 <= k < NENT
      ensures TabAt(n, e, k) == TabAt(v, e, k)
    {
      assert TabAt(n, e, k) == TabAt(w, e, k) == TabAt(m, e, k);
    }
  }

  /** The copy is mapped. */
  lemma CopyMapped(v: Vm, m: Vm, w: Vm, n: Vm, d: int, c: int, a: nat, next: nat, f: nat, p: Pte)
    requires next == a + 1 && Inv(m) && Beside(v, m, c) && p.Pte? && Taken(m, w, f, p.frame) && a < USERPAGES
    requires p == PteOf(v, d, a) && IsData(v, p.frame) && m.mem[p.frame] == v.mem[p.frame] && Copied(v, m, d, c, a)
    requires Grows(w, n, c) && OnePage(w, n, c, a, Pte(f, p.flags)) && n.held == w.held - {f}
    ensures Beside(v, n, c) && Copied(v, n, d, c, next)
  {
    CopyFree(m, w, n, f, p.frame);
    assert forall h :: h in m.free ==> h in v.free;
    CopySame(m, w, n, f, p.frame);
    CopyBeside(v, m, w, n, c, a, Pte(f, p.flags));
    forall b | 0 <= b < next
      ensures CopyAt(v, n, d, c, b)
    {
      assert PteOf(n, c, b) == if b == a then Pte(f, p.flags) else PteOf(w, c, b);
      if b < a {
        assert CopyAt(v, m, d, c, b);
        assert PteOf(w, c, b) == PteOf(m, c, b);
        assert IsData(m, PteOf(m, c, b).frame);
      }
    }
    forall b | a + 1 <= b < USERPAGES
      ensures PteOf(n, c, b) == Absent
    {
      assert PteOf(n, c, b) == PteOf(w, c, b) == PteOf(m, c, b);
    }
  }

  lemma CopyFree(m: Vm, w: Vm, n: Vm, f: nat, g: nat)
    requires Inv(m) && Taken(m, w, f, g) && IsData(m, g) && FreeTail(w.free, n.free) && DataKept(w, n)
    ensures f in m.free && f !in n.free && FreeTail(m.free, n.free) && IsData(n, f) && n.mem[f] == m.mem[g]
    ensures forall h :: IsData(m, h) && h !in m.free ==> h in n.mem && n.mem[h] == m.mem[h] && h !in n.free
  {
    TailApart(m.free);
    TailOf(m.free, n.free);
    forall h | IsData(m, h) && h !in m.free
      ensures h in n.mem && n.mem[h] == m.mem[h] && h !in n.free
    {
      assert IsData(w, h) && w.mem[h] == m.mem[h];
    }
    assert IsData(w, f);
  }

  lemma TailOf(free: seq<nat>, now: seq<nat>)
    requires free != [] && FreeTail(free[1..], now)
    ensures FreeTail(free, now) && forall h :: h in now ==> h in free[1..] && h in free
  {
  }

  lemma TailApart(free: seq<nat>)
    requires free != [] && forall x, y :: 0 <= x < y < |free| ==> free[x] != free[y]
    ensures free[0] in free && free[0] !in free[1..] && forall h :: h in free[1..] ==> h in free
  {
  }

  lemma CopyBeside(v: Vm, m: Vm, w: Vm, n: Vm, c: int, a: nat, p: Pte)
    requires Beside(v, m, c) && SamePages(m, w) && SameTabs(m, w) && OnePage(w, n, c, a, p) && TabsGrow(w, n, c)
    requires n.held == m.held && n.mem.Keys == m.mem.Keys && FreeTail(m.free, n.free)
    requires forall h :: IsData(m, h) && h !in m.free ==> h in n.mem && n.mem[h] == m.mem[h] && h !in n.free
    ensures Beside(v, n, c)
  {
    CopyOthers(v, m, w, n, c, a, p);
    CopyData(v, m, n);
  }

  lemma CopySame(m: Vm, w: Vm, n: Vm, f: nat, g: nat)
    requires Taken(m, w, f, g) && n.held == w.held - {f} && n.mem.Keys == w.mem.Keys
    ensures n.held == m.held && n.mem.Keys == m.mem.Keys
  {
  }

  lemma CopyOthers(v: Vm, m: Vm, w: Vm, n: Vm, c: int, a: nat, p: Pte)
    requires Beside(v, m, c) && SamePages(m, w) && SameTabs(m, w) && OnePage(w, n, c, a, p) && TabsGrow(w, n, c)
    ensures forall e, k :: e in v.dirs && 0 <= k < NENT ==> TabAt(n, e, k) == TabAt(v, e, k)
    ensures forall e, b :: e in v.dirs && 0 <= b < NPAGES ==> PteOf(n, e, b) == PteOf(v, e, b)
  {
    forall e, b | e in v.dirs && 0 <= b < NPAGES
      ensures PteOf(n, e, b) == PteOf(v, e, b)
    {
      assert PteOf(n, e, b) == PteOf(w, e, b) == PteOf(m, e, b);
    }
    forall e, k | e in v.dirs && 0 <= k < NENT
      ensures TabAt(n, e, k) == TabAt(v, e, k)
    {
      assert TabAt(n, e, k) == TabAt(w, e, k) == TabAt(m, e, k);
    }
  }

  lemma CopyData(v: Vm, m: Vm, n: Vm)
    requires FreeTail(v.free, m.free) && FreeTail(m.free, n.free) && DataKept(v, m)
    requires forall h :: IsData(m, h) && h !in m.free ==> h in n.mem && n.mem[h] == m.mem[h] && h !in n.free
    ensures FreeTail(v.free, n.free) && DataKept(v, n)
  {
    assert forall h :: h in m.free ==> h in v.free;
    forall h | IsData(v, h) && h !in v.free && h !in n.free
      ensures h in n.mem && n.mem[h] == v.mem[h]
    {
      assert IsData(m, h);
    }
  }

  /** The first hi user pages of c are copies, the others absent. */
  ghost predicate Copied(v: Vm, n: Vm, d: int, c: int, hi: int) {
    && (forall a :: 0 <= a < hi ==> CopyAt(v, n, d, c, a))
    && (forall a :: hi <= a < USERPAGES ==> PteOf(n, c, a) == Absent)
  }

  /** Directory c has the kernel's mappings. */
  ghost predicate KernelKept(n: Vm, c: int, datap: nat) {
    forall a :: USERPAGES <= a < NPAGES ==> PteOf(n, c, a) == KernelPte(datap, a, 4)
  }

  lemma CopyKernel(m: Vm, w: Vm, n: Vm, c: int, a: nat, p: Pte, datap: nat)
    requires KernelKept(m, c, datap) && c in m.dirs && SamePages(m, w) && OnePage(w, n, c, a, p) && a < USERPAGES
    ensures KernelKept(n, c, datap)
  {
    forall b | USERPAGES <= b < NPAGES
      ensures PteOf(n, c, b) == KernelPte(datap, b, 4)
    {
      assert PteOf(n, c, b) == PteOf(w, c, b) == PteOf(m, c, b);
    }
  }

  /** A held frame of data, for a user page. */
  ghost predicate Offered(v: Vm, f: nat) {
    f in v.held && f !in v.free && IsData(v, f)
  }

  /** There is a frame for each user page among first..last. */
  ghost predicate AllOffered(v: Vm, first: nat, last: nat, pa: nat) {
    forall f :: pa <= f && first + (f - pa) <= last && first + (f - pa) < USERPAGES ==> Offered(v, f)
  }

  lemma NextOffered(v: Vm, first: nat, last: nat, pa: nat, a: nat, f: nat)
    requires AllOffered(v, first, last, pa) && pa <= f && a == first + (f - pa) && a <= last
    ensures a < USERPAGES ==> Offered(v, f)
  {
  }

  /** allocuvm's loop under way at page a. */
  ghost predicate Growing(v: Vm, n: Vm, d: int, lo: nat, a: int) {
    n.held == v.held && Grows(v, n, d) && Grown(v, n, d, lo, a) && AllAbsent(v, d, lo, a)
  }

  lemma TailFree(v: Vm, m: Vm, f: nat)
    requires FreeTail(v.free, m.free)
    ensures f in m.free ==> f in v.free
  {
  }

  /** copyuvm's loop under way at page a. */
  ghost predicate Copying(v: Vm, n: Vm, d: int, c: int, a: int, datap: nat) {
    Inv(n) && Beside(v, n, c) && Copied(v, n, d, c, a) && KernelKept(n, c, datap)
  }

  /** Pages lo..hi of d are not mapped. */
  ghost predicate AllAbsent(v: Vm, d: int, lo: int, hi: int) {
    forall a :: lo <= a < hi ==> PteOf(v, d, a) == Absent
  }

  lemma AbsentNext(v: Vm, d: int, lo: int, a: int)
    requires AllAbsent(v, d, lo, a) && PteOf(v, d, a) == Absent
    ensures AllAbsent(v, d, lo, a + 1)
  {
  }

  /** Of k pages from `first` on, a user page takes frame f over from its holder. */
  predicate Given(first: int, k: nat, pa: nat, f: nat) {
    pa <= f < pa + k && first + (f - pa) < USERPAGES
  }

  ghost predicate HeldBut(v: Vm, n: Vm, first: int, k: nat, pa: nat) {
    forall f: nat :: f in n.held <==> f in v.held && !Given(first, k, pa, f)
  }

  lemma NoneGiven(v: Vm, n: Vm, first: int, k: nat, pa: nat)
    requires HeldBut(v, n, first, k, pa) && first >= USERPAGES
    ensures n.held == v.held
  {
  }

  /** mappages under way. */
  ghost predicate Mapping(v: Vm, n: Vm, d: int, first: int, k: nat, pa: nat, perm: nat) {
    Grows(v, n, d) && Ranged(v, n, d, first, k, pa, perm) && HeldBut(v, n, first, k, pa)
  }

  lemma NextAbsent(v: Vm, m: Vm, d: int, first: int, k: nat, pa: nat, perm: nat, a: nat)
    requires Mapping(v, m, d, first, k, pa, perm) && d in v.dirs && a == first + k && a < NPAGES
    ensures Inv(m) && d in m.dirs && PteOf(m, d, a) == PteOf(v, d, a)
  {
  }

  /** The next frame is still with its holder. */
  lemma StillOffered(v: Vm, m: Vm, d: int, first: nat, k: nat, pa: nat, perm: nat)
    requires Mapping(v, m, d, first, k, pa, perm) && Offered(v, pa + k)
    ensures Offered(m, pa + k)
  {
    assert forall g :: g in m.free ==> g in v.free;
  }

  lemma MappingNext(v: Vm, m: Vm, n: Vm, d: int, first: int, k: nat, pa: nat, perm: nat, a: int, f: nat)
    requires Mapping(v, m, d, first, k, pa, perm) && Grows(m, n, d) && a == first + k && f == pa + k && OnePage(m, n, d, a, Pte(f, perm))
    requires n.held == m.held - if a < USERPAGES then {f} else {}
    ensures Mapping(v, n, d, first, k + 1, pa, perm)
  {
    RangedNext(v, m, n, d, first, k, pa, perm, a, f);
    GrowsOn(v, m, n, d);
    HeldNext(v, m, n, first, k, pa, a, f);
  }

  lemma HeldNext(v: Vm, m: Vm, n: Vm, first: int, k: nat, pa: nat, a: int, f: nat)
    requires HeldBut(v, m, first, k, pa) && a == first + k && f == pa + k && n.held == m.held - if a < USERPAGES then {f} else {}
    ensures HeldBut(v, n, first, k + 1, pa)
  {
  }

  lemma MappingNone(v: Vm, d: int, first: int, pa: nat, perm: nat)
    requires Inv(v)
    ensures Mapping(v, v, d, first, 0, pa, perm)
  {
  }

  /** Pages first..first + k of d are mapped to frames from pa on; nothing else
      changed. */
  ghost predicate Ranged(v: Vm, n: Vm, d: int, first: int, k: nat, pa: nat, perm: nat) {
    n.dirs == v.dirs && forall e, b :: e in v.dirs && 0 <= b < NPAGES ==> PteOf(n, e, b) == if e == d && first <= b < first + k then Pte(pa + (b - first), perm) else PteOf(v, e, b)
  }

  lemma RangedNext(v: Vm, m: Vm, n: Vm, d: int, first: int, k: nat, pa: nat, perm: nat, a: int, f: nat)
    requires Ranged(v, m, d, first, k, pa, perm) && a == first + k && f == pa + k && OnePage(m, n, d, a, Pte(f, perm))
    ensures Ranged(v, n, d, first, k + 1, pa, perm)
  {
    forall e, b | e in v.dirs && 0 <= b < NPAGES
      ensures PteOf(n, e, b) == if e == d && first <= b < first + (k + 1) then Pte(pa + (b - first), perm) else PteOf(v, e, b)
    {
      assert PteOf(n, e, b) == if e == d && b == a then Pte(f, perm) else PteOf(m, e, b);
      assert PteOf(m, e, b) == if e == d && first <= b < a then Pte(pa + (b - first), perm) else PteOf(v, e, b);
    }
  }

  lemma GrowsOn(v: Vm, m: Vm, n: Vm, d: int)
    requires Grows(v, m, d) && Grows(m, n, d)
    ensures Grows(v, n, d)
  {
    KeptOn(v, m, n, d);
  }

  lemma OnePageAfter(v: Vm, m: Vm, n: Vm, d: int, a: int, p: Pte)
    requires SamePages(v, m) && OnePage(m, n, d, a, p)
    ensures OnePage(v, n, d, a, p)
  {
    forall e, b | e in v.dirs && 0 <= b < NPAGES
      ensures PteOf(n, e, b) == if e == d && b == a then p else PteOf(v, e, b)
    {
      assert PteOf(m, e, b) == PteOf(v, e, b);
    }
  }

  /** Allocations in sequence. */
  lemma KeptOn(v: Vm, m: Vm, n: Vm, d: int)
    requires FreeTail(v.free, m.free) && FreeTail(m.free, n.free) && DataKept(v, m) && DataKept(m, n)
    requires TabsGrow(v, m, d) && TabsGrow(m, n, d)
    ensures FreeTail(v.free, n.free) && DataKept(v, n) && TabsGrow(v, n, d)
  {
    assert forall f :: f in m.free ==> f in v.free;
  }

  /** What is left of the free list after allocations. */
  ghost predicate FreeTail(old_: seq<nat>, now: seq<nat>) {
    |now| <= |old_| && now == old_[|old_| - |now|..]
  }

  lemma NewTablePages(v: Vm, m: Vm, n: Vm, d: int, i: int, t: int)
    requires SamePages(v, m) && SameTabs(v, m) && NewTable(m, n, d, i, t) && TabAt(m, d, i) == -1 && d in v.dirs && 0 <= i < NENT
    ensures SamePages(v, n) && TabsGrow(v, n, d) && forall k :: 0 <= k < NENT && k != i ==> TabAt(n, d, k) == TabAt(v, d, k)
  {
    forall e, b | e in v.dirs && 0 <= b < NPAGES
      ensures PteOf(n, e, b) == PteOf(v, e, b)
    {
      assert PteAt(n, e, b / NENT, b % NENT) == PteAt(m, e, b / NENT, b % NENT);
      assert PteOf(m, e, b) == PteOf(v, e, b);
    }
  }
}
