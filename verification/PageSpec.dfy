/** Physical frames and two-level page tables as values: what each page directory
    owns, and what one changed entry does to that. */
module PageSpec {

  const NENT: nat := 1024      // entries of a directory or table
  const NUSER: nat := 512      // directory entries below KERNBASE

  datatype Pte = Absent | Pte(frame: nat, flags: nat)
  datatype Frame = Data(bytes: seq<int>) | Table(ptes: seq<Pte>)

  /** Memory, and who has which frame: `free` is the free list, `dirs` the page
      directories, `held` frames handed out by kalloc that no directory has. */
  datatype Vm = Vm(free: seq<nat>, mem: map<nat, Frame>, dirs: set<nat>, held: set<nat>)

  predicate IsTable(v: Vm, f: int) {
    0 <= f && f in v.mem && v.mem[f].Table? && |v.mem[f].ptes| == NENT
  }

  function Ent(v: Vm, f: int, i: int): Pte {
    if IsTable(v, f) && 0 <= i < NENT then v.mem[f].ptes[i] else Absent
  }

  /** The table for directory entry i, or -1. */
  function TabAt(v: Vm, d: int, i: int): int {
    var e := Ent(v, d, i);
    if e.Pte? then e.frame else -1
  }

  /** The entry for page j of directory entry i. */
  function PteAt(v: Vm, d: int, i: int, j: int): Pte {
    if TabAt(v, d, i) == -1 then Absent else Ent(v, TabAt(v, d, i), j)
  }

  // ----- what a directory owns ----------------------------------------------

  /** Where a directory has a frame: itself, a table, or a user page. */
  datatype Slot = Self | Tab(i: int) | Page(i: int, j: int)

  predicate IsSlot(s: Slot) {
    match s
    case Self => true
    case Tab(i) => 0 <= i < NENT
    case Page(i, j) => 0 <= i < NUSER && 0 <= j < NENT
  }

  function At(v: Vm, d: int, s: Slot): int {
    match s
    case Self => d
    case Tab(i) => TabAt(v, d, i)
    case Page(i, j) => if PteAt(v, d, i, j).Pte? then PteAt(v, d, i, j).frame else -1
  }

  predicate Has(v: Vm, d: int, s: Slot, f: int) {
    d in v.dirs && IsSlot(s) && At(v, d, s) == f != -1
  }

  ghost predicate Owned(v: Vm, f: int) {
    exists d, s :: Has(v, d, s, f)
  }

  /** Free, held and owned frames are apart ... */
  ghost predicate Apart(v: Vm) {
    && (forall d, s, f :: Has(v, d, s, f) ==> f in v.mem && f !in v.free && f !in v.held)
    && (forall d, s, e, t, f :: Has(v, d, s, f) && Has(v, e, t, f) ==> d == e && s == t)
    && (forall x, y :: 0 <= x < y < |v.free| ==> v.free[x] != v.free[y])
    && (forall f :: f in v.free ==> f in v.mem && f !in v.held)
    && (forall f :: f in v.held ==> f in v.mem)
  }

  /** ... and are all the frames there are. */
  ghost predicate Complete(v: Vm) {
    forall f :: f in v.mem ==> f in v.free || f in v.held || Owned(v, f)
  }

  /** A directory enters every table writable and for the user: the table's own entries
      say more. */
  const TABFLAGS: nat := 6

  predicate Flagged(v: Vm, d: int, i: int) {
    Ent(v, d, i).Pte? ==> Ent(v, d, i).flags == TABFLAGS
  }

  /** Directories and their tables are tables, user pages are not. */
  ghost predicate Typed(v: Vm) {
    && (forall d :: d in v.dirs ==> IsTable(v, d))
    && (forall d, i :: d in v.dirs && 0 <= i < NENT ==> Flagged(v, d, i))
    && (forall d, i, f :: Has(v, d, Tab(i), f) ==> IsTable(v, f))
    && (forall d, i, j, f :: Has(v, d, Page(i, j), f) ==> IsData(v, f))
  }

  predicate IsData(v: Vm, f: int) {
    f in v.mem && v.mem[f].Data?
  }

  ghost predicate Inv(v: Vm) {
    Apart(v) && Complete(v) && Typed(v)
  }

  // ----- one slot given or taken --------------------------------------------

  /** The slots of n are those of v, but slot s of d has f there (or none, -1). */
  ghost predicate Reslot(v: Vm, n: Vm, d: int, s: Slot, f: int) {
    && n.dirs == v.dirs && n.free == v.free && n.mem.Keys == v.mem.Keys
    && forall e, t :: e in v.dirs && IsSlot(t) ==> At(n, e, t) == if e == d && t == s then f else At(v, e, t)
  }

  lemma ReslotHas(v: Vm, n: Vm, d: int, s: Slot, f: int, e: int, t: Slot, g: int)
    requires Reslot(v, n, d, s, f)
    ensures Has(n, e, t, g) <==> if e == d && t == s then d in v.dirs && IsSlot(s) && f == g != -1 else Has(v, e, t, g)
  {
  }

  /** A held frame goes into an empty slot. */
  lemma Give(v: Vm, n: Vm, d: int, s: Slot, f: nat)
    requires Apart(v) && Complete(v) && d in v.dirs && IsSlot(s) && At(v, d, s) == -1 && f in v.held
    requires Reslot(v, n, d, s, f) && n.held == v.held - {f}
    ensures Apart(n) && Complete(n)
  {
    forall e, t, g | Has(n, e, t, g)
      ensures g in n.mem && g !in n.free && g !in n.held
    {
      ReslotHas(v, n, d, s, f, e, t, g);
    }
    forall e, t, h, u, g | Has(n, e, t, g) && Has(n, h, u, g)
      ensures e == h && t == u
    {
      ReslotHas(v, n, d, s, f, e, t, g);
      ReslotHas(v, n, d, s, f, h, u, g);
    }
    forall g | g in n.mem
      ensures g in n.free || g in n.held || Owned(n, g)
    {
      if g == f {
        assert Has(n, d, s, f);
      } else if Owned(v, g) {
        var e, t :| Has(v, e, t, g);
        ReslotHas(v, n, d, s, f, e, t, g);
      }
    }
  }

  /** A slot's frame is taken out of it and held. */
  lemma Take(v: Vm, n: Vm, d: int, s: Slot, f: nat)
    requires Apart(v) && Complete(v) && Has(v, d, s, f)
    requires Reslot(v, n, d, s, -1) && n.held == v.held + {f}
    ensures Apart(n) && Complete(n)
  {
    forall e, t, g | Has(n, e, t, g)
      ensures g in n.mem && g !in n.free && g !in n.held
    {
      ReslotHas(v, n, d, s, -1, e, t, g);
      assert Has(v, e, t, g);
    }
    forall e, t, h, u, g | Has(n, e, t, g) && Has(n, h, u, g)
      ensures e == h && t == u
    {
      ReslotHas(v, n, d, s, -1, e, t, g);
      ReslotHas(v, n, d, s, -1, h, u, g);
    }
    forall g | g in n.mem
      ensures g in n.free || g in n.held || Owned(n, g)
    {
      if g != f && Owned(v, g) {
        var e, t :| Has(v, e, t, g);
        ReslotHas(v, n, d, s, -1, e, t, g);
      }
    }
  }

  // ----- what a store changes -----------------------------------------------

  /** Entry j of table t set to p. */
  function SetEnt(v: Vm, t: nat, j: nat, p: Pte): Vm
    requires IsTable(v, t) && j < NENT
  {
    v.(mem := v.mem[t := Table(v.mem[t].ptes[j := p])])
  }

  lemma SetEntAt(v: Vm, t: nat, j: nat, p: Pte, f: int, i: int)
    requires IsTable(v, t) && j < NENT
    ensures Ent(SetEnt(v, t, j, p), f, i) == if f == t && i == j then p else Ent(v, f, i)
    ensures IsTable(SetEnt(v, t, j, p), f) <==> IsTable(v, f)
  {
  }

  /** A directory and a table of any directory are different frames, and so are two
      tables. */
  lemma TablesApart(v: Vm, d: int, i: int, e: int, k: int)
    requires Apart(v) && d in v.dirs && e in v.dirs && 0 <= i < NENT && TabAt(v, d, i) != -1
    ensures TabAt(v, d, i) != e
    ensures 0 <= k < NENT && TabAt(v, e, k) == TabAt(v, d, i) ==> e == d && k == i
  {
    assert Has(v, d, Tab(i), TabAt(v, d, i)) && Has(v, e, Self, e);
    assert 0 <= k < NENT && TabAt(v, e, k) != -1 ==> Has(v, e, Tab(k), TabAt(v, e, k));
  }

  /** Storing p as page entry (i, j) of d changes that entry and no other. */
  lemma StorePte(v: Vm, d: int, i: nat, j: nat, p: Pte, e: int, k: int, l: int)
    requires Apart(v) && Typed(v) && d in v.dirs && e in v.dirs && i < NENT && j < NENT && TabAt(v, d, i) != -1 && 0 <= k < NENT
    ensures IsTable(v, TabAt(v, d, i))
    ensures var n := SetEnt(v, TabAt(v, d, i), j, p);
            && TabAt(n, e, k) == TabAt(v, e, k)
            && PteAt(n, e, k, l) == if e == d && k == i && l == j then p else PteAt(v, e, k, l)
  {
    var t := TabAt(v, d, i);
    assert Has(v, d, Tab(i), t);
    TablesApart(v, d, i, e, k);
    SetEntAt(v, t, j, p, e, k);
    SetEntAt(v, t, j, p, TabAt(v, e, k), l);
  }

  /** A new table t, all entries absent, at directory entry i of d. */
  lemma StorePde(v: Vm, d: int, i: nat, t: nat, fl: nat, e: int, k: int, l: int)
    requires Apart(v) && Typed(v) && d in v.dirs && e in v.dirs && i < NENT && TabAt(v, d, i) == -1 && 0 <= k < NENT
    requires IsTable(v, t) && t in v.held && forall x :: 0 <= x < NENT ==> v.mem[t].ptes[x] == Absent
    ensures IsTable(v, d)
    ensures var n := SetEnt(v, d, i, Pte(t, fl));
            && TabAt(n, e, k) == (if e == d && k == i then t else TabAt(v, e, k))
            && PteAt(n, e, k, l) == PteAt(v, e, k, l)
  {
    var n := SetEnt(v, d, i, Pte(t, fl));
    SetEntAt(v, d, i, Pte(t, fl), e, k);
    assert Has(v, d, Self, d);
    if e == d && k == i {
      SetEntAt(v, d, i, Pte(t, fl), t, l);
      assert Ent(v, t, l) == Absent;
    } else if TabAt(v, e, k) != -1 {
      assert Has(v, e, Tab(k), TabAt(v, e, k));
      SetEntAt(v, d, i, Pte(t, fl), TabAt(v, e, k), l);
    }
  }
}
