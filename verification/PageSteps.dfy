/** The steps of kalloc.c and vm.c on those values, each keeping the invariant. */
module PageSteps {
  import opened PageSpec

  /** Same entries in directory e, tables included. */
  ghost predicate SameDir(v: Vm, n: Vm, e: int) {
    && (forall k :: 0 <= k < NENT ==> TabAt(n, e, k) == TabAt(v, e, k))
    && (forall k, l :: 0 <= k < NENT ==> PteAt(n, e, k, l) == PteAt(v, e, k, l))
  }

  lemma SameSlots(v: Vm, n: Vm, d: int)
    requires SameDir(v, n, d)
    ensures forall s :: IsSlot(s) ==> At(n, d, s) == At(v, d, s)
  {
    forall s | IsSlot(s)
      ensures At(n, d, s) == At(v, d, s)
    {
      match s
      case Self =>
      case Tab(i) =>
      case Page(i, j) => assert PteAt(n, d, i, j) == PteAt(v, d, i, j);
    }
  }

  // ----- frames that no directory has ---------------------------------------

  lemma HeldApart(v: Vm, f: int, e: int, k: int)
    requires Apart(v) && f in v.held && e in v.dirs && 0 <= k < NENT
    ensures e != f && TabAt(v, e, k) != f
  {
    assert Has(v, e, Self, e);
    assert TabAt(v, e, k) != -1 ==> Has(v, e, Tab(k), TabAt(v, e, k));
  }

  /** Writing to a held frame changes no directory. */
  lemma WriteHeld(v: Vm, f: nat, c: Frame)
    requires Inv(v) && f in v.held
    ensures Inv(v.(mem := v.mem[f := c])) && forall e :: e in v.dirs ==> SameDir(v, v.(mem := v.mem[f := c]), e)
  {
    var n := v.(mem := v.mem[f := c]);
    forall e | e in v.dirs
      ensures SameDir(v, n, e) && IsTable(n, e)
    {
      forall k | 0 <= k < NENT
        ensures TabAt(n, e, k) == TabAt(v, e, k)
        ensures forall l :: PteAt(n, e, k, l) == PteAt(v, e, k, l)
      {
        HeldApart(v, f, e, k);
      }
      HeldApart(v, f, e, 0);
    }
    SameInv(v, n);
  }

  /** Same directories, same rest: the invariant carries over. */
  lemma SameInv(v: Vm, n: Vm)
    requires Inv(v) && n.dirs == v.dirs && n.free == v.free && n.held == v.held && n.mem.Keys == v.mem.Keys
    requires forall e :: e in v.dirs ==> SameDir(v, n, e) && IsTable(n, e)
    requires forall f :: f !in v.held && f in v.mem ==> n.mem[f] == v.mem[f]
    ensures Inv(n)
  {
    forall e, i | e in n.dirs && 0 <= i < NENT
      ensures Flagged(n, e, i)
    {
      assert Has(v, e, Self, e);
      assert Flagged(v, e, i);
    }
    forall e, s, f
      ensures Has(n, e, s, f) <==> Has(v, e, s, f)
    {
      if e in v.dirs { SameSlots(v, n, e); }
    }
    forall f | f in n.mem
      ensures f in n.free || f in n.held || Owned(n, f)
    {
      if Owned(v, f) {
        var e, s :| Has(v, e, s, f);
        assert Has(n, e, s, f);
      }
    }
  }

  /** kalloc: the head of the free list is held. */
  lemma AllocInv(v: Vm)
    requires Inv(v) && v.free != []
    ensures Inv(v.(free := v.free[1..], held := v.held + {v.free[0]}))
    ensures v.free[0] in v.mem
  {
    var n := v.(free := v.free[1..], held := v.held + {v.free[0]});
    assert v.free[0] in v.free;
    Redistributed(v, n);
  }

  /** Frames move between the free list and the held ones. */
  lemma Redistributed(v: Vm, n: Vm)
    requires Inv(v) && n.dirs == v.dirs && n.mem == v.mem
    requires forall f :: f in n.free || f in n.held <==> f in v.free || f in v.held
    requires (forall f :: f in n.free ==> f !in n.held) && forall x, y :: 0 <= x < y < |n.free| ==> n.free[x] != n.free[y]
    ensures Inv(n)
  {
    forall e, i | e in n.dirs && 0 <= i < NENT
      ensures Flagged(n, e, i)
    {
      assert Flagged(v, e, i);
    }
    forall e, s, f
      ensures Has(n, e, s, f) <==> Has(v, e, s, f)
    {
      if e in v.dirs { assert At(n, e, s) == At(v, e, s) by { SameSlots(v, n, e); } }
    }
    forall f | f in n.mem
      ensures f in n.free || f in n.held || Owned(n, f)
    {
      if Owned(v, f) {
        var e, s :| Has(v, e, s, f);
        assert Has(n, e, s, f);
      }
    }
  }

  /** kfree: a held frame, overwritten, is the new head. */
  lemma FreeInv(v: Vm, f: nat, junk: Frame)
    requires Inv(v) && f in v.held
    ensures var n := Vm([f] + v.free, v.mem[f := junk], v.dirs, v.held - {f});
            Inv(n) && forall e :: e in v.dirs ==> SameDir(v, n, e)
  {
    var m := v.(mem := v.mem[f := junk]);
    WriteHeld(v, f, junk);
    var n := Vm([f] + v.free, v.mem[f := junk], v.dirs, v.held - {f});
    Redistributed(m, n);
    forall e | e in v.dirs
      ensures SameDir(v, n, e)
    {
      assert SameDir(v, m, e);
      assert forall k :: TabAt(n, e, k) == TabAt(m, e, k);
      assert forall k, l :: PteAt(n, e, k, l) == PteAt(m, e, k, l);
    }
  }

  // ----- entries ------------------------------------------------------------

  /** Directory d differs only in page entry (i, j), which is p; the others not. */
  ghost predicate OnePte(v: Vm, n: Vm, d: int, i: int, j: int, p: Pte) {
    && n.dirs == v.dirs
    && (forall e, k :: e in v.dirs && 0 <= k < NENT ==> TabAt(n, e, k) == TabAt(v, e, k))
    && (forall e, k, l :: e in v.dirs && 0 <= k < NENT ==>
          PteAt(n, e, k, l) == if e == d && k == i && l == j then p else PteAt(v, e, k, l))
  }

  lemma OnePteStored(v: Vm, d: int, i: nat, j: nat, p: Pte, held: set<nat>)
    requires Apart(v) && Typed(v) && d in v.dirs && i < NENT && j < NENT && TabAt(v, d, i) != -1
    requires p.Pte? && i < NUSER ==> IsData(v, p.frame)
    ensures IsTable(v, TabAt(v, d, i)) && OnePte(v, SetEnt(v, TabAt(v, d, i), j, p).(held := held), d, i, j, p)
    ensures Typed(SetEnt(v, TabAt(v, d, i), j, p).(held := held))
  {
    assert Has(v, d, Tab(i), TabAt(v, d, i));
    var m := SetEnt(v, TabAt(v, d, i), j, p);
    var n := m.(held := held);
    forall e, k | e in v.dirs && 0 <= k < NENT
      ensures TabAt(n, e, k) == TabAt(v, e, k)
      ensures forall l :: PteAt(n, e, k, l) == if e == d && k == i && l == j then p else PteAt(v, e, k, l)
    {
      forall l
        ensures PteAt(n, e, k, l) == if e == d && k == i && l == j then p else PteAt(v, e, k, l)
      {
        StorePte(v, d, i, j, p, e, k, l);
        assert PteAt(n, e, k, l) == PteAt(m, e, k, l);
      }
      StorePte(v, d, i, j, p, e, k, 0);
      assert TabAt(n, e, k) == TabAt(m, e, k);
    }
    forall e, k | e in v.dirs && 0 <= k < NENT
      ensures Ent(n, e, k) == Ent(v, e, k)
    {
      TablesApart(v, d, i, e, k);
      SetEntAt(v, TabAt(v, d, i), j, p, e, k);
    }
    TypedKept(v, n, d, i, j, p);
  }

  lemma TypedKept(v: Vm, n: Vm, d: int, i: nat, j: nat, p: Pte)
    requires Typed(v) && OnePte(v, n, d, i, j, p)
    requires (forall f :: IsTable(v, f) ==> IsTable(n, f)) && (forall f :: IsData(v, f) ==> IsData(n, f))
    requires p.Pte? && i < NUSER ==> IsData(v, p.frame)
    requires forall e, k :: e in v.dirs && 0 <= k < NENT ==> Ent(n, e, k) == Ent(v, e, k)
    ensures Typed(n)
  {
    forall e, i | e in n.dirs && 0 <= i < NENT
      ensures Flagged(n, e, i)
    {
      assert Flagged(v, e, i);
    }

    forall e, k, f | Has(n, e, Tab(k), f)
      ensures IsTable(n, f)
    {
      assert Has(v, e, Tab(k), f);
    }
    forall e, k, l, f | Has(n, e, Page(k, l), f)
      ensures IsData(n, f)
    {
      OnePteSlots(v, n, d, i, j, p, e, Page(k, l));
      assert !(e == d && k == i && l == j) ==> Has(v, e, Page(k, l), f);
    }
  }

  lemma OnePteSlots(v: Vm, n: Vm, d: int, i: int, j: int, p: Pte, e: int, s: Slot)
    requires OnePte(v, n, d, i, j, p) && e in v.dirs && IsSlot(s)
    ensures At(n, e, s) == if e == d && s == Page(i, j) then (if p.Pte? then p.frame else -1) else At(v, e, s)
  {
    match s
    case Self =>
    case Tab(k) =>
    case Page(k, l) => assert PteAt(n, e, k, l) == if e == d && k == i && l == j then p else PteAt(v, e, k, l);
  }

  /** mappages on a user page: a held frame is mapped where nothing was. */
  lemma MapUser(v: Vm, n: Vm, d: int, i: nat, j: nat, f: nat, flags: nat)
    requires Inv(v) && d in v.dirs && i < NUSER && j < NENT && TabAt(v, d, i) != -1 && PteAt(v, d, i, j) == Absent && f in v.held && IsData(v, f)
    requires IsTable(v, TabAt(v, d, i)) && n == SetEnt(v, TabAt(v, d, i), j, Pte(f, flags)).(held := v.held - {f})
    ensures Inv(n) && OnePte(v, n, d, i, j, Pte(f, flags))
  {
    OnePteStored(v, d, i, j, Pte(f, flags), v.held - {f});
    forall e, t | e in v.dirs && IsSlot(t)
      ensures At(n, e, t) == if e == d && t == Page(i, j) then f else At(v, e, t)
    {
      OnePteSlots(v, n, d, i, j, Pte(f, flags), e, t);
    }
    assert n.mem.Keys == v.mem.Keys;
    Give(v, n, d, Page(i, j), f);
  }

  /** deallocuvm on a user page: its frame is held, the entry cleared. */
  lemma UnmapUser(v: Vm, n: Vm, d: int, i: nat, j: nat)
    requires Inv(v) && d in v.dirs && i < NUSER && j < NENT && PteAt(v, d, i, j).Pte?
    requires IsTable(v, TabAt(v, d, i)) && n == SetEnt(v, TabAt(v, d, i), j, Absent).(held := v.held + {PteAt(v, d, i, j).frame})
    ensures Inv(n) && OnePte(v, n, d, i, j, Absent)
    ensures PteAt(v, d, i, j).frame !in v.held
  {
    var f := PteAt(v, d, i, j).frame;
    OnePteStored(v, d, i, j, Absent, v.held + {f});
    assert Has(v, d, Page(i, j), f);
    forall e, t | e in v.dirs && IsSlot(t)
      ensures At(n, e, t) == if e == d && t == Page(i, j) then -1 else At(v, e, t)
    {
      OnePteSlots(v, n, d, i, j, Absent, e, t);
    }
    assert n.mem.Keys == v.mem.Keys;
    Take(v, n, d, Page(i, j), f);
  }

  /** mappages above KERNBASE: no owned slot is involved. */
  lemma MapKernel(v: Vm, n: Vm, d: int, i: nat, j: nat, p: Pte)
    requires Inv(v) && d in v.dirs && NUSER <= i < NENT && j < NENT && TabAt(v, d, i) != -1
    requires IsTable(v, TabAt(v, d, i)) && n == SetEnt(v, TabAt(v, d, i), j, p)
    ensures Inv(n) && OnePte(v, n, d, i, j, p)
  {
    OnePteStored(v, d, i, j, p, v.held);
    forall e, s, f
      ensures Has(n, e, s, f) <==> Has(v, e, s, f)
    {
      if e in v.dirs && IsSlot(s) { OnePteSlots(v, n, d, i, j, p, e, s); }
    }
    forall f | f in n.mem
      ensures f in n.free || f in n.held || Owned(n, f)
    {
      if Owned(v, f) {
        var e, s :| Has(v, e, s, f);
        assert Has(n, e, s, f);
      }
    }
  }

  /** walkpgdir: a held, empty table becomes table i of d; no page entry changes. */
  lemma AddTable(v: Vm, n: Vm, d: int, i: nat, t: nat, fl: nat)
    requires Inv(v) && d in v.dirs && i < NENT && TabAt(v, d, i) == -1 && t in v.held && IsTable(v, t)
    requires forall x :: 0 <= x < NENT ==> v.mem[t].ptes[x] == Absent
    requires IsTable(v, d) && n == SetEnt(v, d, i, Pte(t, fl)).(held := v.held - {t}) && fl == TABFLAGS
    ensures Inv(n) && NewTable(v, n, d, i, t)
  {
    var m := SetEnt(v, d, i, Pte(t, fl));
    forall e, k | e in n.dirs && 0 <= k < NENT
      ensures Flagged(n, e, k)
    {
      SetEntAt(v, d, i, Pte(t, fl), e, k);
      assert Flagged(v, e, k);
    }
    forall e, k | e in v.dirs && 0 <= k < NENT
      ensures TabAt(n, e, k) == if e == d && k == i then t else TabAt(v, e, k)
      ensures forall l :: PteAt(n, e, k, l) == PteAt(v, e, k, l)
    {
      forall l
        ensures PteAt(n, e, k, l) == PteAt(v, e, k, l)
      {
        StorePde(v, d, i, t, fl, e, k, l);
        assert PteAt(n, e, k, l) == PteAt(m, e, k, l);
      }
      StorePde(v, d, i, t, fl, e, k, 0);
      assert TabAt(n, e, k) == TabAt(m, e, k);
    }
    AddTableSlots(v, n, d, i, t);
    assert n.mem.Keys == v.mem.Keys;
    Give(v, n, d, Tab(i), t);
    forall e, k, f | Has(n, e, Tab(k), f)
      ensures IsTable(n, f)
    {
      assert !(e == d && k == i) ==> Has(v, e, Tab(k), f);
    }
    forall e, k, l, f | Has(n, e, Page(k, l), f)
      ensures IsData(n, f)
    {
      assert Has(v, e, Page(k, l), f);
    }
  }

  /** Table t is new at entry i of d; every page entry is as it was. */
  ghost predicate NewTable(v: Vm, n: Vm, d: int, i: int, t: int) {
    && n.dirs == v.dirs
    && (forall e, k :: e in v.dirs && 0 <= k < NENT ==> TabAt(n, e, k) == if e == d && k == i then t else TabAt(v, e, k))
    && (forall e, k, l :: e in v.dirs && 0 <= k < NENT ==> PteAt(n, e, k, l) == PteAt(v, e, k, l))
  }

  lemma AddTableSlots(v: Vm, n: Vm, d: int, i: int, t: int)
    requires NewTable(v, n, d, i, t)
    ensures forall e, s :: e in v.dirs && IsSlot(s) ==> At(n, e, s) == if e == d && s == Tab(i) then t else At(v, e, s)
  {
    forall e, s | e in v.dirs && IsSlot(s)
      ensures At(n, e, s) == if e == d && s == Tab(i) then t else At(v, e, s)
    {
      match s
      case Self =>
      case Tab(k) =>
      case Page(k, l) => assert PteAt(n, e, k, l) == PteAt(v, e, k, l);
    }
  }

  // ----- directories --------------------------------------------------------

  /** A held, empty table becomes a directory. */
  lemma NewDir(v: Vm, d: nat)
    requires Inv(v) && d in v.held && IsTable(v, d) && forall x :: 0 <= x < NENT ==> v.mem[d].ptes[x] == Absent
    ensures Inv(v.(dirs := v.dirs + {d}, held := v.held - {d}))
    ensures forall k, l :: PteAt(v, d, k, l) == Absent && TabAt(v, d, k) == -1
  {
    var n := v.(dirs := v.dirs + {d}, held := v.held - {d});
    forall e, s, f
      ensures Has(n, e, s, f) <==> Has(v, e, s, f) || (e == d && s == Self && f == d)
    {
      assert Has(v, e, Self, e) <==> e in v.dirs;
      NewDirSlot(v, n, d, e, s);
    }
    forall e, i | e in n.dirs && 0 <= i < NENT
      ensures Flagged(n, e, i)
    {
      assert e in v.dirs ==> Flagged(v, e, i);
    }
    forall f | f in n.mem
      ensures f in n.free || f in n.held || Owned(n, f)
    {
      if f == d {
        assert Has(n, d, Self, d);
      } else if Owned(v, f) {
        var e, s :| Has(v, e, s, f);
        assert Has(n, e, s, f);
      }
    }
  }

  lemma NewDirSlot(v: Vm, n: Vm, d: nat, e: int, s: Slot)
    requires IsTable(v, d) && (forall x :: 0 <= x < NENT ==> v.mem[d].ptes[x] == Absent) && n.mem == v.mem
    ensures At(n, e, s) == At(v, e, s) && (s != Self ==> At(v, d, s) == -1)
  {
    match s
    case Self =>
    case Tab(k) => assert TabAt(n, e, k) == TabAt(v, e, k) && Ent(v, d, k) == Absent;
    case Page(k, l) => assert PteAt(n, e, k, l) == PteAt(v, e, k, l) && Ent(v, d, k) == Absent;
  }

  /** A directory is given up: all it has is held. */
  lemma DropDir(v: Vm, n: Vm, d: nat, frames: set<nat>)
    requires Inv(v) && d in v.dirs && forall f :: f in frames <==> exists s :: Has(v, d, s, f)
    requires n == v.(dirs := v.dirs - {d}, held := v.held + frames)
    ensures Inv(n) && frames !! v.held
  {
    forall e, s, f
      ensures Has(n, e, s, f) <==> Has(v, e, s, f) && e != d
    {
      if e in v.dirs { assert SameDir(v, n, e); SameSlots(v, n, e); }
    }
    forall f | f in frames
      ensures f in v.mem && f !in v.held && f !in v.free
    {
      var s :| Has(v, d, s, f);
    }
    forall f | f in n.mem
      ensures f in n.free || f in n.held || Owned(n, f)
    {
      if Owned(v, f) {
        var e, s :| Has(v, e, s, f);
        assert e != d ==> Has(n, e, s, f);
      }
    }
    DropApart(v, n, d, frames);
  }

  lemma DropApart(v: Vm, n: Vm, d: nat, frames: set<nat>)
    requires Inv(v) && (forall f :: f in frames <==> exists s :: Has(v, d, s, f))
    requires n == v.(dirs := v.dirs - {d}, held := v.held + frames)
    requires forall e, s, f :: Has(n, e, s, f) <==> Has(v, e, s, f) && e != d
    requires forall f :: f in frames ==> f in v.mem && f !in v.held && f !in v.free
    ensures Apart(n) && Typed(n)
  {
    forall e, i | e in n.dirs && 0 <= i < NENT
      ensures Flagged(n, e, i)
    {
      assert Flagged(v, e, i);
    }
    forall e, s, f | Has(n, e, s, f)
      ensures f !in n.held
    {
      assert f in frames ==> exists t :: Has(v, d, t, f);
    }
    forall e, k, f | Has(n, e, Tab(k), f)
      ensures IsTable(n, f)
    {
      assert Has(v, e, Tab(k), f);
    }
    forall e, i, j, f | Has(n, e, Page(i, j), f)
      ensures IsData(n, f)
    {
      assert Has(v, e, Page(i, j), f);
    }
  }
}
