/** kalloc, kfree, walkpgdir, mappages, allocuvm, deallocuvm, freevm, copyuvm and
    setupkvm, by page number. */
module PageTables {
  import opened PageSpec
  import opened PageSteps
  import opened PageViews
  import opened PageCounts

  class Memory {
    var free: seq<nat>
    var mem: map<nat, Frame>
    ghost var dirs: set<nat>
    ghost var held: set<nat>

    /** Memory at boot: no frame is free yet. */
    constructor (frames: set<nat>)
      ensures Inv(V()) && free == [] && dirs == {} && held == frames == mem.Keys
    {
      free, dirs, held := [], {}, frames;
      mem := map f | f in frames :: ZeroPage();
    }

    /** freerange: every frame of lo..hi goes on the free list. */
    method FreeRange(lo: nat, hi: nat)
      requires Inv(V()) && lo <= hi && forall f :: lo <= f < hi ==> f in held
      modifies this
      ensures Inv(V()) && dirs == old(dirs) && SamePages(old(V()), V())
      ensures |free| == |old(free)| + (hi - lo) && forall f :: f in free <==> f in old(free) || lo <= f < hi
      ensures forall f :: f in held <==> f in old(held) && !(lo <= f < hi)
    {
      ghost var v := V();
      var p := lo;
      while p < hi
        invariant lo <= p <= hi && Inv(V()) && SamePages(v, V())
        invariant |free| == |v.free| + (p - lo) && forall f :: f in free <==> f in v.free || lo <= f < p
        invariant forall f :: f in held <==> f in v.held && !(lo <= f < p)
      {
        ghost var m := V();
        KfreeHeld(p);
        SamePagesOn(v, m, V());
        p := p + 1;
      }
    }

    ghost function V(): Vm
      reads this
    {
      Vm(free, mem, dirs, held)
    }

    /** kfree: the frame, filled with junk, becomes the head of the free list. */
    method Kfree(f: nat)
      requires f in mem
      modifies this
      ensures V() == Vm([f] + old(free), old(mem)[f := JunkPage()], old(dirs), old(held) - {f})
    {
      mem := mem[f := JunkPage()];
      free := [f] + free;
      held := held - {f};
    }

    /** kfree of a held frame changes no mapping. */
    method KfreeHeld(f: nat)
      requires Inv(V()) && f in held
      modifies this
      ensures V() == Vm([f] + old(free), old(mem)[f := JunkPage()], old(dirs), old(held) - {f})
      ensures Inv(V()) && SamePages(old(V()), V()) && SameTabs(old(V()), V()) && DataKept(old(V()), V())
    {
      HeldFreed(V(), f);
      Kfree(f);
      assert f in free;
    }

    /** kalloc: the head of the free list, if there is one. */
    method Kalloc() returns (ok: bool, f: nat)
      requires Inv(V())
      modifies this
      ensures Inv(V()) && (ok <==> old(free) != []) && (!ok ==> V() == old(V()))
      ensures ok ==> f == old(free)[0] && f in mem && f !in old(held)
      ensures ok ==> V() == old(V()).(free := old(free)[1..], held := old(held) + {f})
      ensures SamePages(old(V()), V()) && SameTabs(old(V()), V()) && DataKept(old(V()), V())
    {
      ghost var v := V();
      ok, f := free != [], 0;
      if ok {
        AllocInv(v);
        f := free[0];
        assert f in free;
        free := free[1..];
        held := held + {f};
        SameDirPages(v, V());
      }
    }

    /** Overwriting a held frame (memset, memmove). */
    method Fill(f: nat, c: Frame)
      requires Inv(V()) && f in held
      modifies `mem
      ensures Inv(V()) && V() == old(V()).(mem := old(mem)[f := c])
      ensures SamePages(old(V()), V()) && SameTabs(old(V()), V())
    {
      WriteHeld(V(), f, c);
      SameDirPages(V(), V().(mem := mem[f := c]));
      mem := mem[f := c];
    }

    /** walkpgdir: the table for page a, made if `alloc`; false where it returns 0. */
    method WalkPgdir(d: nat, a: nat, alloc: bool) returns (ok: bool, t: nat)
      requires Inv(V()) && d in dirs && a < NPAGES
      modifies this
      ensures Inv(V()) && SamePages(old(V()), V()) && TabsGrow(old(V()), V(), d) && DataKept(old(V()), V()) && held == old(held)
      ensures ok ==> TabAt(V(), d, a / NENT) == t && IsTable(V(), t) && Ent(V(), d, a / NENT) == Pte(t, W + U)
      ensures ok <==> old(TabAt(V(), d, a / NENT)) != -1 || (alloc && old(free) != [])
      ensures !ok || old(TabAt(V(), d, a / NENT)) != -1 ==> V() == old(V())
      ensures mem.Keys == old(mem.Keys) && FreeTail(old(free), free)
      ensures ok ==> OneTab(old(V()), V(), d, a / NENT)
    {
      ghost var v := V();
      assert IsTable(V(), d);
      var pde := mem[d].ptes[a / NENT];
      ok, t := true, 0;
      if pde.Pte? {
        t := pde.frame;
        assert Flagged(V(), d, a / NENT);
        assert Has(V(), d, Tab(a / NENT), t);
        return;
      }
      if !alloc {
        return false, 0;
      }
      ok, t := Kalloc();
      if ok {
        InstallTable(d, a / NENT, t);
        assert Flagged(V(), d, a / NENT);
      }
    }

    /** walkpgdir without allocation: the table for page a, if there is one. */
    method Lookup(d: nat, a: nat) returns (ok: bool, t: nat)
      requires Inv(V()) && d in dirs && a < NPAGES
      modifies this
      ensures V() == old(V()) && (ok <==> TabAt(V(), d, a / NENT) != -1)
      ensures ok ==> TabAt(V(), d, a / NENT) == t && IsTable(V(), t)
    {
      ok, t := WalkPgdir(d, a, false);
    }

    method InstallTable(d: nat, i: nat, t: nat)
      requires Inv(V()) && d in dirs && i < NENT && TabAt(V(), d, i) == -1 && t in held
      modifies `mem, `held
      ensures Inv(V()) && SamePages(old(V()), V()) && TabsGrow(old(V()), V(), d) && held == old(held) - {t}
      ensures TabAt(V(), d, i) == t && IsTable(V(), t) && mem.Keys == old(mem.Keys)
      ensures forall k :: 0 <= k < NENT && k != i ==> TabAt(V(), d, k) == TabAt(old(V()), d, k)
      ensures forall f :: f in old(mem) && f != t && old(mem)[f].Data? ==> mem[f] == old(mem)[f]
    {
      ghost var v := V();
      Fill(t, EmptyTable());
      ghost var m := V();
      assert IsTable(m, d);
      AddTable(m, SetEnt(m, d, i, Pte(t, W + U)).(held := held - {t}), d, i, t, W + U);
      mem := mem[d := Table(mem[d].ptes[i := Pte(t, W + U)])];
      held := held - {t};
      assert V() == SetEnt(m, d, i, Pte(t, W + U)).(held := m.held - {t});
      NewTablePages(v, m, V(), d, i, t);
    }

    /** One turn of mappages' loop: page a of d gets frame f.  A user page's frame
        passes from its holder to the directory.  A page that is mapped already is
        where the code panics. */
    method MapOne(d: nat, a: nat, f: nat, perm: nat) returns (how: Outcome)
      requires Inv(V()) && d in dirs && a < NPAGES
      requires a < USERPAGES ==> f in held && IsData(V(), f)
      modifies this
      ensures Grows(old(V()), V(), d)
      ensures how.Panics? <==> PteOf(old(V()), d, a).Pte?
      ensures how.Done? ==> OnePage(old(V()), V(), d, a, Pte(f, perm)) && held == old(held) - if a < USERPAGES then {f} else {}
      ensures !how.Done? ==> V() == old(V())
      ensures how.NoMemory? ==> free == [] && TabAt(V(), d, a / NENT) == -1
      ensures how.Done? ==> OneTab(old(V()), V(), d, a / NENT)
    {
      ghost var v := V();
      var ok, t := WalkPgdir(d, a, true);
      if !ok {
        return NoMemory;
      }
      ghost var m := V();
      assert PteOf(m, d, a) == PteOf(v, d, a);
      if mem[t].ptes[a % NENT].Pte? {
        return Panics;
      }
      EnterPage(d, a, t, f, perm, v);
      how := Done;
    }

    /** mappages' store, once the table is there. */
    method EnterPage(d: nat, a: nat, t: nat, f: nat, perm: nat, ghost v: Vm)
      requires Inv(V()) && d in dirs && a < NPAGES && PteOf(V(), d, a) == Absent && TabAt(V(), d, a / NENT) == t && IsTable(V(), t)
      requires (a < USERPAGES ==> f in held && IsData(V(), f)) && Grows(v, V(), d) && SamePages(v, V()) && OneTab(v, V(), d, a / NENT)
      modifies this
      ensures Grows(v, V(), d) && OnePage(v, V(), d, a, Pte(f, perm)) && held == old(held) - if a < USERPAGES then {f} else {}
      ensures OneTab(v, V(), d, a / NENT)
    {
      ghost var m := V();
      StoreMapping(d, a, t, f, perm);
      OnePageAfter(v, m, V(), d, a, Pte(f, perm));
      SameTab(v, m, V(), d, a / NENT);
      KeptOn(v, m, V(), d);
    }

    method StoreMapping(d: nat, a: nat, t: nat, f: nat, perm: nat)
      requires Inv(V()) && d in dirs && a < NPAGES && PteOf(V(), d, a) == Absent && TabAt(V(), d, a / NENT) == t && IsTable(V(), t)
      requires a < USERPAGES ==> f in held && IsData(V(), f)
      modifies `mem, `held
      ensures Inv(V()) && mem.Keys == old(mem.Keys) && OnePage(old(V()), V(), d, a, Pte(f, perm)) && SameTabs(old(V()), V())
      ensures held == old(held) - if a < USERPAGES then {f} else {}
      ensures forall g :: g in mem && old(mem)[g].Data? ==> mem[g] == old(mem)[g]
    {
      ghost var v := V();
      ghost var n := SetEnt(v, t, a % NENT, Pte(f, perm)).(held := held - if a < USERPAGES then {f} else {});
      if a < USERPAGES {
        MapUser(v, n, d, a / NENT, a % NENT, f, perm);
      } else {
        assert n == SetEnt(v, t, a % NENT, Pte(f, perm));
        MapKernel(v, n, d, a / NENT, a % NENT, Pte(f, perm));
      }
      OnePtePage(v, n, d, a, Pte(f, perm));
      mem := mem[t := Table(mem[t].ptes[a % NENT := Pte(f, perm)])];
      held := held - if a < USERPAGES then {f} else {};
    }

    /** mappages: pages first..last of d to consecutive frames from pa on.  Page `next`
        is the first that was not mapped: a table could not be had, or it is mapped
        already. */
    method MapPages(d: nat, first: nat, last: nat, pa: nat, perm: nat) returns (how: Outcome, next: nat, ghost done: nat)
      requires Inv(V()) && d in dirs && first <= last < NPAGES && AllOffered(V(), first, last, pa)
      modifies this
      ensures Mapping(old(V()), V(), d, first, done, pa, perm) && next == first + done && next <= last + 1
      ensures AllAbsent(old(V()), d, first, next)
      ensures how.Done? <==> next == last + 1
      ensures !how.Done? ==> (how.Panics? <==> PteOf(old(V()), d, next).Pte?)
      ensures how.NoMemory? ==> free == [] && TabAt(V(), d, next / NENT) == -1
      ensures Spent(old(V()), V(), d, first, next, 0)
    {
      SpentNone(V(), d, first);
      MappingNone(V(), d, first, pa, perm);
      var f;
      how, next, f, done := MapLoop(d, first, last, pa, perm, V());
    }

    /** The loop, up to page `next`. */
    method MapLoop(d: nat, first: nat, last: nat, pa: nat, perm: nat, ghost v: Vm) returns (how: Outcome, next: nat, f: nat, ghost done: nat)
      requires MapAt(v, V(), d, first, 0, pa, perm, first, pa) && d in v.dirs && first <= last < NPAGES && AllOffered(v, first, last, pa)
      modifies this
      ensures MapAt(v, V(), d, first, done, pa, perm, next, f) && next <= last + 1
      ensures how.Done? <==> next == last + 1
      ensures !how.Done? ==> (how.Panics? <==> PteOf(v, d, next).Pte?)
      ensures how.NoMemory? ==> free == [] && TabAt(V(), d, next / NENT) == -1
    {
      next, f, done, how := first, pa, 0, Done;
      while next <= last
        invariant first <= next <= last + 1 && how.Done?
        invariant MapAt(v, V(), d, first, done, pa, perm, next, f)
      {
        how, next, f, done := MapNext(d, next, f, perm, v, first, last, done, pa);
        if !how.Done? {
          return;
        }
      }
    }

    /** One turn of it: the next page and frame, or the same if this one was not to be
        had. */
    method MapNext(d: nat, a: nat, f: nat, perm: nat, ghost v: Vm, ghost first: nat, ghost last: nat, ghost k: nat, ghost pa: nat)
      returns (how: Outcome, next: nat, g: nat, ghost done: nat)
      requires d in v.dirs && a <= last < NPAGES && AllOffered(v, first, last, pa) && MapAt(v, V(), d, first, k, pa, perm, a, f)
      modifies this
      ensures how.Panics? <==> PteOf(v, d, a).Pte?
      ensures next == if how.Done? then a + 1 else a
      ensures MapAt(v, V(), d, first, done, pa, perm, next, g)
      ensures how.NoMemory? ==> free == [] && TabAt(V(), d, a / NENT) == -1
    {
      ghost var m := V();
      NextAbsent(v, m, d, first, k, pa, perm, a);
      NextOffered(v, first, last, pa, a, f);
      if a < USERPAGES {
        StillOffered(v, m, d, first, k, pa, perm);
      }
      how := MapOne(d, a, f, perm);
      if how.Done? {
        MapAtNext(v, m, V(), d, first, k, pa, perm, a, f);
        next, g, done := a + 1, f + 1, k + 1;
      } else {
        next, g, done := a, f, k;
      }
    }

    /** deallocuvm's inner step: free the frame of user page a and clear the entry. */
    method FreePage(d: nat, a: nat, t: nat)
      requires Inv(V()) && d in dirs && a < USERPAGES && TabAt(V(), d, a / NENT) == t && IsTable(V(), t)
      requires PteOf(V(), d, a).Pte?
      modifies this
      ensures Shrinks(old(V()), V()) && OnePage(old(V()), V(), d, a, Absent)
    {
      var f := mem[t].ptes[a % NENT].frame;
      PageFreeing(V(), d, a, t, f);
      held := held + {f};
      Kfree(f);
      mem := mem[t := Table(mem[t].ptes[a % NENT := Absent])];
    }

    /** deallocuvm: user pages from newsz up to oldsz go, whatever tables there are. */
    method DeallocUvm(d: nat, oldsz: nat, newsz: nat) returns (r: nat)
      requires Inv(V()) && d in dirs && oldsz <= KERNBASE
      modifies this
      ensures r == if newsz < oldsz then newsz else oldsz
      ensures Shrinks(old(V()), V()) && Cleared(old(V()), V(), d, Up(newsz), Up(oldsz))
    {
      ghost var v := V();
      if newsz >= oldsz {
        return oldsz;
      }
      var a := Up(newsz);
      ghost var upto := Min(a, Up(oldsz));
      while a * PGSIZE < oldsz
        invariant Up(newsz) <= a && upto == Min(a, Up(oldsz)) && Shrinks(v, V()) && Cleared(v, V(), d, Up(newsz), upto)
        decreases oldsz - a * PGSIZE
      {
        a, upto := DeallocStep(d, oldsz, a, v, Up(newsz));
      }
      r := newsz;
    }

    /** One turn of deallocuvm's loop: skip a missing table, or clear one page. */
    method DeallocStep(d: nat, oldsz: nat, a: nat, ghost v: Vm, ghost lo: nat) returns (next: nat, ghost upto: nat)
      requires d in v.dirs && oldsz <= KERNBASE && a * PGSIZE < oldsz && lo <= a && Shrinks(v, V()) && Cleared(v, V(), d, lo, a)
      modifies this
      ensures a < next && upto == Min(next, Up(oldsz)) && Shrinks(v, V()) && Cleared(v, V(), d, lo, upto)
    {
      PageBelow(a, oldsz);
      var ok, t := Lookup(d, a);
      ghost var m := V();
      if !ok {
        next := (a / NENT + 1) * NENT;
        upto := Min(next, Up(oldsz));
        SkipTable(v, m, d, lo, a, upto);
      } else {
        if mem[t].ptes[a % NENT].Pte? {
          FreePage(d, a, t);
        }
        next, upto := a + 1, a + 1;
        ClearNext(v, m, V(), d, lo, a, upto);
      }
    }

    /** allocuvm's inner step: a zeroed frame for user page a.  `got` is false when
        kalloc fails; when mappages does the frame is still held. */
    method AllocPage(d: nat, a: nat) returns (how: Outcome, got: bool, f: nat)
      requires Inv(V()) && d in dirs && a < USERPAGES
      modifies this
      ensures Grows(old(V()), V(), d) && (how.Panics? <==> got && PteOf(old(V()), d, a).Pte?)
      ensures !got ==> how.NoMemory? && V() == old(V()) && free == []
      ensures how.Done? ==> f in old(free) && f !in free && mem[f] == ZeroPage() && OnePage(old(V()), V(), d, a, Pte(f, W + U)) && held == old(held)
      ensures got && !how.Done? ==> SamePages(old(V()), V()) && f in old(free) && f !in old(held) && held == old(held) + {f}
      ensures how.Done? ==> PageTab(old(V()), V(), d, a / NENT)
      ensures got <==> old(free) != []
      ensures got && how.NoMemory? ==> |old(free)| == 1 && TabAt(old(V()), d, a / NENT) == -1
    {
      ghost var v := V();
      how := NoMemory;
      got, f := TakeFrame(ZeroPage());
      if got {
        ghost var m := V();
        assert PteOf(m, d, a) == PteOf(v, d, a) && TabAt(m, d, a / NENT) == TabAt(v, d, a / NENT);
        how := MapOne(d, a, f, W + U);
        PageAllocated(v, m, V(), d, a, f);
        if how.Done? {
          TabOfPage(v, m, V(), d, a / NENT);
        }
      }
    }

    /** kalloc, and fill the frame. */
    method TakeFrame(c: Frame) returns (ok: bool, f: nat)
      requires Inv(V())
      modifies this
      ensures Inv(V()) && (ok <==> old(free) != []) && (!ok ==> V() == old(V()))
      ensures ok ==> f == old(free)[0] && f in old(free) && f in mem && f !in old(held)
      ensures ok ==> V() == Vm(old(free)[1..], old(mem)[f := c], old(dirs), old(held) + {f})
      ensures SamePages(old(V()), V()) && SameTabs(old(V()), V())
    {
      ghost var v := V();
      ok, f := Kalloc();
      if ok {
        ghost var m := V();
        Fill(f, c);
        SamePagesOn(v, m, V());
      }
    }

    /** allocuvm.  When memory runs out the mappings are as before exactly if none of
        the pages between the sizes was mapped.  The code panics at the first of them
        that is. */
    method AllocUvm(d: nat, oldsz: nat, newsz: nat) returns (how: Outcome, r: nat)
      requires Inv(V()) && d in dirs && oldsz < UINT && newsz < UINT
      modifies this
      ensures Inv(V()) && Alloced(old(V()), V(), d, oldsz, newsz, how, r)
    {
      ghost var v := V();
      RestoredSelf(v, d);
      if newsz >= KERNBASE {
        return NoMemory, 0;
      }
      if newsz < oldsz {
        return Done, oldsz;
      }
      Rounded(oldsz, newsz);
      how := AllocLoop(d, oldsz, newsz, Up(oldsz), Up(newsz), v);
      r := if how.Done? then newsz else 0;
    }

    /** allocuvm's loop over pages lo..hi. */
    method AllocLoop(d: nat, oldsz: nat, newsz: nat, lo: nat, hi: nat, ghost v: Vm) returns (how: Outcome)
      requires V() == v && Inv(v) && d in v.dirs && PagesOf(oldsz, newsz, lo, hi) && lo <= hi <= USERPAGES
      modifies this
      ensures how.Done? ==> Growing(v, V(), d, lo, hi) && SpentTo(v, V(), d, lo, hi)
      ensures how.NoMemory? ==> Emptied(v, V(), d, lo, hi)
      ensures how.Panics? ==> Inv(V())
      ensures lo <= hi && AllocEnds(v, d, lo, hi, how)
    {
      RestoredSelf(v, d);
      SpentNone(v, d, lo);
      var a := lo;
      while a < hi
        invariant lo <= a <= hi && Growing(v, V(), d, lo, a)
        invariant SpentTo(v, V(), d, lo, a)
      {
        var next;
        how, next := AllocStep(d, oldsz, newsz, a, v, lo, hi);
        if !how.Done? {
          AllocStops(v, d, lo, hi, a, how);
          return;
        }
        a := next;
      }
      AllocDone(v, V(), d, lo, hi);
      how := Done;
    }

    /** One turn of allocuvm's loop, with the way out when memory runs out. */
    method AllocStep(d: nat, oldsz: nat, newsz: nat, a: nat, ghost v: Vm, ghost lo: nat, ghost hi: nat) returns (how: Outcome, next: nat)
      requires Inv(v) && d in v.dirs && PagesOf(oldsz, newsz, lo, hi) && lo <= a < hi && a < USERPAGES
      requires Growing(v, V(), d, lo, a) && SpentTo(v, V(), d, lo, a)
      modifies this
      ensures next == a + 1 && (how.Done? ==> Growing(v, V(), d, lo, next) && SpentTo(v, V(), d, lo, next))
      ensures how.NoMemory? ==> Emptied(v, V(), d, lo, hi) && Short(v, d, lo, a)
      ensures how.Panics? ==> Inv(V()) && PteOf(v, d, a).Pte? && |v.free| > Need(v, d, lo, a)
    {
      ghost var m := V();
      assert PteOf(m, d, a) == PteOf(v, d, a);
      next := a + 1;
      var got, f;
      how, got, f := AllocPage(d, a);
      if how.NoMemory? {
        ShortAt(v, m, d, lo, a);
        KeptOn(v, m, V(), d);
        StillGrown(v, m, V(), d, lo, a);
        TailFree(v, m, f);
        Rollback(d, oldsz, newsz, got, f, v, a, lo, hi);
      } else if how.Done? {
        AllocMore(v, m, V(), d, lo, a, next, f);
      }
    }

    /** deallocuvm, and kfree of the frame that could not be mapped. */
    method Rollback(d: nat, oldsz: nat, newsz: nat, got: bool, f: nat, ghost v: Vm, ghost a: nat, ghost lo: nat, ghost hi: nat)
      requires Inv(v) && d in v.dirs && PagesOf(oldsz, newsz, lo, hi) && a <= hi
      requires Grows(v, V(), d) && GrownBefore(v, V(), d, lo, a)
      requires if got then f in v.free && f !in v.held && held == v.held + {f} else held == v.held
      modifies this
      ensures Emptied(v, V(), d, lo, hi)
    {
      ghost var k := V();
      var r := DeallocUvm(d, newsz, oldsz);
      Undone(v, k, V(), d, lo, a, hi);
      if got {
        ghost var u := V();
        KfreeHeld(f);
        KfreeLast(v, u, V(), d, f, lo, hi);
      }
    }

    /** freevm: every frame the directory has goes back to the free list. */
    method FreeVm(d: nat)
      requires Inv(V()) && d in dirs
      modifies this
      ensures Inv(V()) && Dropped(old(V()), V(), d)
      ensures forall s, f :: Has(old(V()), d, s, f) ==> f in free
    {
      ghost var v := V();
      var r := DeallocUvm(d, KERNBASE, 0);
      ghost var m := V();
      assert IsTable(m, d);
      ghost var ptes := mem[d].ptes;
      OwnsTables(m, d, ptes);
      ghost var frames := {d} + Rest(ptes, 0);
      DropDir(m, m.(dirs := dirs - {d}, held := held + frames), d, frames);
      dirs := dirs - {d};
      held := held + frames;
      ghost var w := V();
      FreeTables(d, ptes, m);
      ghost var u := V();
      KfreeHeld(d);
      FreesOn(w, u, V());
      DroppedAll(v, m, w, V(), d);
    }

    /** freevm's last loop, with the directory given up. */
    method FreeTables(d: nat, ghost ptes: seq<Pte>, ghost m: Vm)
      requires Inv(V()) && d in mem && mem[d] == Table(ptes) && |ptes| == NENT && d !in Rest(ptes, 0) && d !in m.held
      requires held == m.held + ({d} + Rest(ptes, 0)) && Rest(ptes, 0) !! m.held
      requires forall x, y :: 0 <= x < y < NENT && ptes[x].Pte? && ptes[y].Pte? ==> ptes[x].frame != ptes[y].frame
      modifies this
      ensures Inv(V()) && held == m.held + {d} && Frees(old(V()), V())
    {
      ghost var w := V();
      var i := 0;
      while i < NENT
        invariant 0 <= i <= NENT && Inv(V()) && d in mem && mem[d] == Table(ptes) && Frees(w, V())
        invariant held == m.held + ({d} + Rest(ptes, i))
      {
        ghost var u := V();
        RestNext(ptes, i);
        if mem[d].ptes[i].Pte? {
          KfreeHeld(mem[d].ptes[i].frame);
          FreesOn(w, u, V());
        }
        i := i + 1;
      }
    }

    /** setupkvm.  `datap` is the page of the kernel symbol data.  On success a new
        directory with the kernel's mappings and no user page; on failure all frames
        are back.  It succeeds exactly if there are KFRAMES free frames, and takes
        that many. */
    method SetupKvm(datap: nat) returns (ok: bool, d: nat)
      requires Inv(V()) && KERNLINKP < datap < PHYSTOPP
      modifies this
      ensures Inv(V()) && (ok ==> Beside(old(V()), V(), d) && KernelMapped(V(), d, datap, 4)) && (!ok ==> Unchanged(old(V()), V()))
      ensures ok <==> |old(free)| >= KFRAMES
      ensures ok ==> CopyMade(old(V()), V(), d, 0) && |free| + KFRAMES == |old(free)|
    {
      ghost var v := V();
      ok, d := Kalloc();
      if !ok {
        UnchangedSelf(v);
        return;
      }
      StartDir(d, datap, v);
      var k := 0;
      while k < 4
        invariant 0 <= k <= 4 && ok && Inv(V()) && Beside(v, V(), d) && KernelMapped(V(), d, datap, k)
        invariant RowsMade(v, V(), d, datap, k)
      {
        ok, k := MapKernelRange(d, datap, k, v);
        if !ok {
          ghost var m := V();
          FreeVm(d);
          BesideDropped(v, m, V(), d);
          return;
        }
      }
      AllRows(v, V(), d, datap, k);
    }

    /** The new directory's frame is cleared. */
    method StartDir(d: nat, ghost datap: nat, ghost v: Vm)
      requires Inv(v) && v.free != [] && d == v.free[0]
      requires V() == v.(free := v.free[1..], held := v.held + {d}) && Inv(V()) && d in mem && d !in v.held
      modifies this
      ensures Inv(V()) && Beside(v, V(), d) && KernelMapped(V(), d, datap, 0) && RowsMade(v, V(), d, datap, 0)
    {
      ghost var w := V();
      assert SamePages(v, w) && SameTabs(v, w);
      Fill(d, EmptyTable());
      ghost var m := V();
      NewDir(m, d);
      dirs := dirs + {d};
      held := held - {d};
      Started(v, w, m, V(), d, datap);
      NoRows(v, V(), d, datap);
    }

    /** One turn of setupkvm's loop: a row of kmap. */
    method MapKernelRange(d: nat, datap: nat, k: nat, ghost v: Vm) returns (ok: bool, row: nat)
      requires Inv(V()) && Beside(v, V(), d) && k < 4 && KernelMapped(V(), d, datap, k) && KERNLINKP < datap < PHYSTOPP
      requires RowsMade(v, V(), d, datap, k)
      modifies this
      ensures Inv(V()) && Beside(v, V(), d) && row == k + 1
      ensures ok ==> KernelMapped(V(), d, datap, row) && RowsMade(v, V(), d, datap, row)
      ensures !ok ==> |v.free| < KFRAMES
    {
      ghost var m := V();
      var e := Kmap(datap)[k];
      RangeEmpty(m, d, datap, k);
      var size := (e.end - e.start) % NPAGES;
      ghost var hi := e.virt + size;
      KmapRow(datap, k, hi);
      row := k + 1;
      var next;
      ok, next := MapRow(d, e.virt, size, e.start, e.perm, v, hi);
      if ok {
        RangeMapped(m, V(), d, datap, k);
        RowMade(v, m, V(), d, datap, k, e.virt, hi);
      } else {
        RowShort(v, m, V(), d, datap, k, e.virt, hi, next);
      }
    }

    /** mappages for a stretch of kernel pages that are not mapped. */
    method MapRow(d: nat, first: nat, size: nat, pa: nat, perm: nat, ghost v: Vm, ghost hi: nat) returns (ok: bool, next: nat)
      requires Inv(V()) && Beside(v, V(), d) && USERPAGES <= first < hi <= NPAGES && hi == first + size && AllAbsent(V(), d, first, hi)
      modifies this
      ensures Inv(V()) && Beside(v, V(), d) && first <= next <= hi && (ok <==> next == hi)
      ensures Spent(old(V()), V(), d, first, next, 0) && (ok ==> Ranged(old(V()), V(), d, first, size, pa, perm))
      ensures !ok ==> free == [] && TabAt(V(), d, next / NENT) == -1
    {
      ghost var m := V();
      ghost var done;
      var how;
      how, next, done := MapPages(d, first, first + size - 1, pa, perm);
      NoneGiven(m, V(), first, done, pa);
      BesideMapped(v, m, V(), d, first, done, pa, perm);
      ok := how.Done?;
    }

    /** copyuvm's inner step: page a of d copied to a frame of c. */
    method CopyPage(d: nat, c: nat, a: nat, ghost v: Vm, ghost datap: nat) returns (ok: bool, next: nat)
      requires Inv(v) && d in v.dirs && Inv(V()) && Beside(v, V(), c) && a < USERPAGES && PteOf(v, d, a).Pte?
      requires Copied(v, V(), d, c, a) && KernelKept(V(), c, datap) && CopyMade(v, V(), c, a)
      modifies this
      ensures Inv(V()) && Beside(v, V(), c) && next == a + 1
      ensures ok ==> Copied(v, V(), d, c, next) && KernelKept(V(), c, datap) && CopyMade(v, V(), c, next)
      ensures !ok ==> |v.free| < CopyNeed(next)
    {
      ghost var m := V();
      CopySource(v, m, d, c, a);
      next := a + 1;
      var f, pte;
      ok, f, pte := CopyFrame(d, a);
      if !ok {
        CopyShort(v, m, c, a, next);
        return;
      }
      ghost var w := V();
      assert PteOf(w, c, a) == PteOf(m, c, a) && TabAt(w, c, a / NENT) == TabAt(m, c, a / NENT);
      var how := MapOne(c, a, f, pte.flags);
      ok := how.Done?;
      if !ok {
        CopyShort(v, m, c, a, next);
        KfreeHeld(f);
        CopyFailed(v, m, w, V(), c, f, pte.frame);
      } else {
        CopyMapped(v, m, w, V(), d, c, a, next, f, pte);
        CopyKernel(m, w, V(), c, a, Pte(f, pte.flags), datap);
        CopyMadeNext(v, m, w, V(), c, a, next);
      }
    }

    /** A frame with the contents of page a of d. */
    method CopyFrame(d: nat, a: nat) returns (ok: bool, f: nat, pte: Pte)
      requires Inv(V()) && d in dirs && a < NPAGES && PteOf(V(), d, a).Pte? && PteOf(V(), d, a).frame !in free
      requires PteOf(V(), d, a).frame in mem && TabAt(V(), d, a / NENT) != -1
      modifies this
      ensures Inv(V()) && pte == PteOf(old(V()), d, a)
      ensures if ok then Taken(old(V()), V(), f, pte.frame) else V() == old(V()) && free == []
    {
      ghost var m := V();
      var got, t := Lookup(d, a);
      pte := mem[t].ptes[a % NENT];
      ok, f := TakeFrame(mem[pte.frame]);
      if ok {
        CopyTaken(m, V(), f, pte.frame);
      }
    }

    /** copyuvm: a new directory with the kernel's mappings, whose user pages below sz
        are copies of d's.  The code panics exactly at the first page of those that d
        lacks, if memory lasts until it comes there. */
    method CopyUvm(d: nat, sz: nat, datap: nat) returns (how: Outcome, c: nat)
      requires Inv(V()) && d in dirs && sz <= KERNBASE && KERNLINKP < datap < PHYSTOPP
      modifies this
      ensures Inv(V())
      ensures how.Done? ==> Beside(old(V()), V(), c) && Copied(old(V()), V(), d, c, Up(sz)) && KernelKept(V(), c, datap)
      ensures how.NoMemory? ==> Unchanged(old(V()), V())
      ensures CopyEnds(old(V()), d, Up(sz), how)
    {
      ghost var v := V();
      var ok;
      ok, c := SetupKvm(datap);
      if !ok {
        CopyNone(v, d, Up(sz));
        return NoMemory, c;
      }
      var i := 0;
      while i * PGSIZE < sz
        invariant 0 <= i <= Up(sz) && Copying(v, V(), d, c, i, datap) && CopyMade(v, V(), c, i)
      {
        PageBelow(i, sz);
        how, i := CopyStep(d, c, i, v, datap, Up(sz));
        if !how.Done? {
          return how, c;
        }
      }
      CopyAll(v, V(), d, c, i);
      how := Done;
    }

    /** One turn of copyuvm's loop, with the way out when memory runs out. */
    method CopyStep(d: nat, c: nat, a: nat, ghost v: Vm, ghost datap: nat, ghost hi: nat) returns (how: Outcome, next: nat)
      requires Inv(v) && d in v.dirs && a < USERPAGES && a < hi && Copying(v, V(), d, c, a, datap) && CopyMade(v, V(), c, a)
      modifies this
      ensures Inv(V()) && next == a + 1
      ensures how.Done? ==> Copying(v, V(), d, c, next, datap) && CopyMade(v, V(), c, next)
      ensures how.NoMemory? ==> Unchanged(v, V())
      ensures !how.Done? ==> CopyEnds(v, d, hi, how)
    {
      ghost var k := V();
      assert PteOf(k, d, a) == PteOf(v, d, a);
      next := a + 1;
      var there := Present(d, a);
      if !there {
        CopyLeft(v, k, c, a);
        CopyStops(v, k, d, c, hi, a, Panics);
        return Panics, next;
      }
      var ok;
      ok, next := CopyPage(d, c, a, v, datap);
      if ok {
        return Done, next;
      }
      CopyStops(v, k, d, c, hi, a, NoMemory);
      ghost var m := V();
      FreeVm(c);
      BesideDropped(v, m, V(), c);
      how := NoMemory;
    }

    /** The present bit of page a. */
    method Present(d: nat, a: nat) returns (yes: bool)
      requires Inv(V()) && d in dirs && a < NPAGES
      modifies this
      ensures V() == old(V()) && (yes <==> PteOf(V(), d, a).Pte?)
    {
      var ok, t := Lookup(d, a);
      yes := ok && mem[t].ptes[a % NENT].Pte?;
    }
  }
}
