/** Address spaces of processes: a page directory and a size, and which user pages the
    one has for the other. */
module SpaceSpec {
  import opened PageSpec
  import opened PageViews
  import opened PageCounts

  /** The user pages of d are the pages below hi. */
  ghost predicate Exact(v: Vm, d: int, hi: nat) {
    (forall a :: 0 <= a < hi ==> PteOf(v, d, a).Pte?) && AllAbsent(v, d, hi, USERPAGES)
  }

  /** What is left when growproc has freed everything and kept the size: page 0 is
      missing.  There is still nothing from hi on. */
  ghost predicate Hollow(v: Vm, d: int, hi: nat) {
    hi > 0 && PteOf(v, d, 0) == Absent && AllAbsent(v, d, hi, USERPAGES)
  }

  ghost predicate Fits(v: Vm, d: int, sz: nat, hollow: bool) {
    sz < KERNBASE && if hollow then Hollow(v, d, Up(sz)) else Exact(v, d, Up(sz))
  }

  /** Every process has the user pages its size says, but for the hollow ones. */
  ghost predicate Spaces(v: Vm, size: map<nat, nat>, hollow: set<nat>) {
    && Inv(v) && hollow <= size.Keys <= v.dirs
    && forall d :: d in size ==> Fits(v, d, size[d], d in hollow)
  }

  ghost predicate UserSame(v: Vm, n: Vm, e: int) {
    forall a :: 0 <= a < USERPAGES ==> PteOf(n, e, a) == PteOf(v, e, a)
  }

  /** Every process but d has the user pages it had. */
  ghost predicate OthersSame(v: Vm, n: Vm, size: map<nat, nat>, d: int) {
    forall e :: e in size && e != d ==> UserSame(v, n, e)
  }

  lemma UpBelow(sz: nat)
    requires sz < KERNBASE
    ensures Up(sz) <= USERPAGES && (Up(sz) == 0 <==> sz == 0)
  {
  }

  lemma SameFits(v: Vm, n: Vm, e: int, sz: nat, hollow: bool)
    requires Fits(v, e, sz, hollow) && UserSame(v, n, e)
    ensures Fits(n, e, sz, hollow)
  {
    UpBelow(sz);
  }

  /** One process changed, or is new. */
  lemma SpacesOn(v: Vm, n: Vm, size: map<nat, nat>, hollow: set<nat>, d: nat, sz: nat, now: set<nat>)
    requires Spaces(v, size, hollow) && Inv(n) && size.Keys <= n.dirs && d in n.dirs && OthersSame(v, n, size, d)
    requires Fits(n, d, sz, d in now) && forall e :: e != d ==> (e in now <==> e in hollow)
    ensures Spaces(n, size[d := sz], now)
  {
    forall e | e in size && e != d
      ensures Fits(n, e, size[e], e in hollow)
    {
      SameFits(v, n, e, size[e], e in hollow);
    }
  }

  /** No process changed. */
  lemma SpacesSame(v: Vm, n: Vm, size: map<nat, nat>, hollow: set<nat>)
    requires Spaces(v, size, hollow) && Inv(n) && size.Keys <= n.dirs && OthersSame(v, n, size, -1)
    ensures Spaces(n, size, hollow)
  {
    forall e | e in size
      ensures Fits(n, e, size[e], e in hollow)
    {
      SameFits(v, n, e, size[e], e in hollow);
    }
  }

  /** One process is gone. */
  lemma SpacesWithout(v: Vm, n: Vm, size: map<nat, nat>, hollow: set<nat>, d: nat)
    requires Spaces(v, size, hollow) && Inv(n) && size.Keys - {d} <= n.dirs && OthersSame(v, n, size, d)
    ensures Spaces(n, size - {d}, hollow - {d})
  {
    forall e | e in size && e != d
      ensures Fits(n, e, size[e], e in hollow)
    {
      SameFits(v, n, e, size[e], e in hollow);
    }
  }

  // ----- userinit -----------------------------------------------------------

  /** A directory with the kernel's mappings has no user page. */
  lemma NewSpace(v: Vm, n: Vm, size: map<nat, nat>, hollow: set<nat>, d: nat, datap: nat)
    requires Spaces(v, size, hollow) && Inv(n) && Beside(v, n, d) && KernelMapped(n, d, datap, 4)
    ensures Exact(n, d, 0) && d !in size && OthersSame(v, n, size, d) && Spaces(n, size, hollow)
  {
    forall a | 0 <= a < USERPAGES
      ensures PteOf(n, d, a) == Absent
    {
      assert PteOf(n, d, a) == KernelPte(datap, a, 4);
    }
    SpacesSame(v, n, size, hollow);
  }

  lemma FirstPage(m: Vm, n: Vm, size: map<nat, nat>, hollow: set<nat>, d: nat, f: nat)
    requires Spaces(m, size, hollow) && Exact(m, d, 0) && d in m.dirs && d !in size && Grows(m, n, d) && OnePage(m, n, d, 0, Pte(f, W + U))
    ensures Spaces(n, size[d := PGSIZE], hollow)
  {
    assert Up(PGSIZE) == 1;
    forall a | 0 <= a < USERPAGES
      ensures PteOf(n, d, a) == if a == 0 then Pte(f, W + U) else Absent
    {
      assert PteOf(m, d, a) == Absent;
    }
    SpacesOn(m, n, size, hollow, d, PGSIZE, hollow);
  }

  // ----- growproc -----------------------------------------------------------

  lemma GrownSpace(v: Vm, n: Vm, size: map<nat, nat>, hollow: set<nat>, d: nat, sz: nat)
    requires Spaces(v, size, hollow) && d in size && size[d] <= sz < KERNBASE && Grows(v, n, d)
    requires Grown(v, n, d, Up(size[d]), Up(sz))
    ensures Spaces(n, size[d := sz], hollow) && OthersSame(v, n, size, d)
  {
    UpBelow(size[d]);
    UpBelow(sz);
    GrownFits(v, n, d, Up(size[d]), Up(sz), d in hollow);
    SpacesOn(v, n, size, hollow, d, sz, hollow);
  }

  lemma GrownFits(v: Vm, n: Vm, d: nat, lo: nat, hi: nat, hollow: bool)
    requires d in v.dirs && lo <= hi <= USERPAGES && Grown(v, n, d, lo, hi) && if hollow then Hollow(v, d, lo) else Exact(v, d, lo)
    ensures if hollow then Hollow(n, d, hi) else Exact(n, d, hi)
  {
    forall a | 0 <= a < USERPAGES
      ensures PteOf(n, d, a).Pte? <==> lo <= a < hi || PteOf(v, d, a).Pte?
    {
      if lo <= a < hi {
        assert NewPage(v, n, PteOf(n, d, a));
      }
    }
  }

  /** Pages from newsz on are cleared; the size becomes sz. */
  lemma ClearedSpace(v: Vm, n: Vm, size: map<nat, nat>, hollow: set<nat>, d: nat, newsz: nat, sz: nat)
    requires Spaces(v, size, hollow) && d in size && newsz < size[d] && Shrinks(v, n) && Cleared(v, n, d, Up(newsz), Up(size[d]))
    requires sz == if newsz == 0 then size[d] else newsz
    ensures Spaces(n, size[d := sz], hollow + if newsz == 0 then {d} else {}) && OthersSame(v, n, size, d)
  {
    UpBelow(size[d]);
    UpBelow(newsz);
    var now := hollow + if newsz == 0 then {d} else {};
    assert Fits(n, d, sz, d in now) by {
      forall a | 0 <= a < USERPAGES
        ensures PteOf(n, d, a) == if Up(newsz) <= a < Up(size[d]) then Absent else PteOf(v, d, a)
      {
      }
    }
    SpacesOn(v, n, size, hollow, d, sz, now);
  }

  lemma ShrinkEnds(v: Vm, n: Vm, size: map<nat, nat>, hollow: set<nat>, d: nat, newsz: nat, r: nat)
    requires Spaces(v, size, hollow) && d in size && Shrinks(v, n) && Cleared(v, n, d, Up(newsz), Up(size[d]))
    requires newsz > 0 || size[d] > 0
    requires r == if newsz < size[d] then newsz else size[d]
    ensures Spaces(n, if r != 0 then size[d := r] else size, hollow + if newsz == 0 then {d} else {}) && OthersSame(v, n, size, d)
    ensures newsz >= size[d] ==> SamePages(v, n)
  {
    if newsz < size[d] {
      ClearedSpace(v, n, size, hollow, d, newsz, if newsz == 0 then size[d] else newsz);
    } else {
      assert SamePages(v, n);
      SameSpace(v, n, size, hollow);
    }
    assert size == size[d := size[d]] && hollow + {} == hollow;
  }

  lemma SameSpace(v: Vm, n: Vm, size: map<nat, nat>, hollow: set<nat>)
    requires Spaces(v, size, hollow) && Inv(n) && SamePages(v, n)
    ensures Spaces(n, size, hollow) && forall d :: OthersSame(v, n, size, d)
  {
    SpacesSame(v, n, size, hollow);
  }

  /** Nothing is lost when allocuvm runs out of memory. */
  lemma EmptiedSpace(v: Vm, n: Vm, size: map<nat, nat>, hollow: set<nat>, d: nat, newsz: nat)
    requires Spaces(v, size, hollow) && d in size && size[d] <= newsz < KERNBASE && Emptied(v, n, d, Up(size[d]), Up(newsz))
    ensures SamePages(v, n) && Spaces(n, size, hollow) && OthersSame(v, n, size, d)
  {
    AboveAbsent(v, d, size[d], newsz, d in hollow);
    RestoredIff(v, n, d, Up(size[d]), Up(newsz));
    SameSpace(v, n, size, hollow);
  }

  /** There is address space and memory to grow to newsz. */
  ghost predicate Room(v: Vm, d: int, sz: nat, newsz: nat) {
    newsz < KERNBASE && |v.free| >= Need(v, d, Up(sz), Up(newsz))
  }

  /** growproc's allocuvm meets no mapped page. */
  lemma AboveAbsent(v: Vm, d: int, sz: nat, newsz: nat, hollow: bool)
    requires Fits(v, d, sz, hollow) && sz <= newsz < KERNBASE
    ensures Up(sz) <= Up(newsz) <= USERPAGES && AllAbsent(v, d, Up(sz), Up(newsz)) && FirstMapped(v, d, Up(sz), Up(newsz)) == Up(newsz)
  {
    Rounded(sz, newsz);
    var a := FirstMapped(v, d, Up(sz), Up(newsz));
    assert a < Up(newsz) ==> PteOf(v, d, a) == Absent;
  }

  lemma GrowEnds(v: Vm, n: Vm, size: map<nat, nat>, hollow: set<nat>, d: nat, newsz: nat, how: Outcome, r: nat)
    requires Spaces(v, size, hollow) && d in size && size[d] < newsz && Alloced(v, n, d, size[d], newsz, how, r)
    ensures !how.Panics? && (r != 0 <==> Room(v, d, size[d], newsz)) && OthersSame(v, n, size, d)
    ensures if r != 0 then r == newsz && Spaces(n, size[d := r], hollow) else Spaces(n, size, hollow) && SamePages(v, n)
  {
    if newsz < KERNBASE {
      AboveAbsent(v, d, size[d], newsz, d in hollow);
      if how.Done? {
        GrownSpace(v, n, size, hollow, d, newsz);
      } else {
        EmptiedSpace(v, n, size, hollow, d, newsz);
      }
    }
  }

  // ----- fork ---------------------------------------------------------------

  /** copyuvm misses a page exactly of a hollow process, and then the first. */
  lemma FirstOf(v: Vm, d: int, sz: nat, hollow: bool)
    requires Fits(v, d, sz, hollow)
    ensures FirstAbsent(v, d, 0, Up(sz)) == if hollow then 0 else Up(sz)
  {
    var a := FirstAbsent(v, d, 0, Up(sz));
    if hollow {
      assert a > 0 ==> PteOf(v, d, 0).Pte?;
    } else {
      assert a < Up(sz) ==> PteOf(v, d, a).Pte?;
    }
  }

  lemma CopiedSpace(v: Vm, n: Vm, size: map<nat, nat>, hollow: set<nat>, d: nat, c: nat)
    requires Spaces(v, size, hollow) && d in size && Inv(n) && Beside(v, n, c) && Copied(v, n, d, c, Up(size[d]))
    ensures c !in size && Spaces(n, size[c := size[d]], hollow) && OthersSame(v, n, size, c)
  {
    forall a | 0 <= a < Up(size[d])
      ensures PteOf(n, c, a).Pte?
    {
      assert CopyAt(v, n, d, c, a);
    }
    SpacesOn(v, n, size, hollow, c, size[d], hollow);
  }
}
