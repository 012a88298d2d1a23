/** growproc, fork, exec and the end of a process, as they change the page directories
    and sizes of all processes. */
module AddressSpaces {
  import opened PageSpec
  import opened PageViews
  import opened PageCounts
  import opened PageTables
  import opened SpaceSpec
  import opened ExecSpec

  const INT: int := 0x8000_0000

  /** sz + n as an unsigned 32-bit number. */
  function Plus(sz: nat, n: int): (r: nat)
    requires sz < KERNBASE && -INT <= n < INT
    ensures r < UINT
  {
    if sz + n >= 0 then sz + n else UINT + sz + n
  }

  /** A successful growproc by n changes the size sz. */
  predicate Moves(sz: nat, n: int) {
    n > 0 || (n < 0 && sz + n > 0)
  }

  /** The live processes by their page directories, with their sizes. */
  class Processes {
    const memory: Memory
    const datap: nat
    var size: map<nat, nat>
    ghost var hollow: set<nat>

    ghost predicate Valid()
      reads this, memory
    {
      KERNLINKP < datap < PHYSTOPP && Spaces(memory.V(), size, hollow)
    }

    /** Boot: memory is there and no process is. */
    constructor (m: Memory, dp: nat)
      requires Inv(m.V()) && KERNLINKP < dp < PHYSTOPP
      ensures Valid() && memory == m && size == map[] && hollow == {}
    {
      memory, datap, size, hollow := m, dp, map[], {};
    }

    /** userinit and inituvm: a process of one page.  It panics without frames for a
        directory; NoMemory is where inituvm would go on without its page. */
    method UserInit() returns (how: Outcome, d: nat)
      requires Valid()
      modifies this, memory
      ensures how.Panics? <==> |old(memory.free)| < KFRAMES
      ensures how.Done? <==> |old(memory.free)| >= KFRAMES + 2
      ensures how.Done? ==> Valid() && d !in old(size) && size == old(size)[d := PGSIZE] && hollow == old(hollow)
    {
      ghost var v := memory.V();
      var ok;
      ok, d := memory.SetupKvm(datap);
      if !ok {
        return Panics, 0;
      }
      NewSpace(v, memory.V(), size, hollow, d, datap);
      how := InitUvm(d);
    }

    method InitUvm(d: nat) returns (how: Outcome)
      requires Valid() && d in memory.dirs && d !in size && Exact(memory.V(), d, 0) && TabAt(memory.V(), d, 0) == -1
      modifies this, memory
      ensures !how.Panics? && (how.Done? <==> |old(memory.free)| >= 2)
      ensures how.Done? ==> Valid() && size == old(size)[d := PGSIZE] && hollow == old(hollow)
    {
      ghost var m := memory.V();
      assert PteOf(m, d, 0) == Absent;
      var got, f;
      how, got, f := memory.AllocPage(d, 0);
      if how.Done? {
        FirstPage(m, memory.V(), size, hollow, d, f);
        size := size[d := PGSIZE];
      }
    }

    /** growproc.  It never panics, a failure leaves every mapping as it was, and every
        size keeps saying which pages there are: but when all memory is given back it
        frees the pages, reports failure and leaves the size. */
    method GrowProc(d: nat, n: int) returns (ok: bool)
      requires Valid() && d in size && -INT <= n < INT
      modifies this, memory
      ensures Valid() && OthersSame(old(memory.V()), memory.V(), size, d)
      ensures hollow == old(hollow) + if n < 0 && old(size)[d] + n == 0 then {d} else {}
      ensures size == if ok && Moves(old(size)[d], n) then old(size)[d := Plus(old(size)[d], n)] else old(size)
      ensures !ok && !(n < 0 && old(size)[d] + n == 0) ==> SamePages(old(memory.V()), memory.V())
      ensures n > 0 ==> (ok <==> Room(old(memory.V()), d, old(size)[d], Plus(old(size)[d], n)))
      ensures n <= 0 ==> (ok <==> n == 0 || (old(size)[d] > 0 && old(size)[d] + n != 0))
    {
      var newsz := Plus(size[d], n);
      assert Fits(memory.V(), d, size[d], d in hollow);
      if n > 0 {
        ok := Grow(d, newsz);
      } else if n < 0 {
        ok := Shrink(d, newsz);
      } else {
        ok := true;
      }
    }

    method Grow(d: nat, newsz: nat) returns (ok: bool)
      requires Valid() && d in size && size[d] < newsz < UINT
      modifies this, memory
      ensures Valid() && OthersSame(old(memory.V()), memory.V(), old(size), d) && hollow == old(hollow)
      ensures size == (if ok then old(size)[d := newsz] else old(size)) && (!ok ==> SamePages(old(memory.V()), memory.V()))
      ensures ok <==> Room(old(memory.V()), d, old(size)[d], newsz)
    {
      ghost var v := memory.V();
      var how, r := memory.AllocUvm(d, size[d], newsz);
      GrowEnds(v, memory.V(), size, hollow, d, newsz, how, r);
      assert !how.Panics?;
      ok := r != 0;
      if ok {
        size := size[d := r];
      }
    }

    method Shrink(d: nat, newsz: nat) returns (ok: bool)
      requires Valid() && d in size && (newsz > 0 || size[d] > 0)
      modifies this, memory
      ensures Valid() && OthersSame(old(memory.V()), memory.V(), old(size), d)
      ensures hollow == old(hollow) + if newsz == 0 then {d} else {}
      ensures size == if 0 < newsz < old(size)[d] then old(size)[d := newsz] else old(size)
      ensures ok <==> newsz > 0 && old(size)[d] > 0
      ensures newsz >= old(size)[d] ==> SamePages(old(memory.V()), memory.V())
    {
      ghost var v := memory.V();
      assert Fits(v, d, size[d], d in hollow);
      var r := memory.DeallocUvm(d, size[d], newsz);
      ShrinkEnds(v, memory.V(), size, hollow, d, newsz, r);
      ok := r != 0;
      if newsz == 0 {
        hollow := hollow + {d};
      }
      if ok {
        size := size[d := r];
        assert r == old(size)[d] ==> size == old(size);
      }
    }

    /** fork's copy of the address space.  It panics for a hollow process only. */
    method Fork(d: nat) returns (how: Outcome, c: nat)
      requires Valid() && d in size
      modifies this, memory
      ensures how.Panics? <==> d in hollow && |old(memory.free)| >= KFRAMES
      ensures how.Done? <==> d !in hollow && |old(memory.free)| >= CopyNeed(Up(old(size)[d]))
      ensures hollow == old(hollow) && (!how.Panics? ==> Valid())
      ensures how.Done? ==> c !in old(size) && size == old(size)[c := old(size)[d]] && OthersSame(old(memory.V()), memory.V(), old(size), c)
      ensures how.Done? ==> Copied(old(memory.V()), memory.V(), d, c, Up(size[d]))
      ensures how.NoMemory? ==> size == old(size) && Unchanged(old(memory.V()), memory.V())
    {
      ghost var v := memory.V();
      assert Fits(v, d, size[d], d in hollow);
      FirstOf(v, d, size[d], d in hollow);
      how, c := memory.CopyUvm(d, size[d], datap);
      if how.Done? {
        CopiedSpace(v, memory.V(), size, hollow, d, c);
        size := size[c := size[d]];
      } else if how.NoMemory? {
        SpacesSame(v, memory.V(), size, hollow);
      }
    }

    /** exec's memory: a new directory for the image, and the old one freed; if the
        image cannot be had, nothing has changed.  `args` says whether the arguments
        could be pushed on the new stack. */
    method Exec(d: nat, segs: seq<Segment>, args: bool) returns (ok: bool, c: nat)
      requires Valid() && d in size
      modifies this, memory
      ensures Valid() && (ok <==> args && Runs(segs, |old(memory.free)|))
      ensures ok ==> c !in old(size) && size == (old(size) - {d})[c := ImageSize(segs)] && hollow == old(hollow) - {d}
      ensures ok ==> OthersSame(old(memory.V()), memory.V(), old(size), d)
      ensures !ok ==> size == old(size) && hollow == old(hollow) && Unchanged(old(memory.V()), memory.V())
    {
      ghost var v := memory.V();
      ok, c := memory.SetupKvm(datap);
      if !ok {
        UpMore(0, ImageSize(segs));
        SpacesSame(v, memory.V(), size, hollow);
        return;
      }
      NewSpace(v, memory.V(), size, hollow, c, datap);
      EmptyImage(v, memory.V(), c);
      var sz;
      ok, sz := Build(c, segs, args, v);
      if ok {
        ImageSpace(v, memory.V(), size, hollow, c, sz);
        Replace(d, c, sz);
      } else {
        ghost var m := memory.V();
        memory.FreeVm(c);
        NearDropped(v, m, memory.V(), c);
        SpacesSame(v, memory.V(), size, hollow);
      }
    }

    /** The segments, then two pages at the next page boundary. */
    method Build(c: nat, segs: seq<Segment>, args: bool, ghost v: Vm) returns (ok: bool, sz: nat)
      requires ImageAt(v, memory.V(), c, 0)
      modifies memory
      ensures ok <==> args && Runs(segs, |v.free|)
      ensures ok ==> sz == ImageSize(segs) && ImageAt(v, memory.V(), c, sz)
      ensures !ok ==> Inv(memory.V()) && Near(v, memory.V(), c)
    {
      ok, sz := Load(c, segs, v);
      if ok {
        var base := Up(sz) * PGSIZE;
        ImageRounded(v, memory.V(), c, sz, base);
        RunsWhen(segs, |v.free|, sz, base);
        ok, sz := Extend(c, base, base + 2 * PGSIZE, v);
        if ok && !args {
          BesideNear(v, memory.V(), c);
          ok := false;
        }
      }
    }

    /** The process's directory becomes c, and the old one is freed. */
    method Replace(d: nat, c: nat, sz: nat)
      requires KERNLINKP < datap < PHYSTOPP && Spaces(memory.V(), size[c := sz], hollow) && d in size && c !in size
      modifies this, memory
      ensures Valid() && size == (old(size) - {d})[c := sz] && hollow == old(hollow) - {d} && OthersSame(old(memory.V()), memory.V(), old(size), d)
    {
      ghost var n := memory.V();
      memory.FreeVm(d);
      SpacesWithout(n, memory.V(), size[c := sz], hollow, d);
      size := size[c := sz] - {d};
      hollow := hollow - {d};
    }

    /** exec's loop over the program headers. */
    method Load(c: nat, segs: seq<Segment>, ghost v: Vm) returns (ok: bool, sz: nat)
      requires ImageAt(v, memory.V(), c, 0)
      modifies memory
      ensures ok ==> sz == Top(segs) && Loadable(segs) && ImageAt(v, memory.V(), c, sz)
      ensures !ok ==> !Runs(segs, |v.free|) && Inv(memory.V()) && Near(v, memory.V(), c)
    {
      ok, sz := true, 0;
      var i := 0;
      while i < |segs|
        invariant 0 <= i <= |segs| && ok && sz == Top(segs[..i]) && GoodTo(segs, i) && ImageAt(v, memory.V(), c, sz)
      {
        ok, sz, i := LoadNext(c, segs, i, sz, v);
        if !ok {
          return;
        }
      }
      assert segs[..i] == segs;
    }

    method LoadNext(c: nat, segs: seq<Segment>, i: nat, sz: nat, ghost v: Vm) returns (ok: bool, r: nat, next: nat)
      requires i < |segs| && sz == Top(segs[..i]) && GoodTo(segs, i) && ImageAt(v, memory.V(), c, sz)
      modifies memory
      ensures next == i + 1 && (ok ==> r == Top(segs[..next]) && GoodTo(segs, next) && ImageAt(v, memory.V(), c, r))
      ensures !ok ==> !Runs(segs, |v.free|) && Inv(memory.V()) && Near(v, memory.V(), c)
    {
      NextTop(segs, i);
      next := i + 1;
      ok, r := LoadSegment(c, segs[i], sz, v);
      if ok {
        GoodNext(segs, i, |v.free|);
      } else {
        StopsAt(segs, i, |v.free|);
      }
    }

    /** One program header.  The pages that loaduvm fills are there: it cannot panic. */
    method LoadSegment(c: nat, s: Segment, sz: nat, ghost v: Vm) returns (ok: bool, r: nat)
      requires ImageAt(v, memory.V(), c, sz)
      modifies memory
      ensures ok <==> Loads(s) && Affords(sz, End(s), |v.free|)
      ensures ok ==> r == Max(sz, End(s)) && ImageAt(v, memory.V(), c, r)
      ensures ok ==> Mapped(memory.V(), c, s)
      ensures !ok ==> Inv(memory.V()) && Near(v, memory.V(), c)
    {
      BesideNear(v, memory.V(), c);
      if s.memsz < s.filesz || End(s) >= UINT {
        return false, 0;
      }
      ok, r := Extend(c, sz, End(s), v);
      if ok {
        BesideNear(v, memory.V(), c);
        SegmentThere(memory.V(), c, s, r);
        ok := s.vaddr % PGSIZE == 0 && s.readable;
      }
    }

    /** allocuvm on the new directory. */
    method Extend(c: nat, sz: nat, newsz: nat, ghost v: Vm) returns (ok: bool, r: nat)
      requires ImageAt(v, memory.V(), c, sz) && newsz < UINT
      modifies memory
      ensures ok <==> Affords(sz, newsz, |v.free|)
      ensures ok ==> r == Max(sz, newsz) && ImageAt(v, memory.V(), c, r)
      ensures !ok ==> Inv(memory.V()) && Near(v, memory.V(), c)
    {
      ghost var m := memory.V();
      var how;
      how, r := memory.AllocUvm(c, sz, newsz);
      Extended(v, m, memory.V(), c, sz, newsz, how, r);
      assert !how.Panics?;
      ok := r != 0;
    }

    /** freevm of a process that wait has found dead. */
    method Reap(d: nat)
      requires Valid() && d in size
      modifies this, memory
      ensures Valid() && size == old(size) - {d} && hollow == old(hollow) - {d} && OthersSame(old(memory.V()), memory.V(), old(size), d)
      ensures d !in memory.dirs
    {
      ghost var v := memory.V();
      memory.FreeVm(d);
      SpacesWithout(v, memory.V(), size, hollow, d);
      size := size - {d};
      hollow := hollow - {d};
    }
  }
}
