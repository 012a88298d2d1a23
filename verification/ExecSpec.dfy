/** The memory image that exec builds: its size, what it costs, and the new directory
    while it grows. */
module ExecSpec {
  import opened PageSpec
  import opened PageViews
  import opened PageCounts
  import opened SpaceSpec

  /** A loadable program header; `readable` says whether loaduvm can read all of it. */
  datatype Segment = Segment(vaddr: nat, memsz: nat, filesz: nat, readable: bool)

  function End(s: Segment): nat {
    s.vaddr + s.memsz
  }

  /** The highest end of a segment. */
  function Top(segs: seq<Segment>): nat {
    if segs == [] then 0 else Max(Top(segs[..|segs| - 1]), End(segs[|segs| - 1]))
  }

  /** exec's checks of one segment. */
  predicate Loads(s: Segment) {
    s.filesz <= s.memsz && s.vaddr % PGSIZE == 0 && s.readable
  }

  /** allocuvm can take the image from size sz to newsz with f frames for all of it;
      exec reads a size of 0 as a failure. */
  predicate Affords(sz: nat, newsz: nat, f: nat) {
    newsz < KERNBASE && (sz > 0 || newsz > 0) && f >= CopyNeed(Up(Max(sz, newsz)))
  }

  /** The first k segments are good; the very first does not end at address 0. */
  predicate GoodTo(segs: seq<Segment>, k: nat) {
    && k <= |segs| && (forall i :: 0 <= i < k ==> Loads(segs[i]) && End(segs[i]) < KERNBASE)
    && (k > 0 ==> End(segs[0]) > 0)
  }

  predicate Loadable(segs: seq<Segment>) {
    GoodTo(segs, |segs|)
  }

  /** The segments, rounded up, a guard page and a stack page. */
  function ImageSize(segs: seq<Segment>): nat {
    Up(Top(segs)) * PGSIZE + 2 * PGSIZE
  }

  /** The image can be had with f free frames. */
  predicate Runs(segs: seq<Segment>, f: nat) {
    Loadable(segs) && ImageSize(segs) < KERNBASE && f >= CopyNeed(Up(ImageSize(segs)))
  }

  lemma {:induction false} Prefixes(segs: seq<Segment>, i: nat)
    requires i <= |segs|
    ensures Top(segs[..i]) <= Top(segs)
    decreases |segs|
  {
    if i < |segs| {
      var init := segs[..|segs| - 1];
      Prefixes(init, i);
      assert init[..i] == segs[..i];
    } else {
      assert segs[..i] == segs;
    }
  }

  lemma NextTop(segs: seq<Segment>, i: nat)
    requires i < |segs|
    ensures Top(segs[..i + 1]) == Max(Top(segs[..i]), End(segs[i]))
    ensures i > 0 && End(segs[0]) > 0 ==> Top(segs[..i]) > 0
  {
    assert segs[..i + 1][..i] == segs[..i];
    if i > 0 {
      Prefixes(segs[..i], 1);
      assert segs[..i][..1] == [segs[0]];
    }
  }

  /** What stops at one segment stops the image. */
  lemma StopsAt(segs: seq<Segment>, i: nat, f: nat)
    requires i < |segs| && !(Loads(segs[i]) && Affords(Top(segs[..i]), End(segs[i]), f))
    ensures !Runs(segs, f)
  {
    NextTop(segs, i);
    Prefixes(segs, i + 1);
    UpMore(Top(segs[..i + 1]), ImageSize(segs));
  }

  lemma GoodNext(segs: seq<Segment>, i: nat, f: nat)
    requires i < |segs| && GoodTo(segs, i) && Loads(segs[i]) && Affords(Top(segs[..i]), End(segs[i]), f)
    ensures GoodTo(segs, i + 1)
  {
  }

  lemma RunsWhen(segs: seq<Segment>, f: nat, sz: nat, base: nat)
    requires Loadable(segs) && sz == Top(segs) && base == Up(sz) * PGSIZE
    ensures Runs(segs, f) <==> Affords(base, base + 2 * PGSIZE, f)
  {
  }

  lemma UpMore(a: nat, b: nat)
    requires a <= b || a <= Up(b) * PGSIZE
    ensures Up(a) <= Up(b) && CopyNeed(Up(a)) <= CopyNeed(Up(b))
  {
    CopyMore(Up(a), Up(b));
  }

  // ----- the new directory --------------------------------------------------

  /** Directory c has the pages for size sz, of frames that were free in v. */
  ghost predicate ImageAt(v: Vm, n: Vm, c: int, sz: nat) {
    Inv(n) && Beside(v, n, c) && sz <= KERNBASE && Exact(n, c, Up(sz)) && CopyMade(v, n, c, Up(sz))
  }

  /** As Beside, after frames have come back. */
  ghost predicate Near(v: Vm, n: Vm, c: int) {
    && c !in v.dirs && n.dirs == v.dirs + {c} && n.held == v.held && n.mem.Keys == v.mem.Keys && DataKept(v, n)
    && (forall f :: f in n.free ==> f in v.free)
    && (forall e, k :: e in v.dirs && 0 <= k < NENT ==> TabAt(n, e, k) == TabAt(v, e, k))
    && (forall e, b :: e in v.dirs && 0 <= b < NPAGES ==> PteOf(n, e, b) == PteOf(v, e, b))
  }

  lemma NearDropped(v: Vm, m: Vm, n: Vm, c: int)
    requires Near(v, m, c) && Dropped(m, n, c)
    ensures Unchanged(v, n)
  {
    forall e, b | e in n.dirs && 0 <= b < NPAGES
      ensures PteOf(n, e, b) == PteOf(v, e, b)
    {
      assert PteOf(n, e, b) == PteOf(m, e, b);
    }
    forall e, k | e in n.dirs && 0 <= k < NENT
      ensures TabAt(n, e, k) == TabAt(v, e, k)
    {
      assert TabAt(n, e, k) == TabAt(m, e, k);
    }
  }

  lemma BesideNear(v: Vm, n: Vm, c: int)
    requires Beside(v, n, c)
    ensures Near(v, n, c)
  {
  }

  /** A frame that is free after a failed allocuvm was free before. */
  lemma StillFree(m: Vm, n: Vm, c: int, f: nat)
    requires Inv(m) && Restored(m, n, c) && f in n.free
    ensures f in m.free
  {
    if Owned(m, f) {
      var e, s :| Has(m, e, s, f);
      RestoredSlot(m, n, c, e, s);
      assert Has(n, e, s, f);
    }
  }

  lemma NearRestored(v: Vm, m: Vm, n: Vm, c: int)
    requires Beside(v, m, c) && Inv(m) && Restored(m, n, c)
    ensures Near(v, n, c)
  {
    forall f | f in n.free
      ensures f in v.free
    {
      StillFree(m, n, c, f);
    }
    forall e, b | e in v.dirs && 0 <= b < NPAGES
      ensures PteOf(n, e, b) == PteOf(v, e, b)
    {
      assert PteOf(n, e, b) == PteOf(m, e, b);
    }
    forall e, k | e in v.dirs && 0 <= k < NENT
      ensures TabAt(n, e, k) == TabAt(v, e, k)
    {
      assert TabAt(n, e, k) == TabAt(m, e, k);
    }
  }

  lemma BesideGrown(v: Vm, m: Vm, n: Vm, c: int, lo: nat, hi: nat)
    requires Beside(v, m, c) && Grows(m, n, c) && Grown(m, n, c, lo, hi) && n.held == m.held
    ensures Beside(v, n, c)
  {
    assert forall f :: f in m.free ==> f in v.free;
    forall e, b | e in v.dirs && 0 <= b < NPAGES
      ensures PteOf(n, e, b) == PteOf(v, e, b)
    {
      assert PteOf(n, e, b) == PteOf(m, e, b);
    }
    forall e, k | e in v.dirs && 0 <= k < NENT
      ensures TabAt(n, e, k) == TabAt(v, e, k)
    {
      assert TabAt(n, e, k) == TabAt(m, e, k);
    }
  }

  // ----- frames -------------------------------------------------------------

  /** Growing the image from lo to hi pages takes the difference. */
  lemma ImageNeed(v: Vm, m: Vm, c: int, lo: nat, hi: nat)
    requires CopyMade(v, m, c, lo) && lo <= hi <= USERPAGES
    ensures Need(m, c, lo, hi) == CopyNeed(hi) - CopyNeed(lo)
  {
    TablesNext(lo);
    forall i | lo / NENT <= i && i * NENT < hi
      ensures TabAt(m, c, i) != -1 <==> i < Tables(lo)
    {
      assert 0 <= i < 512;
    }
    MissingFrom(m, c, lo, hi, Tables(lo));
  }

  lemma ImageMade(v: Vm, m: Vm, n: Vm, c: int, lo: nat, hi: nat)
    requires CopyMade(v, m, c, lo) && lo <= hi <= USERPAGES && SpentTo(m, n, c, lo, hi)
    ensures CopyMade(v, n, c, hi)
  {
    ImageNeed(v, m, c, lo, hi);
    forall i | 0 <= i < NENT
      ensures TabAt(n, c, i) != -1 <==> i < Tables(hi) || 512 <= i < 568 || 1016 <= i < 1024
    {
      TablesNext(lo);
    }
  }

  lemma ImageGrown(v: Vm, m: Vm, n: Vm, c: nat, sz: nat, newsz: nat)
    requires ImageAt(v, m, c, sz) && sz <= newsz < KERNBASE && Grows(m, n, c) && n.held == m.held
    requires Grown(m, n, c, Up(sz), Up(newsz)) && SpentTo(m, n, c, Up(sz), Up(newsz))
    ensures ImageAt(v, n, c, newsz)
  {
    Rounded(sz, newsz);
    BesideGrown(v, m, n, c, Up(sz), Up(newsz));
    GrownFits(m, n, c, Up(sz), Up(newsz), false);
    ImageMade(v, m, n, c, Up(sz), Up(newsz));
  }

  /** allocuvm on the image is done exactly if the frames last. */
  lemma ImageRoom(v: Vm, m: Vm, c: nat, sz: nat, newsz: nat, how: Outcome)
    requires ImageAt(v, m, c, sz) && sz <= newsz < KERNBASE && Up(sz) <= Up(newsz) && AllocEnds(m, c, Up(sz), Up(newsz), how)
    ensures !how.Panics? && (how.Done? && newsz > 0 <==> Affords(sz, newsz, |v.free|)) && AllAbsent(m, c, Up(sz), Up(newsz))
  {
    assert Max(sz, newsz) == newsz;
    AboveAbsent(m, c, sz, newsz, false);
    ImageNeed(v, m, c, Up(sz), Up(newsz));
    CopyLeft(v, m, c, Up(sz));
  }

  lemma Extended(v: Vm, m: Vm, n: Vm, c: nat, sz: nat, newsz: nat, how: Outcome, r: nat)
    requires ImageAt(v, m, c, sz) && Alloced(m, n, c, sz, newsz, how, r)
    ensures !how.Panics? && (r != 0 <==> Affords(sz, newsz, |v.free|))
    ensures r != 0 ==> r == Max(sz, newsz) && ImageAt(v, n, c, r)
    ensures r == 0 ==> Inv(n) && Near(v, n, c)
  {
    BesideNear(v, m, c);
    if newsz < KERNBASE && sz <= newsz {
      ImageRoom(v, m, c, sz, newsz, how);
      if how.Done? {
        ImageGrown(v, m, n, c, sz, newsz);
        BesideNear(v, n, c);
      } else {
        ImageFails(v, m, n, c, sz, newsz);
      }
    } else if newsz < KERNBASE {
      CopyLeft(v, m, c, Up(sz));
      assert Max(sz, newsz) == sz;
    }
  }

  lemma ImageFails(v: Vm, m: Vm, n: Vm, c: nat, sz: nat, newsz: nat)
    requires ImageAt(v, m, c, sz) && sz <= newsz < KERNBASE && Emptied(m, n, c, Up(sz), Up(newsz)) && AllAbsent(m, c, Up(sz), Up(newsz))
    ensures Near(v, n, c)
  {
    Rounded(sz, newsz);
    RestoredIff(m, n, c, Up(sz), Up(newsz));
    NearRestored(v, m, n, c);
  }

  /** The pages of segment s that loaduvm fills are there. */
  ghost predicate Mapped(n: Vm, c: int, s: Segment) {
    forall a :: s.vaddr / PGSIZE <= a < Up(s.vaddr + s.filesz) ==> PteOf(n, c, a).Pte?
  }

  lemma SegmentThere(n: Vm, c: int, s: Segment, sz: nat)
    requires Exact(n, c, Up(sz)) && s.filesz <= s.memsz && End(s) <= sz
    ensures Mapped(n, c, s)
  {
    UpMore(s.vaddr + s.filesz, sz);
  }

  lemma EmptyImage(v: Vm, n: Vm, c: nat)
    requires Inv(n) && Beside(v, n, c) && Exact(n, c, 0) && CopyMade(v, n, c, 0)
    ensures ImageAt(v, n, c, 0)
  {
    assert Up(0) == 0;
  }

  lemma ImageRounded(v: Vm, n: Vm, c: nat, sz: nat, base: nat)
    requires ImageAt(v, n, c, sz) && base == Up(sz) * PGSIZE
    ensures base <= KERNBASE && ImageAt(v, n, c, base)
  {
    assert Up(base) == Up(sz);
  }

  /** The image is a process's address space. */
  lemma ImageSpace(v: Vm, n: Vm, size: map<nat, nat>, hollow: set<nat>, c: nat, sz: nat)
    requires Spaces(v, size, hollow) && ImageAt(v, n, c, sz) && sz < KERNBASE
    ensures c !in size && Spaces(n, size[c := sz], hollow) && OthersSame(v, n, size, c)
  {
    SpacesOn(v, n, size, hollow, c, sz, hollow);
  }
}
