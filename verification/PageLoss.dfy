/** A call of allocuvm that loses a page: nothing in vm.c keeps a caller from giving a
    size below which a page is not mapped and above which one is. */
module PageLoss {
  import opened PageSpec
  import opened PageViews
  import opened PageCounts
  import opened PageTables

  /** The frames 0..n. */
  function Frames(n: nat): (r: set<nat>)
    ensures forall f: nat :: f in r <==> f < n
  {
    if n == 0 then {} else Frames(n - 1) + {n - 1}
  }

  /** A directory with no user page, and two free frames. */
  method TwoLeft() returns (m: Memory, d: nat)
    ensures fresh(m) && Inv(m.V()) && d in m.dirs && |m.free| == 2 && AllAbsent(m.V(), d, 0, USERPAGES) && TabAt(m.V(), d, 0) == -1
  {
    m := new Memory(Frames(KFRAMES + 2));
    m.FreeRange(0, KFRAMES + 2);
    var datap := KERNLINKP + 1;
    var ok;
    ok, d := m.SetupKvm(datap);
    assert TabAt(m.V(), d, 0) == -1;
    forall a | 0 <= a < USERPAGES
      ensures PteOf(m.V(), d, a) == Absent
    {
      assert PteOf(m.V(), d, a) == KernelPte(datap, a, 4);
    }
  }

  /** The second page of such a directory takes both frames. */
  method SecondPage(m: Memory, d: nat)
    requires Inv(m.V()) && d in m.dirs && |m.free| == 2 && AllAbsent(m.V(), d, 0, USERPAGES) && TabAt(m.V(), d, 0) == -1
    modifies m
    ensures Inv(m.V()) && d in m.dirs && m.free == [] && PteOf(m.V(), d, 0) == Absent && PteOf(m.V(), d, 1).Pte?
  {
    ghost var v := m.V();
    assert PteOf(v, d, 0) == Absent && PteOf(v, d, 1) == Absent;
    assert Missing(v, d, 1, 1) == 0 && Missing(v, d, 1, 2) == 1;
    var how, r := m.AllocUvm(d, 4096, 8192);
    assert NewPage(v, m.V(), PteOf(m.V(), d, 1));
  }

  /** Growing it from nothing to two pages fails, and unmaps the page it had. */
  method RollbackLoses() returns (m: Memory, d: nat, how: Outcome, ghost before: Vm)
    ensures Inv(before) && d in before.dirs && PteOf(before, d, 1).Pte?
    ensures how.NoMemory? && Emptied(before, m.V(), d, 0, 2) && PteOf(m.V(), d, 1) == Absent && !Restored(before, m.V(), d)
  {
    m, d := TwoLeft();
    SecondPage(m, d);
    before := m.V();
    assert FirstMapped(before, d, 0, 2) == 1;
    var r;
    how, r := m.AllocUvm(d, 0, 8192);
    RestoredIff(before, m.V(), d, 0, 2);
  }
}
