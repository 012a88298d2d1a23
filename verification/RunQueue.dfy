/** push, pop and remove of proc.c, in place on the arrays face, back and queue.
    The queue array is the flat memory C gives it, so that index -1 of a row is
    the last slot of the row before. */
module RunQueue {
  import opened RingSpec

  class RunQueue {
    const face: array<int>
    const back: array<int>
    const cells: array<int>     // queue[i][j] is cells[i * NPROC + j]

    ghost predicate Valid()
      reads this, face, back, cells
    {
      && face.Length == NQUEUE && back.Length == NQUEUE && cells.Length == NQUEUE * NPROC
      && face != back && face != cells && back != cells
      && QueuesOk(Contents())
    }

    ghost function RingAt(i: int): Ring
      requires face.Length == NQUEUE && back.Length == NQUEUE && cells.Length == NQUEUE * NPROC
      requires 0 <= i < NQUEUE
      reads face, back, cells
    {
      Ring(face[i], back[i], cells[i * NPROC..i * NPROC + NPROC])
    }

    ghost function Contents(): (qs: Queues)
      requires face.Length == NQUEUE && back.Length == NQUEUE && cells.Length == NQUEUE * NPROC
      reads this, face, back, cells
      ensures |qs| == NQUEUE && forall i :: 0 <= i < NQUEUE ==> qs[i] == RingAt(i)
    {
      [RingAt(0), RingAt(1), RingAt(2), RingAt(3), RingAt(4)]
    }

    /** main(): every queue empty. */
    constructor ()
      ensures Valid() && fresh(face) && fresh(back) && fresh(cells)
      ensures forall i :: 0 <= i < NQUEUE ==> Window(Contents()[i]) == []
    {
      face := new int[NQUEUE](_ => -1);
      back := new int[NQUEUE](_ => -1);
      cells := new int[NQUEUE * NPROC](_ => -1);     // null pointers
    }

    /** queue[i][j] */
    function At(i: int, j: int): (p: int)
      requires cells.Length == NQUEUE * NPROC && face.Length == NQUEUE && back.Length == NQUEUE
      requires 0 <= i < NQUEUE && 0 <= j < NPROC
      reads this, face, back, cells
      ensures p == RingAt(i).row[j]
    {
      cells[i * NPROC + j]
    }

    /** Is p in slots lo..hi of row i?  Returns its first slot. */
    method Find(i: nat, p: int, lo: int, hi: int) returns (m: int)
      requires Valid() && i < NQUEUE && 0 <= lo && hi < NPROC
      ensures m == -1 || lo <= m <= hi
      ensures m != -1 ==> At(i, m) == p
      ensures forall j :: lo <= j <= hi && (m == -1 || j < m) ==> At(i, j) != p
    {
      var j := lo;
      while j <= hi
        invariant lo <= j
        invariant forall x :: lo <= x <= hi && x < j ==> At(i, x) != p
        decreases hi - j
      {
        if At(i, j) == p {
          return j;
        }
        j := j + 1;
      }
      m := -1;
    }

    /** The slot of p's first live occurrence in a queue that is not empty, or -1:
        face to back, or face to the end of the row and then its start. */
    method FindLive(i: nat, p: int) returns (m: int)
      requires Valid() && i < NQUEUE && face[i] != -1
      ensures m == -1 <==> p !in Window(RingAt(i))
      ensures m != -1 ==> 0 <= m < NPROC && RingAt(i).Dist(m) == IndexOf(Window(RingAt(i)), p)
    {
      ghost var r := RingAt(i);
      if face[i] <= back[i] {
        m := Find(i, p, face[i], back[i]);
      } else {
        m := Find(i, p, face[i], NPROC - 1);
        if m == -1 {
          m := Find(i, p, 0, back[i]);
        }
      }
      assert forall j :: 0 <= j < NPROC ==> r.row[j] == At(i, j);
      FirstSlot(r, p, m);
    }

    /** The slot found first from face is the one of the first live occurrence. */
    static lemma FirstSlot(r: Ring, p: int, m: int)
      requires r.Ok() && r.face != -1
      requires m == -1 ==> forall j :: 0 <= j < NPROC && r.Dist(j) < r.Len() ==> r.row[j] != p
      requires m != -1 ==> 0 <= m < NPROC && r.row[m] == p && r.Dist(m) < r.Len()
      requires m != -1 ==> forall j :: 0 <= j < NPROC && r.Dist(j) < r.Dist(m) ==> r.row[j] != p
      ensures m == -1 <==> p !in Window(r)
      ensures m != -1 ==> IndexOf(Window(r), p) == r.Dist(m)
    {
      var k := IndexOf(Window(r), p);
      forall x | 0 <= x < r.Len()
        ensures r.Dist(r.Slot(x)) == x
      {
      }
      if m != -1 {
        assert r.Slot(r.Dist(m)) == m;
        assert Window(r)[r.Dist(m)] == p;
      }
    }

    /** push()'s scan of queue i. */
    method Scan(i: nat, p: int, below: int) returns (hit: bool)
      requires Valid() && i < NQUEUE
      ensures hit <==> ScanHits(Contents(), i, p, below)
    {
      if face[i] == -1 {
        // face[i] <= back[i], and the loop's only turn has j == -1
        if i == 0 {
          return below == p;
        }
        assert CellBefore(Contents(), i, below) == At(i - 1, NPROC - 1);
        return cells[i * NPROC - 1] == p;
      }
      var m := FindLive(i, p);
      hit := m != -1;
    }

    /** push(): returns whether p was appended. */
    method Push(a: nat, p: int, below: int) returns (pushed: bool)
      requires Valid() && a < NQUEUE
      modifies face, back, cells
      ensures Valid()
      ensures Contents() == Pushed(old(Contents()), a, p, below)
      ensures pushed <==> Contents() == old(Contents())[a := Append(old(Contents())[a], p)]
    {
      assert Append(RingAt(a), p) != RingAt(a);
      if face[a] != -1 {
        var i := 0;
        while i < NQUEUE
          invariant 0 <= i <= NQUEUE
          invariant forall k :: 0 <= k < i ==> !ScanHits(Contents(), k, p, below)
          modifies {}
        {
          var hit := Scan(i, p, below);
          if hit {
            return false;
          }
          i := i + 1;
        }
        if face[a] == back[a] + 1 || (face[a] == 0 && back[a] == NPROC - 1) {
          return false;
        }
      }
      AppendTo(a, p);
      pushed := true;
    }

    /** The end of push(), from the label on. */
    method AppendTo(a: nat, p: int)
      requires Valid() && a < NQUEUE
      modifies face, back, cells
      ensures Valid()
      ensures Contents() == old(Contents())[a := Append(old(Contents())[a], p)]
    {
      if face[a] == -1 {
        face[a] := 0;
      }
      back[a] := (back[a] + 1) % NPROC;
      cells[a * NPROC + back[a]] := p;
      OneRowChanged(a, old(Contents()), Append(old(Contents())[a], p));
    }

    lemma OneRowChanged(a: nat, before: Queues, r: Ring)
      requires face.Length == NQUEUE && back.Length == NQUEUE && cells.Length == NQUEUE * NPROC
      requires a < NQUEUE && |before| == NQUEUE
      requires RingAt(a) == r
      requires forall i :: 0 <= i < NQUEUE && i != a ==> RingAt(i) == before[i]
      ensures Contents() == before[a := r]
    {
    }

    /** pop(): -1 stands for the null process. */
    method Pop(a: nat) returns (p: int)
      requires Valid() && a < NQUEUE
      modifies face, back
      ensures Valid()
      ensures old(face[a]) == -1 ==> p == -1 && Contents() == old(Contents())
      ensures old(face[a]) != -1 ==>
                && Contents() == old(Contents())[a := TakeFirst(old(Contents())[a])]
                && Window(old(Contents())[a]) == [p] + Window(Contents()[a])
    {
      if face[a] == -1 {
        return -1;
      }
      TakeFirstWindow(RingAt(a));
      p := cells[a * NPROC + face[a]];
      if face[a] != back[a] {
        face[a] := face[a] + 1;
        face[a] := face[a] % NPROC;
      } else {
        face[a] := -1;
        back[a] := -1;
      }
      OneRowChanged(a, old(Contents()), TakeFirst(old(Contents())[a]));
    }

    /** queue[i][j] = queue[i][j-1] for j from hi down to lo + 1. */
    method ShiftUp(i: nat, lo: nat, hi: nat)
      requires face.Length == NQUEUE && back.Length == NQUEUE && cells.Length == NQUEUE * NPROC
      requires cells != face && cells != back
      requires i < NQUEUE && lo <= hi < NPROC
      modifies cells
      ensures RingAt(i) == old(RingAt(i)).(row := ShiftedUp(old(RingAt(i)).row, lo, hi))
      ensures forall k :: 0 <= k < NQUEUE && k != i ==> RingAt(k) == old(RingAt(k))
    {
      ghost var was := cells[..];
      ShiftFlat(i * NPROC + lo, i * NPROC + hi);
      ShiftWithinRow(was, i, lo, hi);
      assert forall k :: 0 <= k < NQUEUE ==> RingAt(k).row == cells[..][k * NPROC..k * NPROC + NPROC];
      assert forall k :: 0 <= k < NQUEUE ==> old(RingAt(k)).row == was[k * NPROC..k * NPROC + NPROC];
    }

    method ShiftFlat(lo: nat, hi: nat)
      requires lo <= hi < cells.Length
      modifies cells
      ensures cells[..] == ShiftedUp(old(cells[..]), lo, hi)
    {
      ghost var was := cells[..];
      var j := hi;
      while j >= lo + 1
        invariant lo <= j <= hi
        invariant cells[..] == ShiftedUp(was, j, hi)
      {
        ShiftStep(was, j, hi);
        ghost var now := cells[..];
        assert now[j - 1] == was[j - 1];
        cells[j] := cells[j - 1];
        assert cells[..] == now[j := was[j - 1]];
        j := j - 1;
      }
    }

    /** remove(): shift the entries before p over it, for each layout of the ring. */
    method Remove(i: nat, p: int)
      requires Valid() && i < NQUEUE
      modifies face, back, cells
      ensures Valid()
      ensures Contents() == old(Contents())[i := Removed(old(Contents())[i], p)]
    {
      ghost var r := RingAt(i);
      if face[i] == back[i] {
        face[i] := -1;
        back[i] := -1;
        OneRowChanged(i, old(Contents()), Removed(r, p));
        return;
      }
      var m := FindLive(i, p);
      if m == -1 {
        return;
      }
      MoveOver(i, m);
    }

    /** The shifting half of remove(), once the slot is known. */
    method MoveOver(i: nat, m: nat)
      requires Valid() && i < NQUEUE && m < NPROC
      requires face[i] != back[i] && RingAt(i).Dist(m) < RingAt(i).Len()
      modifies face, cells
      ensures Valid()
      ensures Contents() == old(Contents())[i := DeleteAt(old(Contents())[i], old(RingAt(i).Dist(m)))]
    {
      ghost var r := RingAt(i);
      ShiftEntries(i, m);
      face[i] := face[i] + 1;
      face[i] := face[i] % NPROC;
      OneRowChanged(i, old(Contents()), DeleteAt(r, r.Dist(m)));
    }

    method ShiftEntries(i: nat, m: nat)
      requires Valid() && i < NQUEUE && m < NPROC && face[i] != -1
      requires RingAt(i).Dist(m) < RingAt(i).Len()
      modifies cells
      ensures RingAt(i) == old(RingAt(i)).(row := DeleteAt(old(RingAt(i)), old(RingAt(i).Dist(m))).row)
      ensures forall k :: 0 <= k < NQUEUE && k != i ==> RingAt(k) == old(RingAt(k))
    {
      DeleteRow(RingAt(i), m);
      if m == face[i] {
      } else if m > face[i] {
        ShiftUp(i, face[i], m);
      } else {
        ShiftUp(i, 0, m);
        SetFirst(i);
        ShiftUp(i, face[i], NPROC - 1);
      }
    }

    /** The turn of the shifting loop with j == 0: the last slot wraps around. */
    method SetFirst(i: nat)
      requires face.Length == NQUEUE && back.Length == NQUEUE && cells.Length == NQUEUE * NPROC
      requires cells != face && cells != back && i < NQUEUE
      modifies cells
      ensures RingAt(i) == old(RingAt(i)).(row := old(RingAt(i)).row[0 := old(RingAt(i)).row[NPROC - 1]])
      ensures forall k :: 0 <= k < NQUEUE && k != i ==> RingAt(k) == old(RingAt(k))
    {
      cells[i * NPROC] := cells[i * NPROC + NPROC - 1];
      assert RingAt(i).row == old(RingAt(i)).row[0 := old(RingAt(i)).row[NPROC - 1]];
    }
  }

  function ShiftedUp(row: seq<int>, lo: nat, hi: nat): seq<int>
    requires lo <= hi < |row|
  {
    row[..lo + 1] + row[lo..hi] + row[hi + 1..]
  }

  lemma ShiftStep(was: seq<int>, j: nat, hi: nat)
    requires 0 < j <= hi < |was|
    ensures ShiftedUp(was, j, hi)[j - 1] == was[j - 1]
    ensures ShiftedUp(was, j, hi)[j := was[j - 1]] == ShiftedUp(was, j - 1, hi)
  {
  }

  /** A shift inside row i of the flat array is a shift of that row alone. */
  lemma ShiftWithinRow(was: seq<int>, i: nat, lo: nat, hi: nat)
    requires |was| == NQUEUE * NPROC && i < NQUEUE && lo <= hi < NPROC
    ensures var now := ShiftedUp(was, i * NPROC + lo, i * NPROC + hi);
            && now[i * NPROC..i * NPROC + NPROC] == ShiftedUp(was[i * NPROC..i * NPROC + NPROC], lo, hi)
            && forall k :: 0 <= k < NQUEUE && k != i ==>
                 now[k * NPROC..k * NPROC + NPROC] == was[k * NPROC..k * NPROC + NPROC]
  {
    var b := i * NPROC;
    var now := ShiftedUp(was, b + lo, b + hi);
    var row := was[b..b + NPROC];
    forall x | 0 <= x < NPROC
      ensures now[b..b + NPROC][x] == ShiftedUp(row, lo, hi)[x]
    {
      assert now[b..b + NPROC][x] == now[b + x];
      if lo < x <= hi {
        assert now[b + x] == was[b + x - 1] == row[x - 1];
      } else {
        assert now[b + x] == was[b + x] == row[x];
      }
    }
    forall k | 0 <= k < NQUEUE && k != i
      ensures now[k * NPROC..k * NPROC + NPROC] == was[k * NPROC..k * NPROC + NPROC]
    {
      assert forall x :: k * NPROC <= x < k * NPROC + NPROC ==> now[x] == was[x];
    }
  }

  /** The three shapes of the shift all amount to DeleteAt. */
  lemma DeleteRow(r: Ring, m: int)
    requires r.Ok() && r.face != -1 && 0 <= m < NPROC && r.Dist(m) < r.Len()
    ensures var s := DeleteAt(r, r.Dist(m));
            && (m == r.face ==> s.row == r.row)
            && (m > r.face ==> s.row == ShiftedUp(r.row, r.face, m))
            && (m < r.face ==>
                  s.row == ShiftedUp(ShiftedUp(r.row, 0, m)[0 := r.row[NPROC - 1]], r.face, NPROC - 1))
  {
  }
}
