/** The five ready queues of the MLFQ scheduler as values: ring buffers with the
    positions `face` and `back`, and the sequence of live entries each spells. */
module RingSpec {

  const NPROC: nat := 64
  const NQUEUE: nat := 5

  /** One queue: face == back == -1 when empty. */
  datatype Ring = Ring(face: int, back: int, row: seq<int>) {
    ghost predicate Ok() {
      && |row| == NPROC
      && ((face == -1 && back == -1) || (0 <= face < NPROC && 0 <= back < NPROC))
    }

    function Len(): int {
      if face == -1 then 0
      else if face <= back then back - face + 1
      else back - face + 1 + NPROC
    }

    /** The slot of the kth live entry. */
    function Slot(k: int): int {
      if face + k < NPROC then face + k else face + k - NPROC
    }

    /** How far behind face a slot is. */
    function Dist(j: int): int {
      if face <= j then j - face else j - face + NPROC
    }
  }

  /** The live entries in queue order. */
  function Window(r: Ring): (w: seq<int>)
    requires r.Ok()
    ensures |w| == r.Len()
    ensures forall k :: 0 <= k < |w| ==> 0 <= r.Slot(k) < NPROC && w[k] == r.row[r.Slot(k)]
  {
    seq(r.Len(), k requires 0 <= k < r.Len() => r.row[r.Slot(k)])
  }

  predicate Full(r: Ring) {
    r.face == r.back + 1 || (r.face == 0 && r.back == NPROC - 1)
  }

  // ----- append, take, delete -----------------------------------------------

  function Append(r: Ring, p: int): (s: Ring)
    requires r.Ok()
    ensures s.Ok()
  {
    var back := (r.back + 1) % NPROC;
    Ring(if r.face == -1 then 0 else r.face, back, r.row[back := p])
  }

  lemma AppendWindow(r: Ring, p: int)
    requires r.Ok() && (r.face == -1 || !Full(r))
    ensures Window(Append(r, p)) == Window(r) + [p]
  {
    var s := Append(r, p);
    forall k | 0 <= k < |Window(r)|
      ensures Window(s)[k] == Window(r)[k]
    {
      assert s.Slot(k) == r.Slot(k) != s.back;
    }
  }

  /** A full queue has NPROC entries, and only a full one does. */
  lemma FullIffNproc(r: Ring)
    requires r.Ok() && r.face != -1
    ensures Full(r) <==> |Window(r)| == NPROC
  {
  }

  function TakeFirst(r: Ring): (s: Ring)
    requires r.Ok() && r.face != -1
    ensures s.Ok()
  {
    if r.face != r.back then r.(face := (r.face + 1) % NPROC)
    else r.(face := -1, back := -1)
  }

  lemma TakeFirstWindow(r: Ring)
    requires r.Ok() && r.face != -1
    ensures Window(r) == [r.row[r.face]] + Window(TakeFirst(r))
  {
    var s := TakeFirst(r);
    assert r.Slot(0) == r.face;
    forall k | 0 <= k < |Window(s)|
      ensures Window(s)[k] == Window(r)[k + 1]
    {
      assert s.Slot(k) == r.Slot(k + 1);
    }
  }

  /** Where p first occurs in the sequence, or its length. */
  function IndexOf(w: seq<int>, p: int): (k: nat)
    ensures k <= |w|
    ensures k < |w| ==> w[k] == p
    ensures forall j :: 0 <= j < k ==> w[j] != p
  {
    if w == [] || w[0] == p then 0 else
      var k := IndexOf(w[1..], p);
      assert forall j :: 0 < j < k + 1 ==> w[j] == w[1..][j - 1];
      k + 1
  }

  /** The sequence without the first occurrence of p. */
  function Without(w: seq<int>, p: int): seq<int> {
    var k := IndexOf(w, p);
    if k == |w| then w else w[..k] + w[k + 1..]
  }

  /** Entries 0..k-1 move one slot towards back, over entry k; face follows. */
  function DeleteAt(r: Ring, k: int): (s: Ring)
    requires r.Ok() && 0 <= k < r.Len()
    ensures s.Ok()
  {
    Ring((r.face + 1) % NPROC, r.back,
         seq(NPROC, j requires 0 <= j < NPROC =>
           if 1 <= r.Dist(j) <= k then r.row[if j == 0 then NPROC - 1 else j - 1] else r.row[j]))
  }

  lemma DeleteAtWindow(r: Ring, k: int)
    requires r.Ok() && 0 <= k < r.Len() && r.Len() > 1
    ensures Window(DeleteAt(r, k)) == Window(r)[..k] + Window(r)[k + 1..]
  {
    var s := DeleteAt(r, k);
    assert |Window(s)| == |Window(r)| - 1;
    forall m | 0 <= m < |Window(s)|
      ensures Window(s)[m] == if m < k then Window(r)[m] else Window(r)[m + 1]
    {
      var j := s.Slot(m);
      assert j == r.Slot(m + 1);
      assert r.Dist(j) == m + 1;
      if m < k {
        assert r.Slot(m) == if j == 0 then NPROC - 1 else j - 1;
      }
    }
  }

  /** remove(): a queue of one entry is emptied without looking at the entry. */
  function Removed(r: Ring, p: int): (s: Ring)
    requires r.Ok()
    ensures s.Ok()
  {
    if r.face == r.back then r.(face := -1, back := -1)
    else
      var k := IndexOf(Window(r), p);
      if k == |Window(r)| then r else DeleteAt(r, k)
  }

  /** remove() is deletion that keeps the order, for every position of face and
      back, exactly when the queue is not a single entry other than p. */
  lemma RemovedWindow(r: Ring, p: int)
    requires r.Ok()
    ensures Window(Removed(r, p)) == Without(Window(r), p) <==> !(|Window(r)| == 1 && Window(r)[0] != p)
  {
    var w := Window(r);
    var k := IndexOf(w, p);
    if r.face == r.back {
      assert Window(Removed(r, p)) == [];
      if |w| == 1 && w[0] == p {
        assert w[..0] + w[1..] == [];
      }
    } else if k < |w| {
      DeleteAtWindow(r, k);
    }
  }

  // ----- the five queues ----------------------------------------------------

  type Queues = seq<Ring>

  ghost predicate QueuesOk(qs: Queues) {
    |qs| == NQUEUE && forall i :: 0 <= i < NQUEUE ==> qs[i].Ok()
  }

  ghost predicate Live(qs: Queues, i: int, p: int)
    requires QueuesOk(qs)
  {
    0 <= i < NQUEUE && p in Window(qs[i])
  }

  /** The word in memory just before queue[i][0]: the last slot of the row before,
      or, for the first row, a word `below` outside the array. */
  function CellBefore(qs: Queues, i: int, below: int): int
    requires |qs| == NQUEUE && forall i :: 0 <= i < NQUEUE ==> |qs[i].row| == NPROC
    requires 0 <= i < NQUEUE
  {
    if i == 0 then below else qs[i - 1].row[NPROC - 1]
  }

  /** What push()'s duplicate scan looks at in queue i.  For an empty queue its
      loop runs once, with index -1. */
  ghost predicate ScanHits(qs: Queues, i: int, p: int, below: int)
    requires QueuesOk(qs) && 0 <= i < NQUEUE
  {
    if qs[i].face == -1 then CellBefore(qs, i, below) == p else p in Window(qs[i])
  }

  /** push() finds p although no queue holds it. */
  ghost predicate Phantom(qs: Queues, a: int, p: int, below: int)
    requires QueuesOk(qs) && 0 <= a < NQUEUE
  {
    qs[a].face != -1 && exists i :: 0 <= i < NQUEUE && qs[i].face == -1 && CellBefore(qs, i, below) == p
  }

  ghost function Pushed(qs: Queues, a: int, p: int, below: int): (r: Queues)
    requires QueuesOk(qs) && 0 <= a < NQUEUE
    ensures QueuesOk(r)
  {
    if qs[a].face != -1 && ((exists i :: 0 <= i < NQUEUE && ScanHits(qs, i, p, below)) || Full(qs[a])) then qs
    else qs[a := Append(qs[a], p)]
  }

  /** push() of a process that is in no queue puts it at the tail of queue a
      exactly when the scan meets no phantom and the queue has room; otherwise it
      changes nothing. */
  lemma PushedWindow(qs: Queues, a: int, p: int, below: int)
    requires QueuesOk(qs) && 0 <= a < NQUEUE
    requires forall i :: 0 <= i < NQUEUE ==> !Live(qs, i, p)
    ensures Pushed(qs, a, p, below) == qs[a := Append(qs[a], p)] <==>
              !Phantom(qs, a, p, below) && |Window(qs[a])| < NPROC
    ensures Phantom(qs, a, p, below) || |Window(qs[a])| == NPROC ==> Pushed(qs, a, p, below) == qs
    ensures |Window(qs[a])| < NPROC ==> Window(Append(qs[a], p)) == Window(qs[a]) + [p]
  {
    if qs[a].face != -1 {
      FullIffNproc(qs[a]);
      if !Phantom(qs, a, p, below) {
        forall i | 0 <= i < NQUEUE
          ensures !ScanHits(qs, i, p, below)
        {
          assert !Live(qs, i, p);
        }
      } else {
        var i :| 0 <= i < NQUEUE && qs[i].face == -1 && CellBefore(qs, i, below) == p;
        assert ScanHits(qs, i, p, below);
      }
    }
    if |Window(qs[a])| < NPROC {
      AppendWindow(qs[a], p);
      assert Append(qs[a], p) != qs[a] by {
        assert |Window(Append(qs[a], p))| != |Window(qs[a])|;
      }
    }
  }
}
