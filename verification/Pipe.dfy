/** The pipe: a ring of PIPESIZE bytes with 32-bit counters.  Each method is one
    stretch under the pipe's lock, so any sequence of calls is an interleaving of
    readers and writers. */
module Pipe {

  const PIPESIZE: nat := 512
  const UINT: nat := 0x1_0000_0000

  datatype Outcome = Done | Sleeps | Fails

  /** The counters wrap, their difference does not: the full and empty tests are exact. */
  lemma Tests(r: nat, w: nat)
    requires r <= w <= r + PIPESIZE
    ensures w % UINT == (r % UINT + PIPESIZE) % UINT <==> w == r + PIPESIZE
    ensures r % UINT == w % UINT <==> r == w
  {
    var q, m := r / UINT, r % UINT;
    assert r == q * UINT + m;
    var d := w - r;
    if m + d < UINT {
      Remainder(q, m + d);
    } else {
      Remainder(q + 1, m + d - UINT);
    }
    if m + PIPESIZE < UINT {
      Remainder(0, m + PIPESIZE);
    } else {
      Remainder(1, m + PIPESIZE - UINT);
    }
  }

  lemma Remainder(q: nat, m: nat)
    requires m < UINT
    ensures (q * UINT + m) % UINT == m
  {
  }

  /** PIPESIZE divides 2^32, so wrapping does not disturb the place in the ring. */
  lemma SamePlace(x: nat)
    ensures x % UINT % PIPESIZE == x % PIPESIZE
  {
    var q, m := x / UINT, x % UINT;
    assert x == (q * (UINT / PIPESIZE)) * PIPESIZE + m;
    Multiple(q * (UINT / PIPESIZE), m);
  }

  lemma Multiple(k: nat, m: nat)
    ensures (k * PIPESIZE + m) % PIPESIZE == m % PIPESIZE
  {
  }

  lemma NextCount(x: nat)
    ensures (x % UINT + 1) % UINT == (x + 1) % UINT
  {
    var q, m := x / UINT, x % UINT;
    assert x == q * UINT + m;
    if m + 1 < UINT {
      Remainder(q, m + 1);
    } else {
      Remainder(q + 1, 0);
    }
  }

  class Ring {
    const data: array<int>
    var nread: nat
    var nwrite: nat
    var readopen: bool
    var writeopen: bool
    ghost var stored: seq<int>    // every byte ever stored
    ghost var taken: seq<int>     // every byte ever read

    constructor ()
      ensures Valid() && stored == [] && taken == [] && readopen && writeopen
    {
      data := new int[PIPESIZE];
      nread, nwrite, readopen, writeopen := 0, 0, true, true;
      stored, taken := [], [];
    }

    /** The bytes stored and not yet read. */
    ghost function Buffered(): seq<int>
      requires |taken| <= |stored|
      reads this
    {
      stored[|taken|..]
    }

    /** What was read is what was stored first, in order; the rest is in the ring. */
    ghost predicate Valid()
      reads this, data
    {
      && data.Length == PIPESIZE && |taken| <= |stored| <= |taken| + PIPESIZE
      && taken == stored[..|taken|]
      && nread == |taken| % UINT && nwrite == |stored| % UINT
      && forall x :: |taken| <= x < |stored| ==> data[x % PIPESIZE] == stored[x]
    }

    /** pipewrite from byte i of src on, until all is in, the ring is full and the
        writer sleeps, or it gives up. */
    method Write(src: seq<int>, i: nat, killed: bool) returns (how: Outcome, j: nat)
      requires Valid() && i <= |src|
      modifies this, data
      ensures Valid() && i <= j <= |src| && taken == old(taken) && stored == old(stored) + src[i..j]
      ensures readopen == old(readopen) && writeopen == old(writeopen)
      ensures how == Done <==> j == |src|
      ensures how != Done ==> |Buffered()| == PIPESIZE && (how == Fails <==> !readopen || killed)
    {
      j := i;
      assert old(stored) == stored + src[i..i];
      while j < |src|
        invariant Valid() && i <= j <= |src| && taken == old(taken) && stored == old(stored) + src[i..j]
        invariant readopen == old(readopen) && writeopen == old(writeopen)
      {
        Tests(|taken|, |stored|);
        if nwrite == (nread + PIPESIZE) % UINT {
          return if !readopen || killed then Fails else Sleeps, j;
        }
        Put(src[j]);
        assert src[i..j] + [src[j]] == src[i..j + 1];
        j := j + 1;
      }
      how := Done;
    }

    method Put(b: int)
      requires Valid() && |stored| < |taken| + PIPESIZE
      modifies `nwrite, `stored, data
      ensures Valid() && stored == old(stored) + [b]
    {
      SamePlace(|stored|);
      NextCount(|stored|);
      Apart(|taken|, |stored|);
      data[nwrite % PIPESIZE] := b;
      nwrite := (nwrite + 1) % UINT;
      stored := stored + [b];
    }

    /** piperead once there is something to read, or nothing will come: up to n bytes
        in the order they were stored. */
    method Read(n: nat, killed: bool) returns (how: Outcome, out: seq<int>)
      requires Valid()
      modifies this
      ensures Valid() && stored == old(stored) && taken == old(taken) + out && data[..] == old(data[..])
      ensures readopen == old(readopen) && writeopen == old(writeopen)
      ensures how == Done <==> old(Buffered()) != [] || !writeopen
      ensures how == Fails ==> killed
      ensures how == Sleeps ==> !killed
      ensures how != Done ==> out == []
      ensures how == Done ==> |out| == if n < |old(Buffered())| then n else |old(Buffered())|
      ensures out == old(Buffered())[..|out|]
    {
      out := [];
      Tests(|taken|, |stored|);
      if nread == nwrite && writeopen {
        return if killed then Fails else Sleeps, out;
      }
      ghost var t0 := taken;
      while |out| < n
        invariant |out| <= n && Valid() && stored == old(stored) && taken == t0 + out
        invariant readopen == old(readopen) && writeopen == old(writeopen) && data[..] == old(data[..])
        decreases n - |out|
      {
        Tests(|taken|, |stored|);
        if nread == nwrite {
          break;
        }
        var b := Get();
        out := out + [b];
      }
      how := Done;
    }

    method Get() returns (b: int)
      requires Valid() && |taken| < |stored|
      modifies `nread, `taken
      ensures Valid() && taken == old(taken) + [b] && b == stored[|old(taken)|]
    {
      SamePlace(|taken|);
      NextCount(|taken|);
      b := data[nread % PIPESIZE];
      nread := (nread + 1) % UINT;
      taken := taken + [b];
    }

    /** pipeclose: one end is shut; true when the pipe is to be freed. */
    method Close(writable: bool) returns (freed: bool)
      requires Valid()
      modifies `readopen, `writeopen
      ensures Valid() && stored == old(stored) && taken == old(taken)
      ensures readopen == (old(readopen) && writable) && writeopen == (old(writeopen) && !writable)
      ensures freed <==> !readopen && !writeopen
    {
      if writable {
        writeopen := false;
      } else {
        readopen := false;
      }
      freed := !readopen && !writeopen;
    }
  }

  /** Bytes in the ring are at different places. */
  lemma Apart(r: nat, w: nat)
    requires r <= w < r + PIPESIZE
    ensures forall x :: r <= x < w ==> x % PIPESIZE != w % PIPESIZE
  {
    forall x | r <= x < w
      ensures x % PIPESIZE != w % PIPESIZE
    {
      var q, m := x / PIPESIZE, x % PIPESIZE;
      assert x == q * PIPESIZE + m;
      var d := w - x;
      if m + d < PIPESIZE {
        assert w == q * PIPESIZE + (m + d);
        Multiple(q, m + d);
      } else {
        assert w == (q + 1) * PIPESIZE + (m + d - PIPESIZE);
        Multiple(q + 1, m + d - PIPESIZE);
      }
    }
  }
}
