/**
  Pipes (pipe.c).  What a reader or a writer does between taking the lock, or
  waking up with it, and letting it go is one method here, so any interleaving of
  readers and writers is a sequence of these calls.
 */
module Pipe {
  import opened FsBytes

  const PIPESIZE := 512

  datatype Result = Done(n: nat) | Blocked(n: nat) | Failed

  lemma Slots(k: nat)
    ensures k % WORD_LIMIT % PIPESIZE == k % PIPESIZE
  {
    var q := k / WORD_LIMIT;
    assert k == PIPESIZE * (0x80_0000 * q) + k % WORD_LIMIT;
  }

  // The 32-bit counters agree exactly when the true counts differ by d.
  lemma Counters(w: nat, r: nat, d: nat)
    requires r <= w <= r + PIPESIZE && d <= PIPESIZE
    ensures w % WORD_LIMIT == (r % WORD_LIMIT + d) % WORD_LIMIT <==> w == r + d
  {
    var q, s := r / WORD_LIMIT, r % WORD_LIMIT;
    assert w == WORD_LIMIT * q + (s + (w - r));
    assert (s + (w - r)) % WORD_LIMIT == w % WORD_LIMIT;
    if s + (w - r) < WORD_LIMIT {
      assert w % WORD_LIMIT == s + (w - r);
    } else {
      assert w % WORD_LIMIT == s + (w - r) - WORD_LIMIT;
    }
  }

  lemma Counted(k: nat)
    ensures (k % WORD_LIMIT + 1) % WORD_LIMIT == (k + 1) % WORD_LIMIT
  {
  }

  class Pipe {
    const data: array<Byte>
    var nread: nat              // 32-bit counters
    var nwrite: nat
    var readopen: bool
    var writeopen: bool
    var readers: nat            // number of processes asleep on nread
    var writers: nat            // number of processes asleep on nwrite
    ghost var written: Bytes    // all bytes ever written
    ghost var taken: Bytes      // all bytes ever read

    ghost predicate Valid()
      reads this, data
    {
      && data.Length == PIPESIZE
      && |taken| <= |written| <= |taken| + PIPESIZE
      && taken == written[..|taken|]
      && nwrite == |written| % WORD_LIMIT && nread == |taken| % WORD_LIMIT
      && forall k :: |taken| <= k < |written| ==> data[k % PIPESIZE] == written[k]
    }

    // No lost wakeup: a sleeping reader has nothing to read, a sleeping writer no room,
    // and both ends are open.
    ghost predicate Heard()
      reads this
    {
      && (readers > 0 ==> |taken| == |written| && writeopen && readopen)
      && (writers > 0 ==> |written| == |taken| + PIPESIZE && writeopen && readopen)
    }

    constructor ()
      ensures Valid() && Heard() && fresh(data) && written == taken == [] && readopen && writeopen
      ensures readers == writers == 0
    {
      data := new Byte[PIPESIZE];
      nread, nwrite, readopen, writeopen, readers, writers := 0, 0, true, true, 0, 0;
      written, taken := [], [];
    }

    method Put(b: Byte)
      requires Valid() && |written| < |taken| + PIPESIZE
      modifies data, this`nwrite, this`written
      ensures Valid() && written == old(written) + [b]
    {
      Slots(|written|);
      Counted(|written|);
      Fresh(|taken|, |written|);
      data[nwrite % PIPESIZE] := b;
      nwrite := (nwrite + 1) % WORD_LIMIT;
      written := written + [b];
    }

    static lemma Fresh(r: nat, w: nat)
      requires r <= w < r + PIPESIZE
      ensures forall k :: r <= k < w ==> k % PIPESIZE != w % PIPESIZE
    {
    }

    method Take() returns (b: Byte)
      requires Valid() && |taken| < |written|
      modifies this`nread, this`taken
      ensures Valid() && b == written[|old(taken)|] && taken == old(taken) + [b]
    {
      Slots(|taken|);
      Counted(|taken|);
      b := data[nread % PIPESIZE];
      nread := (nread + 1) % WORD_LIMIT;
      taken := taken + [b];
    }

    /**
      pipewrite() from byte i of s on, until it is done, has to sleep or fails: the
      bytes it took go behind all bytes written before.  A wakeup is lost exactly if
      readers are asleep, the writer has been killed and more than PIPESIZE bytes are left.
     */
    method Write(s: Bytes, i: nat, killed: bool) returns (r: Result)
      requires Valid() && Heard() && i <= |s| && writeopen
      modifies data, this`nwrite, this`written, this`readers, this`writers
      ensures Valid() && (Heard() <==> !(old(readers) > 0 && killed && |s| - i > PIPESIZE))
      ensures readers == if r.Failed? then old(readers) else 0
      ensures r.Done? ==> r.n == |s| && written == old(written) + s[i..]
      ensures r.Blocked? ==> i <= r.n < |s| && written == old(written) + s[i..r.n] && writers == old(writers) + 1
      ensures r.Blocked? ==> |written| == |taken| + PIPESIZE && readopen && !killed
      ensures r.Failed? ==> |written| == |taken| + PIPESIZE && (!readopen || killed)
      ensures r.Failed? ==> exists n :: i <= n < |s| && written == old(written) + s[i..n]
    {
      ghost var w := written;
      var k := i;
      while k < |s|
        invariant i <= k <= |s| && Valid() && written == w + s[i..k]
        invariant readers == old(readers) && writers == old(writers)
        invariant k > i ==> writers == 0
      {
        Counters(|written|, |taken|, PIPESIZE);
        if nwrite == (nread + PIPESIZE) % WORD_LIMIT {
          if !readopen || killed {
            return Failed;
          }
          readers := 0;
          writers := writers + 1;
          return Blocked(k);
        }
        Put(s[k]);
        k := k + 1;
      }
      readers := 0;
      return Done(|s|);
    }

    /**
      piperead() of up to n bytes, until it is done, has to sleep or fails: it takes
      the oldest bytes in the pipe.  With n > 0 it takes none only from a drained
      pipe whose write end is closed.
     */
    method Read(n: nat, killed: bool) returns (r: Result, s: Bytes)
      requires Valid() && Heard() && readopen
      modifies this`nread, this`taken, this`readers, this`writers
      ensures Valid() && Heard() && taken == old(taken) + s
      ensures r.Done? ==> r.n == |s| && |s| == (if n < |written| - |old(taken)| then n else |written| - |old(taken)|)
      ensures r.Done? && n > 0 && s == [] ==> |taken| == |written| && !writeopen
      ensures !r.Done? ==> s == [] && |taken| == |written| && writeopen
      ensures r.Blocked? ==> !killed && readers == old(readers) + 1
      ensures r.Failed? ==> killed && readers == old(readers)
    {
      s := [];
      Counters(|written|, |taken|, 0);
      if nread == nwrite && writeopen {
        if killed {
          return Failed, [];
        }
        readers := readers + 1;
        return Blocked(0), [];
      }
      s := TakeUpTo(n);
      writers := 0;
      return Done(|s|), s;
    }

    // The copy loop of piperead().
    method TakeUpTo(n: nat) returns (s: Bytes)
      requires Valid()
      modifies this`nread, this`taken
      ensures Valid() && taken == old(taken) + s
      ensures |s| == if n < |written| - |old(taken)| then n else |written| - |old(taken)|
    {
      ghost var t := taken;
      s := [];
      while |s| < n
        invariant |s| <= n && Valid() && taken == t + s
        decreases n - |s|
      {
        Counters(|written|, |taken|, 0);
        if nread == nwrite {
          break;
        }
        var b := Take();
        s := s + [b];
      }
    }

    /**
      kill() wakes a process that sleeps in the pipe.  It goes on in its loop, with
      killed set, and nobody else in the pipe notices.
     */
    method Interrupt(writer: bool)
      requires Valid() && Heard() && (if writer then writers > 0 else readers > 0)
      modifies this`readers, this`writers
      ensures Valid() && Heard()
      ensures writers == old(writers) - (if writer then 1 else 0) && readers == old(readers) - (if writer then 0 else 1)
    {
      if writer {
        writers := writers - 1;
      } else {
        readers := readers - 1;
      }
    }

    /** pipeclose(): whoever sleeps for the closed end is woken.  Nobody is inside with the end that closes. */
    method Close(writable: bool)
      requires Valid() && Heard() && (if writable then writers == 0 else readers == 0)
      modifies this`readopen, this`writeopen, this`readers, this`writers
      ensures Valid() && Heard() && written == old(written) && taken == old(taken)
      ensures writeopen == (old(writeopen) && !writable) && readopen == (old(readopen) && writable)
      ensures readers == 0 && writers == 0
    {
      if writable {
        writeopen := false;
        readers := 0;
      } else {
        readopen := false;
        writers := 0;
      }
    }
  }

  /**
    The wakeup that is lost: a reader sleeps on an empty pipe, a killed writer fills
    it and returns, and the reader sleeps on with PIPESIZE bytes to read.
   */
  method LostWakeup(s: Bytes) returns (p: Pipe)
    requires |s| == PIPESIZE + 1
    ensures fresh(p) && p.Valid() && p.readers == 1 && p.writeopen && |p.written| - |p.taken| == PIPESIZE && !p.Heard()
  {
    p := new Pipe();
    var r, t := p.Read(1, false);
    var w := p.Write(s, 0, true);
  }
}
