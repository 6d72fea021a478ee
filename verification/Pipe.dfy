/** The pipe of kernel/ipc/pipe.c. A call of pipewrite() or piperead() is a sequence of critical sections under pi->lock,
    cut where it sleeps; a method of the class is one such section, and `killed` cannot change inside one because there
    is one processor. Any order of method calls is then a run of the pipe, and what `Valid` says holds at every point
    where the lock is free. */
module Pipe {
  import opened Counters

  const PIPESIZE: nat := 512
  const WRAP: nat := 0x1_0000_0000

  type Byte = b: int | 0 <= b < 256

  /** How a critical section ends: the call sleeps, to go on in another section, or returns a value. */
  datatype Outcome = Sleeps | Returns(value: int)

  /** What the code's two tests on the wrapped counters tell. */
  lemma WrapTests(got: nat, put: nat)
    requires got <= put <= got + PIPESIZE
    ensures got % WRAP == put % WRAP <==> got == put
    ensures put % WRAP == (got % WRAP + PIPESIZE) % WRAP <==> put == got + PIPESIZE
  {
  }

  class Pipe {
    const data: array<Byte>
    /** uint counters: 32 bits. */
    var nread: nat
    var nwrite: nat
    var readopen: bool
    var writeopen: bool
    /** Processes asleep on &pi->nread and on &pi->nwrite. */
    var readers: set<nat>
    var writers: set<nat>
    /** All bytes ever put in and taken out. */
    ghost var put: seq<Byte>
    ghost var got: seq<Byte>

    /** The bytes still in the pipe are where the counters say, and the counters wrap without harm. */
    ghost predicate Ring()
      reads this, data
    {
      && data.Length == PIPESIZE
      && got <= put && |put| - |got| <= PIPESIZE
      && nread == |got| % WRAP && nwrite == |put| % WRAP
      && (forall k {:trigger put[k]} | |got| <= k < |put| :: data[k % PIPESIZE] == put[k])
    }

    ghost predicate Valid()
      reads this, data
    {
      && Ring()
      && (readers != {} ==> put == got && writeopen)
      && (writers != {} ==> |put| == |got| + PIPESIZE && readopen)
    }

    /** pipealloc(). */
    constructor ()
      ensures Valid() && fresh(data) && put == [] && readopen && writeopen
    {
      data := new Byte[PIPESIZE];
      nread, nwrite, readopen, writeopen := 0, 0, true, true;
      readers, writers, put, got := {}, {}, [], [];
    }

    /** A reader and a writer are never asleep together. */
    lemma NeverBoth()
      requires Valid()
      ensures readers == {} || writers == {}
    {
    }

    method PushOne(ch: Byte)
      requires Ring() && |put| < |got| + PIPESIZE
      modifies this`nwrite, this`put, data
      ensures Ring() && put == old(put) + [ch]
    {
      WrapSlot(|put|, WRAP, PIPESIZE);
      WrapNext(|put|, WRAP);
      ghost var n := |put|;
      forall k | |got| <= k < n
        ensures k % PIPESIZE != n % PIPESIZE
      {
        SlotApart(k, n, PIPESIZE);
      }
      data[nwrite % PIPESIZE] := ch;
      nwrite := (nwrite + 1) % WRAP;
      put := put + [ch];
    }

    /** The loop of pipewrite() up to where it ends or sleeps: bytes go in until the call has none left, the pipe is full,
        or copyin() fails, which it does at byte `bad`. */
    method Push(src: seq<Byte>, i: nat, bad: nat) returns (done: nat, full: bool)
      requires Ring() && i <= |src|
      modifies this`nwrite, this`put, data
      ensures Ring() && i <= done <= |src| && put == old(put) + src[i..done]
      ensures full <==> done < |src| && |put| == |got| + PIPESIZE
      ensures !full && done < |src| ==> done == bad
    {
      done := i;
      while done < |src|
        invariant Ring() && i <= done <= |src| && put == old(put) + src[i..done]
      {
        WrapTests(|got|, |put|);
        if nwrite == (nread + PIPESIZE) % WRAP {
          return done, true;
        }
        if done == bad {
          return done, false;
        }
        PushOne(src[done]);
        assert src[i..done + 1] == src[i..done] + [src[done]];
        done := done + 1;
      }
      full := false;
    }

    /** A critical section of pipewrite() by process `p`, `i` of whose bytes are in already. The bytes that go in are the next
        ones of the call, in order. The call sleeps only on a full pipe, and no reader is left asleep. It returns -1 only
        when this section put nothing. */
    method Write(p: nat, src: seq<Byte>, i: nat, killed: bool, bad: nat) returns (r: Outcome, done: nat)
      requires Valid() && i <= |src|
      modifies this`nwrite, this`put, this`readers, this`writers, data
      ensures Valid() && i <= done <= |src| && put == old(put) + src[i..done]
      ensures r == Sleeps ==> done < |src| && |put| == |got| + PIPESIZE && readopen && writers == old(writers) + {p}
      ensures r == Sleeps ==> readers == {}
      ensures r == Returns(-1) <==> i < |src| && (!readopen || killed)
      ensures r == Returns(-1) ==> done == i
      ensures r.Returns? && r.value != -1 ==> r.value == done && (done == |src| || done == bad) && readers == {}
    {
      if i < |src| && (!readopen || killed) {
        assert src[i..i] == [];
        return Returns(-1), i;
      }
      var full;
      done, full := Push(src, i, bad);
      readers := {};
      if full {
        writers := writers + {p};
        return Sleeps, done;
      }
      return Returns(done), done;
    }

    method PullOne() returns (ch: Byte)
      requires Ring() && |got| < |put|
      modifies this`nread, this`got
      ensures Ring() && ch == put[|old(got)|] && got == old(got) + [ch]
    {
      WrapSlot(|got|, WRAP, PIPESIZE);
      WrapNext(|got|, WRAP);
      ch := data[nread % PIPESIZE];
      nread := (nread + 1) % WRAP;
      got := got + [ch];
    }

    /** The copying loop of piperead(): bytes come out in the order they went in, up to `n` or until the pipe is empty. A
        copyout() that fails, at byte `bad`, loses the byte already taken. */
    method Pull(n: int, bad: nat) returns (out: seq<Byte>)
      requires Ring()
      modifies this`nread, this`got
      ensures Ring() && old(got) <= got && out <= got[|old(got)|..]
      ensures |got| - |old(got)| == |out| + if |out| == bad && |out| < n && |old(got)| + |out| < |put| then 1 else 0
      ensures |out| <= n || out == []
      ensures |out| < n ==> |out| == bad || got == put
    {
      out := [];
      while |out| < n
        invariant Ring() && got == old(got) + out && (|out| <= n || out == [])
      {
        WrapTests(|got|, |put|);
        if nread == nwrite {
          assert got == put;
          break;
        }
        var ch := PullOne();
        if |out| == bad {
          break;
        }
        out := out + [ch];
      }
    }

    /** A critical section of piperead() by process `p`. It sleeps only on an empty pipe with a writer left; otherwise it
        returns how many bytes it delivered, and no writer is left asleep. */
    method Read(p: nat, n: int, killed: bool, bad: nat) returns (r: Outcome, out: seq<Byte>)
      requires Valid()
      modifies this`nread, this`got, this`readers, this`writers
      ensures Valid() && old(got) <= got && out <= got[|old(got)|..]
      ensures r == Sleeps <==> old(got) == put && writeopen && !killed
      ensures r == Returns(-1) <==> old(got) == put && writeopen && killed
      ensures r == Sleeps ==> readers == old(readers) + {p}
      ensures r == Sleeps || r == Returns(-1) ==> got == old(got) && out == [] && writers == old(writers)
      ensures r.Returns? && r.value != -1 ==> r.value == |out| && writers == {} && (|out| < n ==> |out| == bad || got == put)
      ensures |got| - |old(got)| == |out| || (|out| == bad && |got| - |old(got)| == |out| + 1)
    {
      out := [];
      WrapTests(|got|, |put|);
      if nread == nwrite && writeopen {
        assert got == put;
        if killed {
          return Returns(-1), out;
        }
        readers := readers + {p};
        return Sleeps, out;
      }
      out := Pull(n, bad);
      writers := {};
      return Returns(|out|), out;
    }

    /** pipeclose(): wakes the other side; the page is freed when both ends are closed. */
    method Close(writable: bool) returns (freed: bool)
      requires Valid()
      modifies this`readopen, this`writeopen, this`readers, this`writers
      ensures Valid() && freed == (!readopen && !writeopen)
      ensures writable ==> !writeopen && readers == {} && readopen == old(readopen) && writers == old(writers)
      ensures !writable ==> !readopen && writers == {} && writeopen == old(writeopen) && readers == old(readers)
    {
      if writable {
        writeopen, readers := false, {};
      } else {
        readopen, writers := false, {};
      }
      return !readopen && !writeopen;
    }

    /** kill() wakes the process wherever it sleeps. */
    method Kill(p: nat)
      requires Valid()
      modifies this`readers, this`writers
      ensures Valid() && readers == old(readers) - {p} && writers == old(writers) - {p}
    {
      readers, writers := readers - {p}, writers - {p};
    }
  }
}
