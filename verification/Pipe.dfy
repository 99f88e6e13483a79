/** The pipe of kernel/pipe.c.

    A method is what one process does from taking the pipe's lock until it sleeps or returns, so every
    interleaving is a sequence of calls. `readers` and `writers` are the processes asleep on
    &pi->nread and &pi->nwrite; wakeup empties one of them. */
module Pipe {
  import opened Basics

  const PIPESIZE: nat := 512
  const WRAP: nat := 0x1_0000_0000

  datatype Outcome = Slept | Failed | Returned

  /** A process. */
  datatype Pid = Pid(id: int)

  /** The code's full test on wrapping counters says that the pipe is full. */
  lemma FullTest(r: nat, w: nat)
    requires r <= w <= r + PIPESIZE
    ensures w % WRAP == (r % WRAP + PIPESIZE) % WRAP <==> w == r + PIPESIZE
    ensures r % WRAP == w % WRAP <==> r == w
  {
  }

  class PipeBuffer {
    const data: array<int>
    var nread: nat
    var nwrite: nat
    var readopen: bool
    var writeopen: bool
    ghost var sent: seq<int>          // every byte ever put into the pipe
    ghost var taken: nat              // how many of them have been taken out
    ghost var readers: set<Pid>
    ghost var writers: set<Pid>
    ghost var freed: nat              // how often the page has been freed
    ghost var received: seq<int>      // every byte that was copied out to a reader
    ghost var lost: nat               // how many bytes were taken out and could not be copied

    ghost predicate RingOk()
      reads this`nread, this`nwrite, this`sent, this`taken, data
    {
      && data.Length == PIPESIZE
      && taken <= |sent| <= taken + PIPESIZE
      && nread == taken % WRAP && nwrite == |sent| % WRAP
      && forall k :: taken <= k < |sent| ==> data[k % PIPESIZE] == sent[k]
    }

    /** A sleeping reader has nothing to read and a writer to wait for; a sleeping writer has no room
        and a reader to wait for. */
    ghost predicate SleepersOk()
      reads this
    {
      && (readers != {} ==> readopen && writeopen && taken == |sent|)
      && (writers != {} ==> readopen && writeopen && |sent| == taken + PIPESIZE)
    }

    /** What every call keeps. Of SleepersOk it lacks only that a sleeping reader has nothing to read. */
    ghost predicate Valid()
      reads this, data
    {
      && RingOk() && freed == (if readopen || writeopen then 0 else 1)
      && (readers != {} ==> readopen && writeopen)
      && (writers != {} ==> readopen && writeopen && |sent| == taken + PIPESIZE)
      && |received| + lost == taken && (lost == 0 ==> received == sent[..taken])
    }

    constructor ()
      ensures Valid() && SleepersOk() && sent == [] && taken == 0 && lost == 0
      ensures readopen && writeopen && readers == {} && writers == {} && fresh(data)
    {
      data := new int[PIPESIZE];
      nread, nwrite := 0, 0;
      readopen, writeopen := true, true;
      sent, taken := [], 0;
      readers, writers := {}, {};
      freed, received, lost := 0, [], 0;
    }

    /** Put one byte into the ring. */
    method Put(ch: int)
      requires RingOk() && |sent| < taken + PIPESIZE
      modifies data, this`nwrite, this`sent
      ensures RingOk() && sent == old(sent) + [ch]
    {
      WrapMod(|sent|, PIPESIZE, 0x80_0000);
      forall k | taken <= k < |sent|
        ensures k % PIPESIZE != |sent| % PIPESIZE
      {
        PlacesDistinct(k, |sent|, PIPESIZE);
      }
      data[nwrite % PIPESIZE] := ch;
      nwrite := (nwrite + 1) % WRAP;
      sent := sent + [ch];
    }

    /** pipewrite, from having the lock with i bytes written until sleeping or returning. The source
        bytes from `avail` on cannot be copied in; the caller is found killed in pass `killedIn` of
        the loop, if it gets that far. A writer that is found killed after it has put bytes into an empty
        pipe does not wake the readers that sleep there: this is the one way to break SleepersOk. */
    method Write(me: Pid, src: seq<int>, i0: nat, avail: nat, killedIn: nat) returns (i: nat, outcome: Outcome)
      requires Valid() && writeopen && i0 <= |src| && me !in writers
      modifies this`nwrite, this`sent, this`readers, this`writers, data
      ensures Valid() && i0 <= i <= |src| && sent == old(sent) + src[i0..i]
      ensures i - i0 <= killedIn && (i == i0 || i <= avail) && (i == i0 || readopen)
      ensures outcome == Failed <==> i < |src| && (!readopen || i - i0 == killedIn)
      ensures outcome == Slept <==> i < |src| && readopen && i - i0 < killedIn && |sent| == taken + PIPESIZE
      ensures outcome == Returned ==> i == |src| || i >= avail
      ensures outcome == Slept ==> readers == {} && writers == old(writers) + {me}
      ensures outcome == Returned ==> readers == {} && writers == old(writers)
      ensures outcome == Failed ==> readers == old(readers) && writers == old(writers)
      ensures old(SleepersOk()) ==>
                (SleepersOk() <==>
                 !(old(readers) != {} && readopen && 0 < killedIn < |src| - i0 && killedIn <= avail - i0 &&
                   killedIn <= PIPESIZE))
      ensures !old(SleepersOk()) ==> (SleepersOk() <==> outcome != Failed)
    {
      hide RingOk;
      Full();
      i := i0;
      while i < |src|
        invariant i0 <= i <= |src| && RingOk() && sent == old(sent) + src[i0..i]
        invariant readers == old(readers) && writers == old(writers) && i - i0 <= killedIn
        invariant i > i0 ==> writers == {} && readopen && i <= avail
        invariant i == i0 && writers != {} ==> |sent| == taken + PIPESIZE
        decreases |src| - i
      {
        Full();
        if !readopen || i - i0 >= killedIn {
          return i, Failed;
        }
        if nwrite == (nread + PIPESIZE) % WRAP {
          readers := {};
          writers := writers + {me};
          return i, Slept;
        } else {
          if i >= avail {
            break;
          }
          Put(src[i]);
          assert src[i0..i + 1] == src[i0..i] + [src[i]];
          i := i + 1;
        }
      }
      readers := {};
      return i, Returned;
    }

    /** Take one byte out of the ring. */
    method Take() returns (ch: int)
      requires RingOk() && taken < |sent|
      modifies this`nread, this`taken
      ensures RingOk() && taken == old(taken) + 1 && ch == sent[old(taken)]
    {
      WrapMod(taken, PIPESIZE, 0x80_0000);
      ch := data[nread % PIPESIZE];
      nread := (nread + 1) % WRAP;
      taken := taken + 1;
    }

    /** piperead's loop. */
    method CopyOut(n: nat, room: nat) returns (got: seq<int>)
      requires RingOk()
      modifies this`nread, this`taken, this`received, this`lost
      ensures RingOk() && received == old(received) + got
      ensures |got| == Min(Min(n, room), |sent| - old(taken)) && got == sent[old(taken)..old(taken) + |got|]
      ensures taken == old(taken) + Min(Min(n, room + 1), |sent| - old(taken)) <= |sent|
      ensures lost == old(lost) + taken - old(taken) - |got|
    {
      hide RingOk;
      got := [];
      Full();
      var i := 0;
      while i < n
        invariant 0 <= i <= n && i == |got| <= room && RingOk() && taken == old(taken) + i <= |sent|
        invariant got == sent[old(taken)..taken] && received == old(received) + got && lost == old(lost)
      {
        Full();
        if nread == nwrite {
          break;
        }
        var ch := Take();
        if i >= room {
          lost := lost + 1;
          break;
        }
        got := got + [ch];
        received := received + [ch];
        i := i + 1;
      }
      Full();
    }

    /** piperead, from having the lock until sleeping or returning. At most `room` bytes can be copied
        out; the byte whose copy fails has left the pipe. It keeps SleepersOk, and it restores it exactly if it
        finds the pipe empty or empties it. */
    method Read(me: Pid, n: nat, room: nat, killed: bool) returns (got: seq<int>, outcome: Outcome)
      requires Valid() && readopen && me !in readers
      modifies this`nread, this`taken, this`readers, this`writers, this`received, this`lost
      ensures Valid() && sent == old(sent) && received == old(received) + got
      ensures old(taken) + |got| <= |sent| && got == sent[old(taken)..old(taken) + |got|]
      ensures old(taken) == |sent| && writeopen ==>
                && got == [] && taken == old(taken) && writers == old(writers)
                && (if killed then outcome == Failed && readers == old(readers)
                    else outcome == Slept && readers == old(readers) + {me})
      ensures !(old(taken) == |sent| && writeopen) ==>
                && outcome == Returned && writers == {} && readers == old(readers)
                && |got| == Min(Min(n, room), |sent| - old(taken))
                && taken == old(taken) + Min(Min(n, room + 1), |sent| - old(taken))
      ensures lost == old(lost) + taken - old(taken) - |got|
      ensures old(SleepersOk()) ==> SleepersOk()
      ensures !old(SleepersOk()) ==> (SleepersOk() <==> |sent| - old(taken) <= n && |sent| - old(taken) <= room + 1)
    {
      hide RingOk;
      got := [];
      Full();
      if nread == nwrite && writeopen {
        if killed {
          return got, Failed;
        }
        readers := readers + {me};
        return got, Slept;
      }
      got := CopyOut(n, room);
      writers := {};
      outcome := Returned;
    }

    /** pipeclose of one end, which is open and which no process is using. The page is freed when the
        second end is closed, and only then. Nobody who should be awake sleeps on. */
    method Close(writable: bool)
      requires Valid() && (if writable then writeopen && writers == {} else readopen && readers == {})
      modifies this`readopen, this`writeopen, this`readers, this`writers, this`freed
      ensures Valid() && SleepersOk() && sent == old(sent) && taken == old(taken)
      ensures writeopen == (old(writeopen) && !writable) && readopen == (old(readopen) && writable)
      ensures if writable then readers == {} && writers == old(writers) else writers == {} && readers == old(readers)
      ensures freed == old(freed) + if !readopen && !writeopen then 1 else 0
    {
      if writable {
        writeopen := false;
        readers := {};
      } else {
        readopen := false;
        writers := {};
      }
      if !readopen && !writeopen {
        freed := freed + 1;
      }
    }

    /** kkill of a process that may be asleep in the pipe: it wakes up, and will find itself killed. */
    method Kill(p: Pid)
      requires Valid()
      modifies this`readers, this`writers
      ensures Valid() && readers == old(readers) - {p} && writers == old(writers) - {p}
      ensures SleepersOk() <==> old(SleepersOk()) || readers == {}
    {
      readers, writers := readers - {p}, writers - {p};
    }

    lemma Full()
      requires RingOk()
      ensures nwrite == (nread + PIPESIZE) % WRAP <==> |sent| == taken + PIPESIZE
      ensures nread == nwrite <==> taken == |sent|
      ensures taken <= |sent| <= taken + PIPESIZE
    {
      FullTest(taken, |sent|);
    }
  }

  function Min(a: int, b: int): int {
    if a < b then a else b
  }

  /** A reader sleeps, a writer puts a byte into the pipe and is then found killed. It returns without waking the
      reader, which sleeps on although there is a byte to read. */
  method KilledWriterMissesWakeup() returns (pipe: PipeBuffer)
    ensures fresh(pipe) && pipe.Valid() && !pipe.SleepersOk()
    ensures pipe.readers == {Pid(1)} && pipe.taken < |pipe.sent|
  {
    pipe := new PipeBuffer();
    var got, o1 := pipe.Read(Pid(1), 1, 1, false);
    var i, o2 := pipe.Write(Pid(2), [0, 0], 0, 2, 1);
    assert i == 1 && o2 == Failed;
  }
}
