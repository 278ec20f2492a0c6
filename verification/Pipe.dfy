/** A pipe: a ring of PIPESIZE bytes between counters that wrap at 2 to the 32.  A call of pipewrite
    or piperead gives up the lock only in sleep, so it is a series of segments between which anybody
    else's may come; each segment is one method call here. */
module Pipe {
  import FsLayout

  const PIPESIZE := 512
  const WORD := 0x1_0000_0000

  type Byte = FsLayout.Byte

  /** What happens to the byte stream: bytes enter, bytes leave, or nothing. */
  datatype Event = Put(bytes: seq<Byte>) | Get(bytes: seq<Byte>) | Quiet

  /** All bytes ever appended, and how many of them were removed. */
  datatype Stream = Stream(appended: seq<Byte>, removed: nat)

  ghost predicate Took(s: Stream, e: Event, s': Stream) {
    match e
    case Put(bytes) => s' == s.(appended := s.appended + bytes)
    case Get(bytes) => s.removed + |bytes| <= |s.appended| && bytes == s.appended[s.removed..s.removed + |bytes|] && s' == s.(removed := s.removed + |bytes|)
    case Quiet => s' == s
  }

  /** How a segment ends: asleep until woken, or with the call's result. */
  datatype Outcome = Asleep | Returned(value: int)

  class Buffer {
    const data: array<Byte>
    var nread: nat
    var nwrite: nat
    var readopen: bool
    var writeopen: bool
    var readers: set<nat>     // the processes asleep on &nread, and on &nwrite
    var writers: set<nat>
    ghost var stream: Stream
    ghost var frees: nat      // how often the page was freed

    ghost predicate Valid()
      reads this, data
    {
      && data.Length == PIPESIZE && stream.removed <= |stream.appended| <= stream.removed + PIPESIZE
      && nread == stream.removed % WORD && nwrite == |stream.appended| % WORD
      && (forall k :: stream.removed <= k < |stream.appended| ==> data[k % PIPESIZE] == stream.appended[k])
      && frees == (if readopen || writeopen then 0 else 1)
    }

    /** How many bytes are in the pipe. */
    ghost function Held(): int
      reads this
    {
      |stream.appended| - stream.removed
    }

    /** Nobody sleeps who has something to do: a reader only on an empty pipe with a writer, a writer
        only on a full one with a reader. */
    ghost predicate Woken()
      reads this
    {
      && (readers != {} ==> Held() == 0 && writeopen)
      && (writers != {} ==> Held() == PIPESIZE && readopen)
    }

    constructor ()
      ensures Valid() && Woken() && fresh(data) && readopen && writeopen && stream == Stream([], 0) && readers == writers == {}
    {
      readers, writers := {}, {};
      data := new Byte[PIPESIZE](_ => 0);
      nread, nwrite := 0, 0;
      readopen, writeopen := true, true;
      stream, frees := Stream([], 0), 0;
    }

    /** The counters' difference, modulo 2 to the 32, is the number of bytes in the pipe. */
    lemma Count()
      requires Valid()
      ensures 0 <= (nwrite - nread) % WORD == |stream.appended| - stream.removed <= PIPESIZE
    {
      Difference(|stream.appended|, stream.removed);
    }

    /** pipewrite-full and pipe-empty, as the code tests them. */
    lemma Tests()
      requires Valid()
      ensures nwrite == (nread + PIPESIZE) % WORD <==> |stream.appended| == stream.removed + PIPESIZE
      ensures nread == nwrite <==> |stream.appended| == stream.removed
    {
      Difference(|stream.appended|, stream.removed);
    }

    /** A segment of pipewrite by p that starts with i bytes written.  It appends bytes up to the first
        place where there is no more to write, nobody to read, the caller found killed, no room, or a
        byte that cannot be copied in, and ends accordingly.  killed and fault may be out of reach.
        Everybody who can go on is woken, except if the caller is found killed after it has put
        something into the pipe. */
    method WriteSegment(p: nat, bytes: seq<Byte>, from: nat, killed: nat, fault: nat) returns (i: nat, out: Outcome, ghost e: Event)
      requires Valid() && from <= |bytes| && writeopen
      modifies this`nwrite, this`stream, this`readers, this`writers, data
      ensures Valid() && from <= i <= |bytes| && e == Put(bytes[from..i]) && Took(old(stream), e, stream)
      ensures i > from ==> readopen && old(Held()) + i - from <= PIPESIZE
      ensures (killed >= from ==> i <= killed) && (fault >= from ==> i <= fault)
      ensures i == |bytes| || !readopen || i == killed || i == fault || Held() == PIPESIZE
      ensures out == if i == |bytes| then Returned(i) else if !readopen || i == killed then Returned(-1)
                     else if Held() == PIPESIZE then Asleep else Returned(i)
      ensures readers == (if out == Returned(-1) then old(readers) else {})
      ensures writers == old(writers) + (if out.Asleep? then {p} else {})
      ensures old(Woken()) ==> (Woken() <==> !(out == Returned(-1) && i > from && readers != {}))
    {
      i := from;
      while i < |bytes|
        invariant Valid() && from <= i <= |bytes| && Took(old(stream), Put(bytes[from..i]), stream)
        invariant i > from ==> readopen
        invariant (killed >= from ==> i <= killed) && (fault >= from ==> i <= fault) && Held() == old(Held()) + i - from
        invariant readers == old(readers) && writers == old(writers)
        decreases |bytes| - i
      {
        if !readopen || i == killed {
          return i, Returned(-1), Put(bytes[from..i]);
        }
        Tests();
        if nwrite == (nread + PIPESIZE) % WORD {
          readers := {};
          writers := writers + {p};
          return i, Asleep, Put(bytes[from..i]);
        }
        if i == fault {
          break;
        }
        assert bytes[from..i + 1] == bytes[from..i] + [bytes[i]];
        Append(bytes[i]);
        i := i + 1;
      }
      readers := {};
      out, e := Returned(i), Put(bytes[from..i]);
    }

    method Append(ch: Byte)
      requires Valid() && |stream.appended| < stream.removed + PIPESIZE
      modifies this`nwrite, this`stream, data
      ensures Valid() && stream == old(stream).(appended := old(stream).appended + [ch])
    {
      ghost var n, r := |stream.appended|, stream.removed;
      Slot(n);
      assert forall k :: r <= k < n ==> k % PIPESIZE != n % PIPESIZE by {
        forall k | r <= k < n
          ensures k % PIPESIZE != n % PIPESIZE
        {
          OtherSlot(k, n);
        }
      }
      data[nwrite % PIPESIZE] := ch;
      nwrite := (nwrite + 1) % WORD;
      stream := stream.(appended := stream.appended + [ch]);
    }

    method Remove() returns (ch: Byte)
      requires Valid() && stream.removed < |stream.appended|
      modifies this`nread, this`stream
      ensures Valid() && ch == old(stream).appended[old(stream).removed] && stream == old(stream).(removed := old(stream).removed + 1)
    {
      Slot(stream.removed);
      ch := data[nread % PIPESIZE];
      nread := (nread + 1) % WORD;
      stream := stream.(removed := stream.removed + 1);
    }

    /** piperead's loop: the bytes copied out, and those taken from the pipe. */
    method CopyOut(n: int, fault: nat) returns (got: seq<Byte>, ghost e: Event)
      requires Valid()
      modifies this`nread, this`stream
      ensures Valid() && e.Get? && Took(old(stream), e, stream) && got <= e.bytes
      ensures var most := if n <= 0 then 0 else if n < old(Held()) then n else old(Held());
              && |got| == (if fault < most then fault else most)
              && |e.bytes| == (if fault < most then fault + 1 else most)
    {
      got, e := [], Get([]);
      while |got| < n
        invariant Valid() && e == Get(got) && Took(old(stream), e, stream) && Held() == old(Held()) - |got|
        invariant |got| <= fault && (|got| == 0 || |got| <= n)
        decreases n - |got|
      {
        Tests();
        if nread == nwrite {
          break;
        }
        var ch := Remove();
        e := Get(got + [ch]);
        if |got| == fault {
          return;
        }
        got := got + [ch];
      }
    }

    /** A segment of piperead by p for n bytes.  On an empty pipe with a writer p sleeps, or gives up
        if killed.  Otherwise it gets the next bytes in order, as many as there are and it asked for,
        up to the first whose copy out fails; that one is lost.  Waiting writers are woken. */
    method ReadSegment(p: nat, n: int, killed: bool, fault: nat) returns (got: seq<Byte>, out: Outcome, ghost e: Event)
      requires Valid() && readopen
      modifies this`nread, this`stream, this`readers, this`writers
      ensures Valid() && e.Get? && Took(old(stream), e, stream) && got <= e.bytes
      ensures old(Held()) == 0 && writeopen ==>
                && e.bytes == [] && out == (if killed then Returned(-1) else Asleep)
                && readers == old(readers) + (if killed then {} else {p}) && writers == old(writers)
      ensures old(Held()) != 0 || !writeopen ==>
                var most := if n <= 0 then 0 else if n < old(Held()) then n else old(Held());
                && out == Returned(|got|) && |got| == (if fault < most then fault else most)
                && |e.bytes| == (if fault < most then fault + 1 else most)
                && readers == old(readers) && writers == {}
      ensures old(Woken()) ==> Woken()
    {
      got, e := [], Get([]);
      Tests();
      if nread == nwrite && writeopen {
        if killed {
          return [], Returned(-1), e;
        }
        readers := readers + {p};
        return [], Asleep, e;
      }
      got, e := CopyOut(n, fault);
      writers := {};
      out := Returned(|got|);
    }

    /** pipeclose, once per end: those waiting at the other end are woken, and the page is freed when
        the second end is closed. */
    method Close(writable: bool)
      requires Valid() && (if writable then writeopen else readopen)
      modifies this`readopen, this`writeopen, this`readers, this`writers, this`frees
      ensures Valid() && stream == old(stream)
      ensures readopen == (old(readopen) && writable) && writeopen == (old(writeopen) && !writable)
      ensures frees == old(frees) + if readopen || writeopen then 0 else 1
      ensures readers == (if writable then {} else old(readers)) && writers == (if writable then old(writers) else {})
      ensures old(Woken()) ==> Woken()
    {
      if writable {
        writeopen := false;
        readers := {};
      } else {
        readopen := false;
        writers := {};
      }
      if !readopen && !writeopen {
        frees := frees + 1;
      }
    }
  }

  /** For instance: a reader sleeps, a writer of two bytes is killed after the first.  The byte is in
      the pipe, both ends are open, and the reader sleeps on. */
  method KilledWriterForgets() returns (b: Buffer)
    ensures fresh(b) && b.Valid() && !b.Woken() && b.readers == {1} && b.Held() == 1 && b.readopen && b.writeopen
  {
    b := new Buffer();
    var got, out, i;
    ghost var e;
    got, out, e := b.ReadSegment(1, 1, false, 0);
    assert b.Woken() && b.Held() == 0;
    i, out, e := b.WriteSegment(2, [65, 66], 0, 1, 2);
    assert i == 1 && b.Held() == 1;
  }

  lemma Slot(k: nat)
    ensures k % WORD % PIPESIZE == k % PIPESIZE
    ensures (k % WORD + 1) % WORD == (k + 1) % WORD
  {
  }

  lemma OtherSlot(k: nat, n: nat)
    requires k < n < k + PIPESIZE
    ensures k % PIPESIZE != n % PIPESIZE
  {
  }

  lemma Difference(a: nat, r: nat)
    requires r <= a <= r + PIPESIZE
    ensures (a % WORD - r % WORD) % WORD == a - r
    ensures a % WORD == (r % WORD + PIPESIZE) % WORD <==> a == r + PIPESIZE
    ensures r % WORD == a % WORD <==> a == r
  {
  }

  // ----- whole runs

  ghost predicate Run(ss: seq<Stream>, es: seq<Event>) {
    |ss| == |es| + 1 && ss[0] == Stream([], 0) && forall k :: 0 <= k < |es| ==> Took(ss[k], es[k], ss[k + 1])
  }

  function Puts(es: seq<Event>, k: nat): seq<Byte>
    requires k <= |es|
  {
    if k == 0 then [] else Puts(es, k - 1) + if es[k - 1].Put? then es[k - 1].bytes else []
  }

  function Gets(es: seq<Event>, k: nat): seq<Byte>
    requires k <= |es|
  {
    if k == 0 then [] else Gets(es, k - 1) + if es[k - 1].Get? then es[k - 1].bytes else []
  }

  lemma TookPrefix(s: Stream, e: Event, s': Stream)
    requires Took(s, e, s') && s.removed <= |s.appended|
    ensures s'.removed <= |s'.appended| && s'.appended == s.appended + if e.Put? then e.bytes else []
    ensures s'.appended[..s'.removed] == s.appended[..s.removed] + if e.Get? then e.bytes else []
  {
  }

  /** First in, first out, however the segments of readers and writers are interleaved. */
  lemma {:induction false} Fifo(ss: seq<Stream>, es: seq<Event>, k: nat)
    requires Run(ss, es) && k <= |es|
    ensures ss[k].removed <= |ss[k].appended| && Puts(es, k) == ss[k].appended
    ensures Gets(es, k) == Puts(es, k)[..ss[k].removed]
  {
    if k > 0 {
      Fifo(ss, es, k - 1);
      assert Took(ss[k - 1], es[k - 1], ss[k]);
      TookPrefix(ss[k - 1], es[k - 1], ss[k]);
    }
  }
}
