/** The kernel's table of anonymous pipes: rings of bytes with reader and writer counts, in slots that
    are used again once both counts are zero. Identifiers outside the table are handled as the source
    does. Counts are 32-bit words there; they do not wrap here. */
module Pipes {

  import opened Common

  const PIPE_BUF_SIZE: nat := 4096
  const MAX_PIPES: nat := 16

  /** A count of bytes, or the all-ones word that stands for "would block". */
  datatype Outcome = Done(n: nat) | WouldBlock

  // ---- A pipe as a queue ----

  datatype Chan = Chan(queue: seq<byte>, readers: nat, writers: nat)

  const FREE: Chan := Chan([], 0, 0)

  predicate InUse(c: Chan) { c.readers > 0 || c.writers > 0 }

  function ReadOutcome(c: Chan, count: nat): Outcome {
    if count == 0 || !InUse(c) then Done(0)
    else if c.queue == [] then (if c.writers == 0 then Done(0) else WouldBlock)
    else Done(Min(count, |c.queue|))
  }

  function WriteOutcome(c: Chan, count: nat): Outcome {
    if count == 0 || c.readers == 0 then Done(0)
    else if |c.queue| >= PIPE_BUF_SIZE then WouldBlock
    else Done(Min(count, PIPE_BUF_SIZE - |c.queue|))
  }

  function Moved(o: Outcome): nat { if o.Done? then o.n else 0 }

  predicate Readable(c: Chan) { !InUse(c) || c.queue != [] || c.writers == 0 }

  predicate Writable(c: Chan) { !InUse(c) || c.readers == 0 || |c.queue| < PIPE_BUF_SIZE }

  /** Readiness is exact: polled ready means that no non-empty transfer would block, and polled not
      ready that every one would. */
  lemma {:induction false} PollIsExact(c: Chan, count: nat)
    requires count > 0 && |c.queue| <= 4096
    ensures Readable(c) <==> ReadOutcome(c, count) != WouldBlock
    ensures Writable(c) <==> WriteOutcome(c, count) != WouldBlock
    ensures ReadOutcome(c, count) == Done(0) <==> (c.queue == [] && c.writers == 0) || !InUse(c)
    ensures WriteOutcome(c, count) == Done(0) <==> c.readers == 0
    ensures WriteOutcome(c, count) == WouldBlock <==> c.readers > 0 && |c.queue| == 4096
    ensures ReadOutcome(c, count) == WouldBlock <==> c.writers > 0 && c.queue == []
  {
  }

  /** A pipe exists as long as an end of it is open. */
  lemma {:induction false} InUseIs(c: Chan)
    ensures InUse(c) <==> c.readers + c.writers > 0
    ensures Closed(c) == if c.readers == 0 && c.writers == 0 then Chan([], 0, 0) else c
  {
  }

  // ---- The ring ----

  datatype Pipe = Pipe(buf: seq<byte>, head: nat, tail: nat, len: nat, readers: nat, writers: nat, inUse: bool)

  function Slot(tail: nat, k: nat): (i: nat)
    ensures i < PIPE_BUF_SIZE
  {
    (tail + k) % PIPE_BUF_SIZE
  }

  predicate ValidPipe(p: Pipe) {
    && |p.buf| == PIPE_BUF_SIZE && p.tail < PIPE_BUF_SIZE && p.len <= PIPE_BUF_SIZE && p.head == Slot(p.tail, p.len)
    && (p.inUse <==> p.readers > 0 || p.writers > 0)
  }

  function Contents(p: Pipe): (s: seq<byte>)
    requires ValidPipe(p)
    ensures |s| == p.len
  {
    seq(p.len, k requires 0 <= k < p.len => p.buf[Slot(p.tail, k)])
  }

  lemma {:induction false} SlotNext(tail: nat, k: nat)
    requires tail < PIPE_BUF_SIZE && k < PIPE_BUF_SIZE
    ensures Slot(tail, 0) == tail && Slot((tail + 1) % PIPE_BUF_SIZE, k) == Slot(tail, k + 1)
    ensures Slot(tail, k + 1) == (Slot(tail, k) + 1) % PIPE_BUF_SIZE
  {
    Wrapped(tail + k);
    Wrapped(tail + k + 1);
    Wrapped(tail + 1);
  }

  lemma {:induction false} Wrapped(x: nat)
    requires x < 2 * PIPE_BUF_SIZE
    ensures x % PIPE_BUF_SIZE == if x < PIPE_BUF_SIZE then x else x - PIPE_BUF_SIZE
  {
  }

  lemma {:induction false} SlotApart(tail: nat, k: nat, len: nat)
    requires k < len < PIPE_BUF_SIZE
    ensures Slot(tail, k) != Slot(tail, len)
  {
  }

  lemma {:induction false} PopFront(p: Pipe)
    requires ValidPipe(p) && p.len > 0
    ensures var q := p.(tail := (p.tail + 1) % PIPE_BUF_SIZE, len := p.len - 1);
            ValidPipe(q) && Contents(p) == [p.buf[p.tail]] + Contents(q)
  {
    hide Slot;
    var q := p.(tail := (p.tail + 1) % PIPE_BUF_SIZE, len := p.len - 1);
    forall k: nat | k <= q.len
      ensures Slot(q.tail, k) == Slot(p.tail, k + 1) && Slot(p.tail, 0) == p.tail
    {
      SlotNext(p.tail, k);
    }
    assert q.head == Slot(q.tail, q.len);
  }

  lemma {:induction false} PushBack(p: Pipe, b: byte)
    requires ValidPipe(p) && p.len < PIPE_BUF_SIZE
    ensures var q := p.(buf := p.buf[p.head := b], head := (p.head + 1) % PIPE_BUF_SIZE, len := p.len + 1);
            ValidPipe(q) && Contents(q) == Contents(p) + [b]
  {
    hide Slot;
    SlotNext(p.tail, p.len);
    var q := p.(buf := p.buf[p.head := b], head := (p.head + 1) % PIPE_BUF_SIZE, len := p.len + 1);
    forall k: nat | k < p.len
      ensures Slot(p.tail, k) != p.head
    {
      SlotApart(p.tail, k, p.len);
    }
  }

  /** What a slot stands for; a free one stands for nothing, whatever its buffer still holds. */
  function View(p: Pipe): Chan
    requires ValidPipe(p)
  {
    if p.inUse then Chan(Contents(p), p.readers, p.writers) else FREE
  }

  class Table {
    var pipes: seq<Pipe>
    ghost var sent: seq<seq<byte>>   // bytes ever accepted by the pipe now in the slot
    ghost var got: seq<seq<byte>>    // bytes ever read from it

    ghost predicate Valid()
      reads this
    {
      && |pipes| == MAX_PIPES && |sent| == MAX_PIPES && |got| == MAX_PIPES
      && (forall i | 0 <= i < MAX_PIPES :: ValidPipe(pipes[i]))
      && forall i | 0 <= i < MAX_PIPES :: pipes[i].inUse ==> sent[i] == got[i] + Contents(pipes[i])
    }

    ghost function At(id: nat): Chan
      requires Valid()
      reads this
    {
      if id < MAX_PIPES then View(pipes[id]) else FREE
    }

    /** Every slot but one is as it was. */
    twostate predicate OthersKept(id: nat)
      requires Valid() && old(Valid())
      reads this
    {
      forall i | 0 <= i < MAX_PIPES && i != id ::
        pipes[i] == old(pipes[i]) && sent[i] == old(sent[i]) && got[i] == old(got[i])
    }

    constructor ()
      ensures Valid() && forall i | 0 <= i < MAX_PIPES :: At(i) == FREE
    {
      var blank: seq<byte> := seq(PIPE_BUF_SIZE, k => 0);
      pipes := seq(MAX_PIPES, i => Pipe(blank, 0, 0, 0, 0, 0, false));
      sent, got := seq(MAX_PIPES, i => []), seq(MAX_PIPES, i => []);
    }

    /** The first free slot becomes a pipe with one reader, one writer and nothing in it, whatever the
        slot held before; it fails exactly when all are taken. */
    method Create() returns (id: Option<nat>)
      requires Valid()
      modifies this
      ensures Valid()
      ensures id.None? <==> forall i | 0 <= i < 16 :: InUse(old(At(i)))
      ensures id.None? ==> unchanged(this)
      ensures id.Some? ==>
                && id.value < MAX_PIPES && old(At(id.value)) == FREE && OthersKept(id.value)
                && At(id.value) == Chan([], 1, 1) && sent[id.value] == [] && got[id.value] == []
    {
      var i := 0;
      while i < MAX_PIPES
        invariant i <= MAX_PIPES && unchanged(this) && forall k | 0 <= k < i :: pipes[k].inUse
      {
        if !pipes[i].inUse {
          var blank: seq<byte> := seq(PIPE_BUF_SIZE, k => 0);
          pipes := pipes[i := Pipe(blank, 0, 0, 0, 1, 1, true)];
          sent, got := sent[i := []], got[i := []];
          assert !InUse(old(At(i)));
          return Some(i);
        }
        i := i + 1;
      }
      id := None;
    }

    method AddReader(id: nat)
      requires Valid()
      modifies this
      ensures Valid() && OthersKept(id) && sent == old(sent) && got == old(got)
      ensures At(id) == var c := old(At(id)); if InUse(c) then c.(readers := c.readers + 1) else c
    {
      if id < MAX_PIPES && pipes[id].inUse {
        pipes := pipes[id := pipes[id].(readers := pipes[id].readers + 1)];
      }
    }

    method AddWriter(id: nat)
      requires Valid()
      modifies this
      ensures Valid() && OthersKept(id) && sent == old(sent) && got == old(got)
      ensures At(id) == var c := old(At(id)); if InUse(c) then c.(writers := c.writers + 1) else c
    {
      if id < MAX_PIPES && pipes[id].inUse {
        pipes := pipes[id := pipes[id].(writers := pipes[id].writers + 1)];
      }
    }

    /** Closing an end takes one count away; the slot is free exactly when none is left. */
    method CloseReader(id: nat)
      requires Valid()
      modifies this
      ensures Valid() && OthersKept(id) && sent == old(sent) && got == old(got)
      ensures At(id) == Closed(old(At(id)).(readers := if old(At(id)).readers > 0 then old(At(id)).readers - 1 else 0))
    {
      if id >= MAX_PIPES || !pipes[id].inUse {
        return;
      }
      var p := pipes[id];
      if p.readers > 0 {
        p := p.(readers := p.readers - 1);
      }
      pipes := pipes[id := MaybeFree(p)];
    }

    method CloseWriter(id: nat)
      requires Valid()
      modifies this
      ensures Valid() && OthersKept(id) && sent == old(sent) && got == old(got)
      ensures At(id) == Closed(old(At(id)).(writers := if old(At(id)).writers > 0 then old(At(id)).writers - 1 else 0))
    {
      if id >= MAX_PIPES || !pipes[id].inUse {
        return;
      }
      var p := pipes[id];
      if p.writers > 0 {
        p := p.(writers := p.writers - 1);
      }
      pipes := pipes[id := MaybeFree(p)];
    }

    method PollReadable(id: nat) returns (r: bool)
      requires Valid()
      ensures r == Readable(At(id))
    {
      if id >= MAX_PIPES || !pipes[id].inUse {
        return true;
      }
      r := pipes[id].len > 0 || pipes[id].writers == 0;
    }

    method PollWritable(id: nat) returns (r: bool)
      requires Valid()
      ensures r == Writable(At(id))
    {
      if id >= MAX_PIPES || !pipes[id].inUse {
        return true;
      }
      r := pipes[id].readers == 0 || pipes[id].len < PIPE_BUF_SIZE;
    }

    /** A read takes bytes from the front of the queue. */
    method TryRead(id: nat, count: nat) returns (o: Outcome, data: seq<byte>)
      requires Valid()
      modifies this
      ensures Valid() && OthersKept(id) && sent == old(sent)
      ensures o == ReadOutcome(old(At(id)), count) && |data| == Moved(o)
      ensures old(At(id)) == At(id).(queue := data + At(id).queue)
      ensures id < MAX_PIPES ==> got[id] == old(got[id]) + data
    {
      hide Contents;
      data := [];
      if id >= MAX_PIPES || count == 0 || !pipes[id].inUse {
        return Done(0), [];
      }
      if pipes[id].len == 0 {
        return if pipes[id].writers == 0 then Done(0) else WouldBlock, [];
      }
      ghost var before := Contents(pipes[id]);
      while |data| < count && pipes[id].len > 0
        invariant Valid() && OthersKept(id) && sent == old(sent) && pipes[id].inUse
        invariant View(pipes[id]) == old(View(pipes[id])).(queue := Contents(pipes[id]))
        invariant data + Contents(pipes[id]) == before && |data| <= count
        invariant got[id] == old(got[id]) + data
      {
        ghost var rest, read := Contents(pipes[id]), data;
        var b := Pop(id);
        data := data + [b];
        assert read + rest == data + rest[1..];
      }
      o := Done(|data|);
    }

    method Pop(id: nat) returns (b: byte)
      requires Valid() && id < MAX_PIPES && pipes[id].inUse && pipes[id].len > 0
      modifies `pipes, `got
      ensures Valid() && OthersKept(id) && got[id] == old(got[id]) + [b]
      ensures pipes[id].inUse && pipes[id].readers == old(pipes[id]).readers && pipes[id].writers == old(pipes[id]).writers
      ensures old(Contents(pipes[id])) == [b] + Contents(pipes[id]) && pipes[id].len == old(pipes[id]).len - 1
    {
      hide Contents;
      var p := pipes[id];
      PopFront(p);
      b := p.buf[p.tail];
      ghost var q := p.(tail := (p.tail + 1) % PIPE_BUF_SIZE, len := p.len - 1);
      Regroup(got[id], b, Contents(q));
      pipes := pipes[id := p.(tail := (p.tail + 1) % PIPE_BUF_SIZE, len := p.len - 1)];
      got := got[id := got[id] + [b]];
    }

    /** A write adds bytes at the back, as many as fit. */
    method TryWrite(id: nat, data: seq<byte>) returns (o: Outcome)
      requires Valid()
      modifies this
      ensures Valid() && OthersKept(id) && got == old(got)
      ensures o == WriteOutcome(old(At(id)), |data|) && Moved(o) <= |data|
      ensures At(id) == old(At(id)).(queue := old(At(id)).queue + data[..Moved(o)])
      ensures id < MAX_PIPES ==> sent[id] == old(sent[id]) + data[..Moved(o)]
    {
      hide Contents;
      if id >= MAX_PIPES || |data| == 0 || !pipes[id].inUse || pipes[id].readers == 0 {
        return Done(0);
      }
      if pipes[id].len == PIPE_BUF_SIZE {
        return WouldBlock;
      }
      ghost var before := Contents(pipes[id]);
      var n := 0;
      assert before + data[..0] == before && sent[id] + data[..0] == sent[id];
      while n < |data| && pipes[id].len < PIPE_BUF_SIZE
        invariant n <= |data| && Valid() && OthersKept(id) && got == old(got) && pipes[id].inUse
        invariant View(pipes[id]) == old(View(pipes[id])).(queue := Contents(pipes[id]))
        invariant Contents(pipes[id]) == before + data[..n] && sent[id] == old(sent[id]) + data[..n]
      {
        assert data[..n + 1] == data[..n] + [data[n]];
        Push(id, data[n]);
        n := n + 1;
      }
      o := Done(n);
    }

    method Push(id: nat, b: byte)
      requires Valid() && id < MAX_PIPES && pipes[id].inUse && pipes[id].len < PIPE_BUF_SIZE
      modifies `pipes, `sent
      ensures Valid() && OthersKept(id) && sent[id] == old(sent[id]) + [b]
      ensures pipes[id].inUse && pipes[id].readers == old(pipes[id]).readers && pipes[id].writers == old(pipes[id]).writers
      ensures Contents(pipes[id]) == old(Contents(pipes[id])) + [b] && pipes[id].len == old(pipes[id]).len + 1
    {
      hide Contents;
      var p := pipes[id];
      PushBack(p, b);
      assert (got[id] + Contents(p)) + [b] == got[id] + (Contents(p) + [b]);
      pipes := pipes[id := p.(buf := p.buf[p.head := b], head := (p.head + 1) % PIPE_BUF_SIZE, len := p.len + 1)];
      sent := sent[id := sent[id] + [b]];
    }
  }

  lemma {:induction false} Regroup(a: seq<byte>, b: byte, c: seq<byte>)
    ensures a + ([b] + c) == (a + [b]) + c
  {
  }

  function Closed(c: Chan): Chan { if InUse(c) then c else FREE }

  function MaybeFree(p: Pipe): Pipe {
    if p.readers == 0 && p.writers == 0 then p.(inUse := false) else p
  }

  // ---- The life of one pipe ----

  datatype Op = Read(count: nat) | Write(data: seq<byte>) | OpenReader | OpenWriter | DropReader | DropWriter

  function Taken(c: Chan, op: Op): seq<byte> {
    if op.Read? then c.queue[..Min(Moved(ReadOutcome(c, op.count)), |c.queue|)] else []
  }

  function Accepted(c: Chan, op: Op): seq<byte> {
    if op.Write? then op.data[..Min(Moved(WriteOutcome(c, |op.data|)), |op.data|)] else []
  }

  function Apply(c: Chan, op: Op): Chan {
    if !InUse(c) then c
    else
      match op
      case Read(_) => c.(queue := c.queue[|Taken(c, op)|..])
      case Write(_) => c.(queue := c.queue + Accepted(c, op))
      case OpenReader => c.(readers := c.readers + 1)
      case OpenWriter => c.(writers := c.writers + 1)
      case DropReader => Closed(c.(readers := if c.readers > 0 then c.readers - 1 else 0))
      case DropWriter => Closed(c.(writers := if c.writers > 0 then c.writers - 1 else 0))
  }

  /** Opening and closing count the ends of their own kind and leave the bytes alone; closing undoes opening,
      and closing the last end frees the pipe. */
  lemma {:induction false} EndsAreCounted(c: Chan)
    requires InUse(c)
    ensures Apply(c, OpenReader) == Chan(c.queue, c.readers + 1, c.writers)
    ensures Apply(c, OpenWriter) == Chan(c.queue, c.readers, c.writers + 1)
    ensures Apply(Apply(c, OpenReader), DropReader) == c && Apply(Apply(c, OpenWriter), DropWriter) == c
    ensures c.readers == 1 && c.writers == 0 ==> Apply(c, DropReader) == Chan([], 0, 0)
    ensures c.readers == 0 && c.writers == 1 ==> Apply(c, DropWriter) == Chan([], 0, 0)
    ensures c.readers == 0 ==> Apply(c, DropReader) == c
    ensures c.writers == 0 ==> Apply(c, DropWriter) == c
    ensures c.readers > 0 && c.writers > 0 ==>
              Apply(c, DropReader) == c.(readers := c.readers - 1) && Apply(c, DropWriter) == c.(writers := c.writers - 1)
  {
  }

  function Final(c: Chan, run: seq<Op>): Chan
    decreases |run|
  {
    if run == [] then c else Final(Apply(c, run[0]), run[1..])
  }

  function AllTaken(c: Chan, run: seq<Op>): seq<byte>
    decreases |run|
  {
    if run == [] then [] else Taken(c, run[0]) + AllTaken(Apply(c, run[0]), run[1..])
  }

  function AllAccepted(c: Chan, run: seq<Op>): seq<byte>
    decreases |run|
  {
    if run == [] then [] else Accepted(c, run[0]) + AllAccepted(Apply(c, run[0]), run[1..])
  }

  lemma {:induction false} FreedForGood(c: Chan, run: seq<Op>)
    requires !InUse(c)
    ensures Final(c, run) == c && AllAccepted(c, run) == []
    ensures c.queue == [] ==> AllTaken(c, run) == []
    decreases |run|
  {
    if run != [] {
      FreedForGood(c, run[1..]);
    }
  }

  /** Over every run of operations on one pipe, the bytes read are a prefix of the bytes accepted, and
      while the pipe lives what is missing is exactly what it still holds. */
  lemma {:induction false} ReadsArePrefixOfWrites(c: Chan, run: seq<Op>)
    requires InUse(c) && |c.queue| <= PIPE_BUF_SIZE
    ensures AllTaken(c, run) <= c.queue + AllAccepted(c, run)
    ensures InUse(Final(c, run)) ==> c.queue + AllAccepted(c, run) == AllTaken(c, run) + Final(c, run).queue
    ensures |Final(c, run).queue| <= PIPE_BUF_SIZE
    decreases |run|
  {
    hide Apply, Taken, Accepted, InUse;
    if run != [] {
      var d, t, a := Apply(c, run[0]), Taken(c, run[0]), Accepted(c, run[0]);
      ApplyKeepsOrder(c, run[0]);
      if InUse(d) {
        ReadsArePrefixOfWrites(d, run[1..]);
        Extended(c.queue, a, t, d.queue, AllAccepted(d, run[1..]));
        Prefixed(t, AllTaken(d, run[1..]), d.queue + AllAccepted(d, run[1..]), Final(d, run[1..]).queue);
      } else {
        FreedForGood(d, run[1..]);
      }
    } else {
      assert c.queue + [] == [] + c.queue;
    }
  }

  lemma {:induction false} ApplyKeepsOrder(c: Chan, op: Op)
    requires InUse(c) && |c.queue| <= PIPE_BUF_SIZE
    ensures var d := Apply(c, op);
            && |d.queue| <= PIPE_BUF_SIZE
            && (InUse(d) ==> c.queue + Accepted(c, op) == Taken(c, op) + d.queue)
            && (!InUse(d) ==> Accepted(c, op) == [] && Taken(c, op) == [] && d.queue == [])
  {
  }

  lemma {:induction false} Extended(q: seq<byte>, a: seq<byte>, t: seq<byte>, r: seq<byte>, more: seq<byte>)
    requires q + a == t + r
    ensures q + (a + more) == t + (r + more)
  {
    assert q + (a + more) == (q + a) + more;
  }

  lemma {:induction false} Prefixed(t: seq<byte>, u: seq<byte>, all: seq<byte>, rest: seq<byte>)
    requires u <= all
    ensures t + u <= t + all
    ensures all == u + rest ==> t + all == (t + u) + rest
  {
  }
}
