/**
 The byte sender of a character device: input is cut into pool-sized chunks that are queued, written
 one at a time, possibly in parts, and given back to the pool.
 */
module SendQueue {
  import opened Sequences

  type Byte = bv8

  /** A queued chunk and how much of it has been written. */
  datatype Chunk = Chunk(data: seq<Byte>, pos: nat)

  /** `written` is what the device took; `inFlight` counts the writes that have been started and not completed. */
  datatype Queue = Queue(written: seq<Byte>, chunks: seq<Chunk>, inFlight: nat)

  /** Both ways to send, and both ways in which a write ends. */
  datatype Event = Send(bytes: seq<Byte>) | Copy(data: seq<Byte>) | Complete(count: nat) | Fail

  ghost predicate WellFormed(q: Queue)
  {
    && (forall c :: c in q.chunks ==> c.pos <= |c.data|)
    && q.inFlight <= if q.chunks == [] then 0 else 1
  }

  /** One write is in flight exactly while there is something to write. */
  predicate Live(q: Queue)
  {
    q.inFlight == if q.chunks == [] then 0 else 1
  }

  /** There is something to write, and nothing is being written. */
  predicate Stalled(q: Queue)
  {
    q.chunks != [] && q.inFlight == 0
  }

  function Left(c: Chunk): seq<Byte>
  {
    if c.pos <= |c.data| then c.data[c.pos..] else []
  }

  /** What the queued chunks have left to write. */
  function Tails(chunks: seq<Chunk>): seq<Byte>
  {
    if chunks == [] then [] else Left(chunks[0]) + Tails(chunks[1..])
  }

  /** Queues one chunk unless the high water mark is reached; an empty queue starts a write. */
  function Push(q: Queue, data: seq<Byte>, mark: nat): Queue
  {
    if |q.chunks| >= mark then q
    else q.(chunks := q.chunks + [Chunk(data, 0)], inFlight := q.inFlight + if q.chunks == [] then 1 else 0)
  }

  function SendAll(q: Queue, bytes: seq<Byte>, size: nat, mark: nat): Queue
    requires size > 0
    decreases |bytes|
  {
    if bytes == [] then q
    else if |bytes| <= size then Push(q, bytes, mark)
    else SendAll(Push(q, bytes[..size], mark), bytes[size..], size, mark)
  }

  /** The device has taken `count` more bytes of the chunk at the front. */
  function Completed(q: Queue, count: nat): Queue
    requires q.chunks != [] && q.chunks[0].pos + count <= |q.chunks[0].data| && q.inFlight > 0
  {
    var front := q.chunks[0];
    var rest := if front.pos + count >= |front.data| then q.chunks[1..]
                else [front.(pos := front.pos + count)] + q.chunks[1..];
    Queue(q.written + front.data[front.pos..front.pos + count], rest,
          q.inFlight - 1 + if rest == [] then 0 else 1)
  }

  /** A copy callback fills at most one buffer; a write reports at most what it was given. */
  predicate Enabled(q: Queue, e: Event, size: nat)
  {
    match e
    case Send(_) => true
    case Copy(data) => |data| <= size
    case Complete(count) => q.chunks != [] && q.chunks[0].pos + count <= |q.chunks[0].data| && q.inFlight > 0
    case Fail => q.inFlight > 0
  }

  /** After a failed write the source starts no other. */
  function Step(q: Queue, e: Event, size: nat, mark: nat): Queue
    requires size > 0 && Enabled(q, e, size)
  {
    match e
    case Send(bytes) => SendAll(q, bytes, size, mark)
    case Copy(data) => Push(q, data, mark)
    case Complete(count) => Completed(q, count)
    case Fail => q.(inFlight := q.inFlight - 1)
  }

  /** How many bytes of a send are taken: whole chunks for as long as there is room in the queue. */
  function Taken(queued: nat, length: nat, size: nat, mark: nat): nat
  {
    if queued >= mark then 0 else if length <= size * (mark - queued) then length else size * (mark - queued)
  }

  lemma TailsStep(chunks: seq<Chunk>)
    ensures Tails(chunks) == if chunks == [] then [] else Left(chunks[0]) + Tails(chunks[1..])
  {
  }

  lemma {:induction false} TailsAppend(chunks: seq<Chunk>, c: Chunk)
    ensures Tails(chunks + [c]) == Tails(chunks) + Left(c)
  {
    hide *;
    TailsStep(chunks);
    TailsStep(chunks + [c]);
    if chunks == [] {
      assert (chunks + [c])[1..] == [];
      TailsStep([]);
    } else {
      assert (chunks + [c])[1..] == chunks[1..] + [c];
      TailsAppend(chunks[1..], c);
      Assoc(Left(chunks[0]), Tails(chunks[1..]), Left(c));
    }
  }

  lemma PushTakes(q: Queue, data: seq<Byte>, mark: nat)
    requires WellFormed(q)
    ensures WellFormed(Push(q, data, mark)) && Push(q, data, mark).written == q.written
    ensures |Push(q, data, mark).chunks| == |q.chunks| + if |q.chunks| < mark then 1 else 0
    ensures Tails(Push(q, data, mark).chunks) == Tails(q.chunks) + if |q.chunks| < mark then data else []
  {
    hide Tails;
    if |q.chunks| < mark {
      TailsAppend(q.chunks, Chunk(data, 0));
      assert data[0..] == data;
    }
  }

  lemma TakenStep(queued: nat, length: nat, size: nat, mark: nat)
    requires length > size > 0 && queued < mark
    ensures Taken(queued, length, size, mark) == size + Taken(queued + 1, length - size, size, mark)
  {
    var k: nat := mark - queued - 1;
    assert size * (mark - queued) == size + size * k;
    assert 0 <= size * k;
  }

  lemma TakenAtMost(queued: nat, length: nat, size: nat, mark: nat)
    ensures Taken(queued, length, size, mark) <= length
    ensures queued >= mark ==> Taken(queued, length, size, mark) == 0
    ensures queued < mark && length <= size ==> Taken(queued, length, size, mark) == length
  {
    if queued < mark {
      var k: nat := mark - queued - 1;
      assert size * (mark - queued) == size + size * k;
      assert 0 <= size * k;
    }
  }

  /** `r` is `q` with the first `n` bytes of `bytes` added to what is to be written. */
  ghost predicate Added(q: Queue, bytes: seq<Byte>, n: nat, mark: nat, r: Queue)
    requires n <= |bytes|
  {
    && WellFormed(r) && r.written == q.written
    && Tails(r.chunks) == Tails(q.chunks) + bytes[..n]
    && (|q.chunks| <= mark ==> |r.chunks| <= mark)
  }

  lemma SendAllStep(q: Queue, bytes: seq<Byte>, size: nat, mark: nat)
    requires size > 0
    ensures SendAll(q, bytes, size, mark) ==
            if bytes == [] then q
            else if |bytes| <= size then Push(q, bytes, mark)
            else SendAll(Push(q, bytes[..size], mark), bytes[size..], size, mark)
  {
  }

  lemma SendShort(q: Queue, bytes: seq<Byte>, mark: nat, n: nat)
    requires WellFormed(q) && n == if |q.chunks| < mark then |bytes| else 0
    ensures Added(q, bytes, n, mark, Push(q, bytes, mark))
  {
    hide Tails, Push;
    PushTakes(q, bytes, mark);
    assert bytes[..|bytes|] == bytes;
  }

  lemma AddedTwice(q: Queue, mid: Queue, r: Queue, bytes: seq<Byte>, size: nat, m: nat, n: nat, mark: nat)
    requires size <= |bytes| && m <= |bytes| - size && n == size + m
    requires WellFormed(mid) && mid.written == q.written && Tails(mid.chunks) == Tails(q.chunks) + bytes[..size]
    requires |q.chunks| <= mark ==> |mid.chunks| <= mark
    requires Added(mid, bytes[size..], m, mark, r)
    ensures Added(q, bytes, n, mark, r)
  {
    hide Tails;
    assert bytes[..n] == bytes[..size] + bytes[size..][..m];
    Assoc(Tails(q.chunks), bytes[..size], bytes[size..][..m]);
  }

  /** A send adds a whole-chunk prefix of its input to what is to be written, and nothing else. */
  lemma {:induction false} SendTakesPrefix(q: Queue, bytes: seq<Byte>, size: nat, mark: nat)
    requires WellFormed(q) && size > 0
    ensures Taken(|q.chunks|, |bytes|, size, mark) <= |bytes|
    ensures Added(q, bytes, Taken(|q.chunks|, |bytes|, size, mark), mark, SendAll(q, bytes, size, mark))
    decreases |bytes|
  {
    hide Tails, Taken, Push, SendAll, Added;
    var n := Taken(|q.chunks|, |bytes|, size, mark);
    TakenAtMost(|q.chunks|, |bytes|, size, mark);
    SendAllStep(q, bytes, size, mark);
    if bytes == [] {
      NothingAdded(q, bytes, mark);
    } else if |bytes| <= size {
      SendShort(q, bytes, mark, n);
    } else {
      var head, tail := bytes[..size], bytes[size..];
      var mid := Push(q, head, mark);
      PushTakes(q, head, mark);
      SendTakesPrefix(mid, tail, size, mark);
      var m := Taken(|mid.chunks|, |tail|, size, mark);
      if |q.chunks| < mark {
        TakenStep(|q.chunks|, |bytes|, size, mark);
        AddedTwice(q, mid, SendAll(mid, tail, size, mark), bytes, size, m, n, mark);
      } else {
        TakenAtMost(|mid.chunks|, |tail|, size, mark);
        NothingTaken(q, head, mark, tail, bytes, SendAll(mid, tail, size, mark));
      }
    }
  }

  lemma NothingAdded(q: Queue, bytes: seq<Byte>, mark: nat)
    requires WellFormed(q)
    ensures Added(q, bytes, 0, mark, q)
  {
    hide Tails;
    assert bytes[..0] == [];
  }

  lemma NothingTaken(q: Queue, head: seq<Byte>, mark: nat, tail: seq<Byte>, bytes: seq<Byte>, r: Queue)
    requires |q.chunks| >= mark && Added(Push(q, head, mark), tail, 0, mark, r)
    ensures Added(q, bytes, 0, mark, r)
  {
    hide Tails;
    assert tail[..0] == [] == bytes[..0];
  }

  /** A full queue takes nothing. */
  lemma {:induction false} FullQueueDrops(q: Queue, bytes: seq<Byte>, size: nat, mark: nat)
    requires size > 0 && |q.chunks| >= mark
    ensures SendAll(q, bytes, size, mark) == q
    decreases |bytes|
  {
    if |bytes| > size {
      FullQueueDrops(q, bytes[size..], size, mark);
    }
  }

  lemma LeftSplits(c: Chunk, count: nat)
    requires c.pos + count <= |c.data|
    ensures Left(c) == c.data[c.pos..c.pos + count] + Left(c.(pos := c.pos + count))
    ensures c.pos + count == |c.data| ==> Left(c.(pos := c.pos + count)) == []
  {
  }

  lemma CompletedIs(q: Queue, count: nat)
    requires q.chunks != [] && q.chunks[0].pos + count <= |q.chunks[0].data| && q.inFlight > 0
    ensures Completed(q, count) ==
            var front := q.chunks[0];
            var rest := if front.pos + count >= |front.data| then q.chunks[1..]
                        else [front.(pos := front.pos + count)] + q.chunks[1..];
            Queue(q.written + front.data[front.pos..front.pos + count], rest,
                  q.inFlight - 1 + if rest == [] then 0 else 1)
  {
  }

  lemma CompleteKeeps(q: Queue, count: nat, size: nat)
    requires WellFormed(q) && Enabled(q, Complete(count), size)
    ensures WellFormed(Completed(q, count)) && |Completed(q, count).chunks| <= |q.chunks|
  {
    var front := q.chunks[0];
    forall c | c in Completed(q, count).chunks ensures c.pos <= |c.data| {
      assert c in q.chunks || c == front.(pos := front.pos + count);
    }
  }

  lemma CompleteTails(q: Queue, count: nat, size: nat)
    requires Enabled(q, Complete(count), size)
    ensures Tails(Completed(q, count).chunks)
         == Left(q.chunks[0].(pos := q.chunks[0].pos + count)) + Tails(q.chunks[1..])
  {
    hide Tails;
    var r := Completed(q, count);
    LeftSplits(q.chunks[0], count);
    if q.chunks[0].pos + count >= |q.chunks[0].data| {
      assert [] + Tails(q.chunks[1..]) == Tails(q.chunks[1..]);
    } else {
      TailsStep(r.chunks);
      assert r.chunks[1..] == q.chunks[1..];
    }
  }

  /** A completion moves bytes from what is left to what is written, in order. */
  lemma CompleteMoves(q: Queue, count: nat, size: nat)
    requires WellFormed(q) && Enabled(q, Complete(count), size)
    ensures var r := Completed(q, count);
            && WellFormed(r) && |r.chunks| <= |q.chunks|
            && r.written + Tails(r.chunks) == q.written + Tails(q.chunks)
  {
    hide Tails, Left;
    var front := q.chunks[0];
    CompleteKeeps(q, count, size);
    CompleteTails(q, count, size);
    LeftSplits(front, count);
    TailsStep(q.chunks);
    Regroup(q.written, front.data[front.pos..front.pos + count], Left(front.(pos := front.pos + count)),
            Tails(q.chunks[1..]));
  }

  lemma Regroup(a: seq<Byte>, b: seq<Byte>, c: seq<Byte>, d: seq<Byte>)
    ensures a + ((b + c) + d) == (a + b) + (c + d)
  {
  }

  // ---------------------------------------------------------------- what each event does

  /** A chunk for each buffer's worth of bytes, all of them full but perhaps the last, none of them empty. */
  ghost predicate Chunked(chunks: seq<Chunk>, bytes: seq<Byte>, size: nat)
    decreases |chunks|
  {
    if chunks == [] then bytes == []
    else
      var c := chunks[0];
      && c.pos == 0 && 0 < |c.data| <= size && (|chunks| > 1 ==> |c.data| == size)
      && c.data <= bytes && Chunked(chunks[1..], bytes[|c.data|..], size)
  }

  lemma ChunkedCons(data: seq<Byte>, chunks: seq<Chunk>, bytes: seq<Byte>, n: nat, size: nat)
    requires 0 < |data| == size <= |bytes| && data == bytes[..size] && n <= |bytes| - size
    requires Chunked(chunks, bytes[size..][..n], size)
    ensures Chunked([Chunk(data, 0)] + chunks, bytes[..size + n], size)
  {
    assert bytes[..size + n][size..] == bytes[size..][..n];
    assert ([Chunk(data, 0)] + chunks)[1..] == chunks;
  }

  /**
   A send queues its input in chunks, as much of it as there is room for: all of it, or until the queue is at
   the mark.  It starts a write only when the queue was empty.
   */
  lemma {:induction false} SendLaw(q: Queue, bytes: seq<Byte>, size: nat, mark: nat)
    returns (added: seq<Chunk>, n: nat)
    requires size > 0
    ensures var r := SendAll(q, bytes, size, mark);
            && n <= |bytes| && r.chunks == q.chunks + added && Chunked(added, bytes[..n], size)
            && (n == |bytes| || |r.chunks| >= mark) && (added != [] ==> |q.chunks| < mark && |r.chunks| <= mark)
            && r.written == q.written
            && r.inFlight == q.inFlight + if q.chunks == [] && added != [] then 1 else 0
    decreases |bytes|
  {
    added, n := [], 0;
    if bytes == [] {
      assert bytes[..0] == [];
    } else if |q.chunks| >= mark {
      FullQueueDrops(q, bytes, size, mark);
      assert bytes[..0] == [];
    } else if |bytes| <= size {
      added, n := [Chunk(bytes, 0)], |bytes|;
      assert bytes[..n] == bytes && added[1..] == [] && bytes[n..] == [];
    } else {
      var head, tail := bytes[..size], bytes[size..];
      var mid := Push(q, head, mark);
      var more, m := SendLaw(mid, tail, size, mark);
      ChunkedCons(head, more, bytes, m, size);
      added, n := [Chunk(head, 0)] + more, size + m;
      assert q.chunks + added == mid.chunks + more;
    }
  }

  /** A callback's bytes are queued as one chunk, if there is room. */
  lemma CopyLaw(q: Queue, data: seq<Byte>, mark: nat)
    ensures var r := Push(q, data, mark);
            && r.written == q.written
            && r.chunks == q.chunks + (if |q.chunks| < mark then [Chunk(data, 0)] else [])
            && r.inFlight == q.inFlight + if q.chunks == [] && mark > 0 then 1 else 0
  {
  }

  /**
   A completed write adds exactly the next bytes of the front chunk to what is written.  The chunk leaves the
   queue when nothing of it is left; otherwise it has the rest left.  The next write starts if there is anything.
   */
  lemma CompleteLaw(q: Queue, count: nat, size: nat)
    requires WellFormed(q) && Enabled(q, Complete(count), size)
    ensures var r, left := Completed(q, count), Left(q.chunks[0]);
            && count <= |left| && r.written == q.written + left[..count]
            && (count == |left| ==> r.chunks == q.chunks[1..])
            && (count < |left| ==> |r.chunks| == |q.chunks| && r.chunks[1..] == q.chunks[1..]
                                   && Left(r.chunks[0]) == left[count..])
            && r.inFlight == if r.chunks == [] then 0 else 1
  {
    var front := q.chunks[0];
    assert front in q.chunks;
    assert front.data[front.pos..][..count] == front.data[front.pos..front.pos + count];
    assert front.data[front.pos..][count..] == front.data[front.pos + count..];
  }

  // ---------------------------------------------------------------- every run

  predicate Run(q: Queue, events: seq<Event>, r: Queue, size: nat, mark: nat)
    requires size > 0
    decreases |events|
  {
    if events == [] then q == r
    else Enabled(q, events[0], size) && Run(Step(q, events[0], size, mark), events[1..], r, size, mark)
  }

  /** The bytes an event adds to what is to be written. */
  function Gained(q: Queue, e: Event, size: nat, mark: nat): seq<Byte>
  {
    match e
    case Send(bytes) =>
      TakenAtMost(|q.chunks|, |bytes|, size, mark);
      bytes[..Taken(|q.chunks|, |bytes|, size, mark)]
    case Copy(data) => if |q.chunks| < mark then data else []
    case _ => []
  }

  /** The bytes that the sends of a run were promised to be written. */
  function Accepted(q: Queue, events: seq<Event>, size: nat, mark: nat): seq<Byte>
    requires size > 0
    decreases |events|
  {
    if events == [] || !Enabled(q, events[0], size) then []
    else Gained(q, events[0], size, mark) + Accepted(Step(q, events[0], size, mark), events[1..], size, mark)
  }

  const EMPTY := Queue([], [], 0)

  /** Every event adds what it is promised to add behind what was there, and loses nothing. */
  lemma StepConserves(q: Queue, e: Event, size: nat, mark: nat)
    requires size > 0 && WellFormed(q) && |q.chunks| <= mark && Enabled(q, e, size)
    ensures var r := Step(q, e, size, mark);
            && WellFormed(r) && |r.chunks| <= mark
            && r.written + Tails(r.chunks) == (q.written + Tails(q.chunks)) + Gained(q, e, size, mark)
  {
    hide Tails, Taken, SendAll, Completed, Push;
    match e {
      case Send(bytes) =>
        SendTakesPrefix(q, bytes, size, mark);
        Assoc(q.written, Tails(q.chunks), Gained(q, e, size, mark));
      case Copy(data) =>
        PushTakes(q, data, mark);
        Assoc(q.written, Tails(q.chunks), Gained(q, e, size, mark));
      case Complete(count) => CompleteMoves(q, count, size);
      case Fail =>
    }
  }

  lemma {:induction false} RunConserves(q: Queue, events: seq<Event>, r: Queue, size: nat, mark: nat)
    requires size > 0 && WellFormed(q) && |q.chunks| <= mark && Run(q, events, r, size, mark)
    ensures WellFormed(r) && |r.chunks| <= mark
    ensures r.written + Tails(r.chunks) == (q.written + Tails(q.chunks)) + Accepted(q, events, size, mark)
    decreases |events|
  {
    hide Tails, Step, Gained, WellFormed, Enabled;
    if events != [] {
      var next := Step(q, events[0], size, mark);
      StepConserves(q, events[0], size, mark);
      RunConserves(next, events[1..], r, size, mark);
      Assoc(q.written + Tails(q.chunks), Gained(q, events[0], size, mark), Accepted(next, events[1..], size, mark));
    }
  }

  // ---------------------------------------------------------------- writes in flight

  lemma {:induction false} SendAllWrites(q: Queue, bytes: seq<Byte>, size: nat, mark: nat)
    requires size > 0
    ensures var r := SendAll(q, bytes, size, mark);
            (Live(q) ==> Live(r)) && (Stalled(q) ==> Stalled(r) && r.written == q.written)
    decreases |bytes|
  {
    if |bytes| > size {
      SendAllWrites(Push(q, bytes[..size], mark), bytes[size..], size, mark);
    }
  }

  lemma StepWrites(q: Queue, e: Event, size: nat, mark: nat)
    requires size > 0 && Enabled(q, e, size)
    ensures var r := Step(q, e, size, mark);
            && (Live(q) ==> if e.Fail? then Stalled(r) else Live(r))
            && (Stalled(q) ==> Stalled(r) && r.written == q.written)
  {
    hide SendAll;
    if e.Send? {
      SendAllWrites(q, e.bytes, size, mark);
    }
  }

  /** After a failed write nothing more is ever written, whatever is sent. */
  lemma {:induction false} StalledForever(q: Queue, events: seq<Event>, r: Queue, size: nat, mark: nat)
    requires size > 0 && Stalled(q) && Run(q, events, r, size, mark)
    ensures Stalled(r) && r.written == q.written
    decreases |events|
  {
    hide Step, Stalled, Enabled;
    if events != [] {
      StepWrites(q, events[0], size, mark);
      StalledForever(Step(q, events[0], size, mark), events[1..], r, size, mark);
    }
  }

  lemma {:induction false} LiveUntilFailure(q: Queue, events: seq<Event>, r: Queue, size: nat, mark: nat)
    requires size > 0 && Live(q) && Run(q, events, r, size, mark)
    ensures if Fail in events then Stalled(r) else Live(r)
    decreases |events|
  {
    hide Step, Stalled, Live, Enabled;
    if events != [] {
      var next := Step(q, events[0], size, mark);
      StepWrites(q, events[0], size, mark);
      assert events == [events[0]] + events[1..];
      if events[0].Fail? {
        StalledForever(next, events[1..], r, size, mark);
      } else {
        LiveUntilFailure(next, events[1..], r, size, mark);
      }
    }
  }

  /**
   Bytes are conserved: in every run of sends of both kinds, partial completions and failures, what was
   written followed by what is still queued is what was accepted, in order, and the queue never exceeds the
   high water mark.  One write is in flight exactly while there is something to write, if and only if no
   write has failed.
   */
  lemma BytesAreConserved(events: seq<Event>, q: Queue, size: nat, mark: nat)
    requires size > 0 && Run(EMPTY, events, q, size, mark)
    ensures q.written + Tails(q.chunks) == Accepted(EMPTY, events, size, mark)
    ensures |q.chunks| <= mark && q.inFlight <= 1
    ensures Live(q) <==> Fail !in events
  {
    hide Run, Accepted;
    RunConserves(EMPTY, events, q, size, mark);
    LiveUntilFailure(EMPTY, events, q, size, mark);
    assert EMPTY.written + Tails(EMPTY.chunks) == [];
    assert [] + Accepted(EMPTY, events, size, mark) == Accepted(EMPTY, events, size, mark);
  }
}

/**
 The device object, with the pool its chunks live in.
 */
module CharacterDevice {
  import opened BufferRing
  import opened BufferPool
  import opened SendQueue

  /** A send buffer owns its memory: the address goes back to the pool when the buffer is destroyed. */
  datatype SendBuffer = SendBuffer(address: Address, chunk: Chunk)

  function Chunks(buffers: seq<SendBuffer>): seq<Chunk>
  {
    seq(|buffers|, i requires 0 <= i < |buffers| => buffers[i].chunk)
  }

  /**
   The buffers that are out of the pool (whose addresses lie between `lo` and `hi`) are exactly those
   of the queue, and no two send buffers share one.
   */
  ghost predicate Owns(buffers: seq<SendBuffer>, out: set<Address>, lo: Address, hi: Address)
  {
    && (forall i, j :: 0 <= i < j < |buffers| && lo <= buffers[i].address < hi ==>
          buffers[i].address != buffers[j].address)
    && (forall i :: 0 <= i < |buffers| && lo <= buffers[i].address < hi ==> buffers[i].address in out)
    && (forall p :: p in out ==> lo <= p < hi && exists i :: 0 <= i < |buffers| && buffers[i].address == p)
  }

  lemma OwnsPush(buffers: seq<SendBuffer>, out: set<Address>, lo: Address, hi: Address, b: SendBuffer)
    requires Owns(buffers, out, lo, hi) && (lo <= b.address < hi ==> b.address !in out)
    ensures Owns(buffers + [b], if lo <= b.address < hi then out + {b.address} else out, lo, hi)
  {
    var more := buffers + [b];
    forall p | p in out ensures exists i :: 0 <= i < |more| && more[i].address == p {
      var i :| 0 <= i < |buffers| && buffers[i].address == p;
      assert more[i].address == p;
    }
    assert more[|buffers|].address == b.address;
  }

  lemma OwnsPop(buffers: seq<SendBuffer>, out: set<Address>, lo: Address, hi: Address)
    requires buffers != [] && Owns(buffers, out, lo, hi)
    ensures Owns(buffers[1..], out - {buffers[0].address}, lo, hi)
    ensures lo <= buffers[0].address < hi <==> buffers[0].address in out
  {
    var fewer := buffers[1..];
    forall p | p in out && p != buffers[0].address ensures exists i :: 0 <= i < |fewer| && fewer[i].address == p {
      var i :| 0 <= i < |buffers| && buffers[i].address == p;
      assert fewer[i - 1].address == p;
    }
  }

  lemma OwnsAdvance(buffers: seq<SendBuffer>, out: set<Address>, lo: Address, hi: Address, c: Chunk)
    requires buffers != [] && Owns(buffers, out, lo, hi)
    ensures Owns([SendBuffer(buffers[0].address, c)] + buffers[1..], out, lo, hi)
  {
    var other := [SendBuffer(buffers[0].address, c)] + buffers[1..];
    assert |other| == |buffers| && forall i :: 0 <= i < |buffers| ==> other[i].address == buffers[i].address;
    forall p | p in out ensures exists i :: 0 <= i < |other| && other[i].address == p {
      var i :| 0 <= i < |buffers| && buffers[i].address == p;
      assert other[i].address == p;
    }
  }

  lemma ChunksAppend(buffers: seq<SendBuffer>, b: SendBuffer)
    ensures Chunks(buffers + [b]) == Chunks(buffers) + [b.chunk]
  {
  }

  lemma ChunksFront(buffers: seq<SendBuffer>, c: Chunk)
    requires buffers != []
    ensures Chunks(buffers)[0] == buffers[0].chunk && Chunks(buffers[1..]) == Chunks(buffers)[1..]
    ensures Chunks([SendBuffer(buffers[0].address, c)] + buffers[1..]) == [c] + Chunks(buffers)[1..]
  {
  }

  class CharacterDevice {
    const pool: BufferPool
    var sendBuffers: seq<SendBuffer>
    var highWaterMark: nat
    var inFlight: nat
    ghost var written: seq<Byte>

    ghost function Abstract(): Queue
      reads this
    {
      Queue(written, Chunks(sendBuffers), inFlight)
    }

    ghost predicate Inside(p: Address)
    {
      pool.pool <= p < BufferAt(pool.pool, pool.size, pool.count)
    }

    ghost predicate Valid()
      reads this, pool, pool.ptrs
    {
      && pool.Valid() && WellFormed(Abstract())
      && Owns(sendBuffers, pool.out, pool.pool, BufferAt(pool.pool, pool.size, pool.count))
    }

    constructor (base: Address, size: nat, count: nat, mark: nat)
      requires size > 0
      ensures Valid() && fresh(pool) && fresh(pool.ptrs) && pool.size == size && highWaterMark == mark
      ensures Abstract() == EMPTY
    {
      pool := new BufferPool(base, size, count);
      sendBuffers, highWaterMark, inFlight, written := [], mark, 0, [];
    }

    /** Takes a buffer from the pool, or from the system at `fallback` when the pool has none, and queues it. */
    method Enqueue(data: seq<Byte>, fallback: Address)
      requires Valid() && !Inside(fallback)
      modifies this`sendBuffers, pool
      ensures pool.Valid() && Owns(sendBuffers, pool.out, pool.pool, BufferAt(pool.pool, pool.size, pool.count))
      ensures Chunks(sendBuffers) == Chunks(old(sendBuffers)) + [Chunk(data, 0)]
    {
      hide Chunks, Owns;
      ghost var out := pool.out;
      BuffersAreDistinct(pool.pool, pool.size, pool.count);
      var address := pool.Malloc(fallback);
      var b := SendBuffer(address, Chunk(data, 0));
      OwnsPush(sendBuffers, out, pool.pool, BufferAt(pool.pool, pool.size, pool.count), b);
      ChunksAppend(sendBuffers, b);
      sendBuffers := sendBuffers + [b];
    }

    /** Queues one chunk that a callback has copied into a fresh buffer. */
    method SendChunk(data: seq<Byte>, fallback: Address)
      requires Valid() && |data| <= pool.size && !Inside(fallback)
      modifies this`sendBuffers, this`inFlight, pool
      ensures Valid() && Abstract() == Push(old(Abstract()), data, highWaterMark)
    {
      if |sendBuffers| >= highWaterMark { return; }
      PushTakes(Abstract(), data, highWaterMark);
      var wasEmpty := sendBuffers == [];
      Enqueue(data, fallback);
      if wasEmpty {
        inFlight := inFlight + 1;
      }
    }

    /** Cuts a byte string into chunks of the pool's buffer size. */
    method Send(bytes: seq<Byte>, fallback: Address)
      requires Valid() && !Inside(fallback)
      modifies this`sendBuffers, this`inFlight, pool
      ensures Valid() && Abstract() == SendAll(old(Abstract()), bytes, pool.size, highWaterMark)
    {
      hide SendAll, Push, Chunks, Owns;
      ghost var goal := SendAll(Abstract(), bytes, pool.size, highWaterMark);
      if |sendBuffers| >= highWaterMark {
        ChunksLength(sendBuffers);
        FullQueueDrops(Abstract(), bytes, pool.size, highWaterMark);
        return;
      }
      var i := 0;
      ghost var left := bytes;
      while i < |bytes|
        invariant 0 <= i && Valid()
        invariant left == if i < |bytes| then bytes[i..] else []
        invariant SendAll(Abstract(), left, pool.size, highWaterMark) == goal
      {
        var remain := |bytes| - i;
        var current := if remain > pool.size then pool.size else remain;
        SendAllStep(Abstract(), left, pool.size, highWaterMark);
        CutFront(bytes, i, current, pool.size);
        SendChunk(bytes[i..i + current], fallback);
        i := i + pool.size;
        left := if i < |bytes| then bytes[i..] else [];
        SendAllStep(Abstract(), [], pool.size, highWaterMark);
      }
      SendAllStep(Abstract(), [], pool.size, highWaterMark);
    }

    /** Gives the front buffer back to the pool. */
    method PopFront()
      requires Valid() && sendBuffers != []
      modifies this`sendBuffers, pool, pool.ptrs
      ensures pool.Valid() && Owns(sendBuffers, pool.out, pool.pool, BufferAt(pool.pool, pool.size, pool.count))
      ensures sendBuffers == old(sendBuffers)[1..]
    {
      OwnsPop(sendBuffers, pool.out, pool.pool, BufferAt(pool.pool, pool.size, pool.count));
      hide Owns;
      var address := sendBuffers[0].address;
      pool.Release(address);
      sendBuffers := sendBuffers[1..];
    }

    /** Advances the front buffer by what was written of it; a sent buffer goes back to the pool. */
    method Advance(count: nat)
      requires Valid() && sendBuffers != [] && sendBuffers[0].chunk.pos + count <= |sendBuffers[0].chunk.data|
      modifies this`sendBuffers, pool, pool.ptrs
      ensures pool.Valid() && Owns(sendBuffers, pool.out, pool.pool, BufferAt(pool.pool, pool.size, pool.count))
      ensures Chunks(sendBuffers) ==
              var chunks := Chunks(old(sendBuffers));
              var front := old(sendBuffers)[0].chunk;
              if front.pos + count >= |front.data| then chunks[1..]
              else [front.(pos := front.pos + count)] + chunks[1..]
    {
      hide Owns, Chunks;
      var front := sendBuffers[0];
      var chunk := front.chunk.(pos := front.chunk.pos + count);
      ChunksFront(sendBuffers, chunk);
      if chunk.pos >= |chunk.data| {
        PopFront();
      } else {
        OwnsAdvance(sendBuffers, pool.out, pool.pool, BufferAt(pool.pool, pool.size, pool.count), chunk);
        sendBuffers := [SendBuffer(front.address, chunk)] + sendBuffers[1..];
      }
    }

    method OnSent(count: nat)
      requires Valid() && Enabled(Abstract(), Complete(count), pool.size)
      modifies this`sendBuffers, this`inFlight, this`written, pool, pool.ptrs
      ensures Valid() && Abstract() == Completed(old(Abstract()), count)
    {
      hide Owns, Chunks, WellFormed, Completed, BufferPool.Valid;
      CompleteKeeps(Abstract(), count, pool.size);
      ChunksLength(sendBuffers);
      ChunksFront(sendBuffers, sendBuffers[0].chunk);
      var front := sendBuffers[0].chunk;
      CompletedIs(Abstract(), count);
      Advance(count);
      written := written + front.data[front.pos..front.pos + count];
      inFlight := inFlight - 1;
      ChunksLength(sendBuffers);
      if sendBuffers != [] {
        inFlight := inFlight + 1;
      }
    }

    /** A write of the front buffer has ended: with an error, or having written `count` bytes. */
    method OnSend(error: bool, count: nat)
      requires Valid() && Enabled(Abstract(), if error then Fail else Complete(count), pool.size)
      modifies this`sendBuffers, this`inFlight, this`written, pool, pool.ptrs
      ensures Valid()
      ensures Abstract() == Step(old(Abstract()), if error then Fail else Complete(count), pool.size, highWaterMark)
    {
      hide Owns, Chunks;
      if error {
        inFlight := inFlight - 1;
      } else {
        OnSent(count);
      }
    }
  }

  lemma ChunksLength(buffers: seq<SendBuffer>)
    ensures |Chunks(buffers)| == |buffers|
  {
  }

  lemma CutFront(bytes: seq<Byte>, i: nat, current: nat, size: nat)
    requires i < |bytes| && current == if |bytes| - i > size then size else |bytes| - i
    ensures |bytes| - i <= size ==> bytes[i..i + current] == bytes[i..]
    ensures |bytes| - i > size ==>
              bytes[i..][..size] == bytes[i..i + current] && bytes[i..][size..] == bytes[i + size..]
  {
  }
}
