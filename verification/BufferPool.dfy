/**
 The ring of buffer addresses behind the multiple-producer single-consumer pool.
 */
module BufferRing {

  type Address = int

  /** One slot more than there are buffers, so that a full ring is not taken for an empty one. */
  predicate Ring(ring: seq<Address>, head: nat, tail: nat)
  {
    head < |ring| && tail < |ring|
  }

  function Next(pos: nat, count: nat): (r: nat)
    ensures r <= count
  {
    (pos + 1) % (count + 1)
  }

  /** The free buffers in the order in which they will be handed out. */
  function Slots(ring: seq<Address>, head: nat, tail: nat): seq<Address>
    requires Ring(ring, head, tail)
  {
    if head <= tail then ring[head..tail] else ring[head..] + ring[..tail]
  }

  lemma NextWraps(pos: nat, count: nat)
    requires pos <= count
    ensures Next(pos, count) == if pos == count then 0 else pos + 1
  {
  }

  lemma PopStraight(ring: seq<Address>, head: nat, tail: nat)
    requires head < tail < |ring|
    ensures ring[head..tail][0] == ring[head] && ring[head..tail][1..] == ring[head + 1..tail]
  {
  }

  lemma PopWrapped(ring: seq<Address>, head: nat, tail: nat)
    requires tail < head < |ring|
    ensures (ring[head..] + ring[..tail])[0] == ring[head]
    ensures (ring[head..] + ring[..tail])[1..] == ring[head + 1..] + ring[..tail]
  {
  }

  lemma PopLast(ring: seq<Address>, last: nat, tail: nat)
    requires tail < last == |ring| - 1
    ensures (ring[last..] + ring[..tail])[0] == ring[last]
    ensures (ring[last..] + ring[..tail])[1..] == ring[0..tail]
  {
  }

  lemma SlotsAre(ring: seq<Address>, head: nat, tail: nat)
    requires Ring(ring, head, tail)
    ensures Slots(ring, head, tail) == if head <= tail then ring[head..tail] else ring[head..] + ring[..tail]
  {
  }

  lemma PopSlot(ring: seq<Address>, head: nat, tail: nat)
    requires Ring(ring, head, tail) && head != tail
    ensures var s := Slots(ring, head, tail);
            s != [] && ring[head] == s[0] && Slots(ring, Next(head, |ring| - 1), tail) == s[1..]
  {
    hide Next, Slots;
    var next := Next(head, |ring| - 1);
    NextWraps(head, |ring| - 1);
    SlotsAre(ring, head, tail);
    SlotsAre(ring, next, tail);
    if head < tail {
      PopStraight(ring, head, tail);
    } else if next == 0 {
      PopLast(ring, head, tail);
    } else {
      PopWrapped(ring, head, tail);
    }
  }

  /** The slot at the tail holds no free buffer, so writing it changes nothing yet. */
  lemma StoreSlot(ring: seq<Address>, head: nat, tail: nat, p: Address)
    requires Ring(ring, head, tail)
    ensures Slots(ring[tail := p], head, tail) == Slots(ring, head, tail)
  {
  }

  lemma PushSlot(ring: seq<Address>, head: nat, tail: nat)
    requires Ring(ring, head, tail) && Next(tail, |ring| - 1) != head
    ensures Slots(ring, head, Next(tail, |ring| - 1)) == Slots(ring, head, tail) + [ring[tail]]
  {
    hide Next;
    NextWraps(tail, |ring| - 1);
  }

  lemma SlotCount(ring: seq<Address>, head: nat, tail: nat)
    requires Ring(ring, head, tail)
    ensures |Slots(ring, head, tail)| < |ring|
    ensures Slots(ring, head, tail) == [] <==> head == tail
    ensures Next(tail, |ring| - 1) == head <==> |Slots(ring, head, tail)| == |ring| - 1
  {
    hide Next;
    NextWraps(tail, |ring| - 1);
  }

  /** The source's 16-bit `remaining`. */
  function Remaining(head: nat, tail: nat, count: nat): int
  {
    (if tail > head then tail - head else count - (head - tail) + 1) % 0x1_0000
  }

  /**
   `remaining` is the number of free buffers unless there is none left: then it is one too many, and
   only a pool of 65535 buffers is saved by the width of the result.
   */
  lemma RemainingCounts(ring: seq<Address>, head: nat, tail: nat)
    requires Ring(ring, head, tail) && |ring| <= 0x1_0000
    ensures Remaining(head, tail, |ring| - 1) == |Slots(ring, head, tail)| <==> head != tail || |ring| == 0x1_0000
  {
  }

  predicate NoDuplicates(s: seq<Address>)
  {
    forall i, j :: 0 <= i < j < |s| ==> s[i] != s[j]
  }

  lemma {:induction false} SizeBound(s: seq<Address>, all: set<Address>)
    requires NoDuplicates(s) && forall p :: p in s ==> p in all
    ensures |s| <= |all|
  {
    if s != [] {
      var last := |s| - 1;
      assert s[last] in s && s[last] in all;
      assert |all - {s[last]}| == |all| - 1;
      forall p | p in s[..last] ensures p in all - {s[last]} {
      }
      SizeBound(s[..last], all - {s[last]});
    }
  }

  /** A ring that misses one of the buffers has room for it. */
  lemma RoomForOneMore(ring: seq<Address>, head: nat, tail: nat, all: set<Address>, p: Address)
    requires Ring(ring, head, tail) && |ring| == |all| + 1
    requires NoDuplicates(Slots(ring, head, tail)) && forall q :: q in Slots(ring, head, tail) ==> q in all
    requires p in all && p !in Slots(ring, head, tail)
    ensures Next(tail, |ring| - 1) != head
  {
    SizeBound(Slots(ring, head, tail), all - {p});
    SlotCount(ring, head, tail);
  }
}

/**
 The pool as an object, used by one thread at a time.
 */
module BufferPool {
  import opened BufferRing

  function BufferAt(pool: Address, size: nat, i: nat): Address
  {
    pool + i * size
  }

  function Buffers(pool: Address, size: nat, count: nat): set<Address>
  {
    set i: nat | i < count :: BufferAt(pool, size, i)
  }

  lemma BuffersIncrease(pool: Address, size: nat, i: nat, j: nat)
    requires i < j
    ensures BufferAt(pool, size, i) + size <= BufferAt(pool, size, j)
  {
    assert j * size == i * size + (j - i) * size;
    assert (j - i) * size == size + (j - i - 1) * size;
  }

  /** The buffers are as many as promised and all lie inside the pool. */
  lemma {:induction false} BuffersAreDistinct(pool: Address, size: nat, count: nat)
    requires size > 0
    ensures |Buffers(pool, size, count)| == count
    ensures forall p :: p in Buffers(pool, size, count) ==> pool <= p < BufferAt(pool, size, count)
  {
    if count > 0 {
      BuffersAreDistinct(pool, size, count - 1);
      var last := BufferAt(pool, size, count - 1);
      BuffersIncrease(pool, size, count - 1, count);
      assert Buffers(pool, size, count) == Buffers(pool, size, count - 1) + {last};
      if count > 1 {
        BuffersIncrease(pool, size, 0, count - 1);
      }
    }
  }

  lemma InitialRing(ring: seq<Address>, pool: Address, size: nat, count: nat)
    requires size > 0 && |ring| == count + 1
    requires forall k: nat :: k < count ==> ring[k] == BufferAt(pool, size, k)
    ensures NoDuplicates(Slots(ring, 0, count))
    ensures forall p :: p in Slots(ring, 0, count) <==> p in Buffers(pool, size, count)
    ensures Slots(ring, 0, count) == seq(count, i requires 0 <= i => BufferAt(pool, size, i))
  {
    var slots := Slots(ring, 0, count);
    forall i, j | 0 <= i < j < |slots| ensures slots[i] != slots[j] {
      BuffersIncrease(pool, size, i, j);
    }
    forall p | p in Buffers(pool, size, count) ensures p in slots {
      var i: nat :| i < count && p == BufferAt(pool, size, i);
      assert slots[i] == p;
    }
  }

  class BufferPool {
    const pool: Address
    const size: nat
    const count: nat
    const ptrs: array<Address>
    var head: nat
    var tail: nat
    /** The pool's buffers that have been handed out and not returned. */
    ghost var out: set<Address>

    ghost function Free(): seq<Address>
      requires head < ptrs.Length && tail < ptrs.Length
      reads this, ptrs
    {
      Slots(ptrs[..], head, tail)
    }

    /** Every buffer is either handed out or in the ring once. */
    ghost predicate Valid()
      reads this, ptrs
    {
      && size > 0 && ptrs.Length == count + 1 && head <= count && tail <= count
      && NoDuplicates(Free())
      && (forall p :: p in Free() ==> p in Buffers(pool, size, count) && p !in out)
      && (forall p :: p in Buffers(pool, size, count) ==> p in Free() || p in out)
      && out <= Buffers(pool, size, count)
    }

    constructor (pool: Address, size: nat, count: nat)
      requires size > 0
      ensures Valid() && fresh(ptrs) && out == {}
      ensures this.pool == pool && this.size == size && this.count == count
      ensures Free() == seq(count, i requires 0 <= i => BufferAt(pool, size, i))
    {
      this.pool, this.size, this.count := pool, size, count;
      ptrs := new Address[count + 1];
      head, tail, out := 0, count, {};
      new;
      for i := 0 to count
        invariant forall k: nat :: k < i ==> ptrs[k] == BufferAt(pool, size, k)
        invariant head == 0 && tail == count && out == {}
      {
        ptrs[i] := BufferAt(pool, size, i);
      }
      ptrs[count] := 0;
      InitialRing(ptrs[..], pool, size, count);
    }

    /** Hands out the buffer that has been free longest; `fallback` is what the system would allocate. */
    method Malloc(fallback: Address) returns (p: Address)
      requires Valid()
      modifies this`head, this`out
      ensures Valid()
      ensures old(Free()) == [] ==> p == fallback && Free() == [] && out == old(out)
      ensures old(Free()) != [] ==> p == old(Free())[0] && Free() == old(Free())[1..]
      ensures old(Free()) != [] ==> p !in old(out) && out == old(out) + {p}
    {
      SlotCount(ptrs[..], head, tail);
      if head == tail {
        return fallback;
      }
      PopSlot(ptrs[..], head, tail);
      p := ptrs[head];
      head := Next(head, count);
      out := out + {p};
    }

    /** Takes a buffer back; addresses outside the pool go back to the system. */
    method Release(p: Address)
      requires Valid()
      requires pool <= p < BufferAt(pool, size, count) ==> p in out
      modifies this`tail, this`out, ptrs
      ensures Valid()
      ensures p in old(out) ==> Free() == old(Free()) + [p] && out == old(out) - {p}
      ensures p !in old(out) ==> Free() == old(Free()) && out == old(out)
    {
      BuffersAreDistinct(pool, size, count);
      if p < pool || p >= BufferAt(pool, size, count) {
        return;
      }
      RoomForOneMore(ptrs[..], head, tail, Buffers(pool, size, count), p);
      StoreSlot(ptrs[..], head, tail, p);
      ghost var before := ptrs[..];
      ptrs[tail] := p;
      assert ptrs[..] == before[tail := p];
      PushSlot(ptrs[..], head, tail);
      tail := Next(tail, count);
      out := out - {p};
    }
  }
}
