/**
 The pool under concurrency: one allocating thread and any number of freeing threads, interleaved at
 every access to shared memory.  Memory is sequentially consistent.
 */
module PoolInterleaving {
  import opened BufferRing

  type Thread = nat

  /** Where the allocating thread is in `malloc`. */
  datatype Allocator = Resting | SawBuffer | Took(p: Address)

  /** Where a thread is in `free`. */
  datatype Freer = Entered(p: Address) | HasLock(p: Address) | Stored(p: Address) | Advanced

  datatype Lock = Unlocked | LockedBy(thread: Thread)

  /** `handed` and `returned` record the order in which buffers left and re-entered the ring. */
  datatype State = State(ring: seq<Address>, head: nat, tail: nat, lock: Lock,
                         allocator: Allocator, freers: map<Thread, Freer>, out: set<Address>,
                         handed: seq<Address>, returned: seq<Address>)

  datatype Step =
    | CheckEmpty
    | ReadHead
    | AdvanceHead
    | EnterFree(thread: Thread, p: Address)
    | AcquireLock(thread: Thread)
    | StoreTail(thread: Thread)
    | AdvanceTail(thread: Thread)
    | ReleaseLock(thread: Thread)

  /** Callers free only buffers they hold, once each; a thread frees one buffer at a time. */
  predicate Enabled(s: State, step: Step)
  {
    && Ring(s.ring, s.head, s.tail)
    && match step
       case CheckEmpty => s.allocator.Resting?
       case ReadHead => s.allocator.SawBuffer?
       case AdvanceHead => s.allocator.Took?
       case EnterFree(t, p) => t !in s.freers && p in s.out
       case AcquireLock(t) => t in s.freers && s.freers[t].Entered? && s.lock.Unlocked?
       case StoreTail(t) => t in s.freers && s.freers[t].HasLock?
       case AdvanceTail(t) => t in s.freers && s.freers[t].Stored?
       case ReleaseLock(t) => t in s.freers && s.freers[t].Advanced?
  }

  /** An empty ring sends the allocator to the system; that changes nothing here. */
  function Next(s: State, step: Step): State
    requires Enabled(s, step)
  {
    match step
    case CheckEmpty => if s.head == s.tail then s else s.(allocator := SawBuffer)
    case ReadHead => s.(allocator := Took(s.ring[s.head]))
    case AdvanceHead =>
      var p := s.allocator.p;
      s.(head := BufferRing.Next(s.head, |s.ring| - 1), allocator := Resting,
         out := s.out + {p}, handed := s.handed + [p])
    case EnterFree(t, p) => s.(freers := s.freers[t := Entered(p)], out := s.out - {p})
    case AcquireLock(t) => s.(lock := LockedBy(t), freers := s.freers[t := HasLock(s.freers[t].p)])
    case StoreTail(t) => s.(ring := s.ring[s.tail := s.freers[t].p], freers := s.freers[t := Stored(s.freers[t].p)])
    case AdvanceTail(t) =>
      s.(tail := BufferRing.Next(s.tail, |s.ring| - 1), freers := s.freers[t := Advanced],
         returned := s.returned + [s.freers[t].p])
    case ReleaseLock(t) => s.(lock := Unlocked, freers := s.freers - {t})
  }

  predicate Run(s: State, steps: seq<Step>, t: State)
    decreases |steps|
  {
    if steps == [] then s == t else Enabled(s, steps[0]) && Run(Next(s, steps[0]), steps[1..], t)
  }

  function Free(s: State): seq<Address>
    requires Ring(s.ring, s.head, s.tail)
  {
    Slots(s.ring, s.head, s.tail)
  }

  /** The buffer a thread is returning and has not yet put in the ring. */
  predicate Holds(s: State, thread: Thread, p: Address)
  {
    thread in s.freers && !s.freers[thread].Advanced? && s.freers[thread].p == p
  }

  // ---------------------------------------------------------------- the invariant

  /** Every buffer is in exactly one place: once in the ring, handed out, or held by one freeing thread. */
  ghost predicate Ownership(s: State, all: set<Address>)
    requires Ring(s.ring, s.head, s.tail)
  {
    && NoDuplicates(Free(s))
    && (forall p :: p in Free(s) ==> p in all && p !in s.out)
    && s.out <= all
    && (forall t, p :: Holds(s, t, p) ==> p in all && p !in Free(s) && p !in s.out)
    && (forall t, u, p :: Holds(s, t, p) && Holds(s, u, p) ==> t == u)
    && (forall p :: p in all ==> p in Free(s) || p in s.out || exists t :: Holds(s, t, p))
  }

  /** The lock admits one thread to the tail at a time. */
  ghost predicate Locking(s: State)
    requires Ring(s.ring, s.head, s.tail)
  {
    && (s.lock.LockedBy? ==> s.lock.thread in s.freers)
    && (forall t :: t in s.freers ==>
          && (s.lock == LockedBy(t) <==> !s.freers[t].Entered?)
          && (s.freers[t].Stored? ==> s.ring[s.tail] == s.freers[t].p))
  }

  ghost predicate Allocating(s: State)
    requires Ring(s.ring, s.head, s.tail)
  {
    && (!s.allocator.Resting? ==> Free(s) != [])
    && (s.allocator.Took? ==> s.allocator.p == Free(s)[0])
  }

  /** Buffers leave the ring in the order in which they came: first the initial ones, then as returned. */
  ghost predicate FirstInFirstOut(s: State, initial: seq<Address>)
    requires Ring(s.ring, s.head, s.tail)
  {
    s.handed + Free(s) == initial + s.returned
  }

  ghost predicate Inv(s: State, all: set<Address>, initial: seq<Address>)
  {
    && Ring(s.ring, s.head, s.tail) && |s.ring| == |all| + 1
    && Ownership(s, all) && Locking(s) && Allocating(s) && FirstInFirstOut(s, initial)
  }

  /** How a step changes the free list: only advancing an index does, and a tail never meets the head. */
  lemma FreeStep(s: State, step: Step, all: set<Address>, initial: seq<Address>)
    requires Inv(s, all, initial) && Enabled(s, step)
    ensures var t := Next(s, step);
            && Ring(t.ring, t.head, t.tail) && |t.ring| == |s.ring|
            && Free(t) == (match step
                           case AdvanceHead => Free(s)[1..]
                           case AdvanceTail(u) => Free(s) + [s.freers[u].p]
                           case _ => Free(s))
    ensures step.AdvanceTail? ==> Next(s, step).tail != s.head
    ensures step.AdvanceHead? ==> s.allocator.p == Free(s)[0]
  {
    SlotCount(s.ring, s.head, s.tail);
    match step {
      case AdvanceHead => PopSlot(s.ring, s.head, s.tail);
      case StoreTail(t) => StoreSlot(s.ring, s.head, s.tail, s.freers[t].p);
      case AdvanceTail(t) =>
        assert Holds(s, t, s.freers[t].p);
        RoomForOneMore(s.ring, s.head, s.tail, all, s.freers[t].p);
        PushSlot(s.ring, s.head, s.tail);
      case _ =>
    }
  }

  /** How a step changes what the freeing threads hold: a buffer is taken up on entry and given up at the tail. */
  lemma HoldsStep(s: State, step: Step, t: Thread, p: Address)
    requires Enabled(s, step)
    ensures Holds(Next(s, step), t, p) <==>
            (Holds(s, t, p) && !(step.AdvanceTail? && step.thread == t)) || step == EnterFree(t, p)
  {
  }

  lemma PushKeepsDistinct(q: seq<Address>, p: Address)
    requires NoDuplicates(q) && p !in q
    ensures NoDuplicates(q + [p])
  {
  }

  lemma PopKeepsDistinct(q: seq<Address>)
    requires NoDuplicates(q) && q != []
    ensures NoDuplicates(q[1..]) && q[0] !in q[1..]
  {
  }

  /** Nothing is in the ring twice, and nothing in the ring is in use. */
  lemma RingStep(s: State, step: Step, all: set<Address>, initial: seq<Address>)
    requires Inv(s, all, initial) && Enabled(s, step)
    ensures var t := Next(s, step);
            && Ring(t.ring, t.head, t.tail) && NoDuplicates(Free(t))
            && (forall p :: p in Free(t) ==> p in all && p !in t.out) && t.out <= all
  {
    hide NoDuplicates, Slots, Locking, FirstInFirstOut, BufferRing.Next;
    FreeStep(s, step, all, initial);
    match step {
      case AdvanceTail(u) =>
        assert Holds(s, u, s.freers[u].p);
        PushKeepsDistinct(Free(s), s.freers[u].p);
      case AdvanceHead => PopKeepsDistinct(Free(s));
      case _ =>
    }
  }

  /** What a freeing thread holds is in nobody else's hands. */
  lemma HeldStep(s: State, step: Step, all: set<Address>, initial: seq<Address>, u: Thread, p: Address)
    requires Inv(s, all, initial) && Enabled(s, step) && Holds(Next(s, step), u, p)
    ensures Ring(Next(s, step).ring, Next(s, step).head, Next(s, step).tail)
    ensures p in all && p !in Free(Next(s, step)) && p !in Next(s, step).out
    ensures forall v :: Holds(Next(s, step), v, p) ==> v == u
  {
    FreeStep(s, step, all, initial);
    HoldsStep(s, step, u, p);
    forall v | Holds(Next(s, step), v, p) ensures v == u {
      HoldsStep(s, step, v, p);
    }
    if step.AdvanceTail? {
      assert Holds(s, step.thread, s.freers[step.thread].p);
    }
  }

  /** No buffer is lost. */
  lemma KeptStep(s: State, step: Step, all: set<Address>, initial: seq<Address>, p: Address)
    requires Inv(s, all, initial) && Enabled(s, step) && p in all
    ensures var t := Next(s, step);
            Ring(t.ring, t.head, t.tail) && (p in Free(t) || p in t.out || exists u :: Holds(t, u, p))
  {
    FreeStep(s, step, all, initial);
    var t := Next(s, step);
    if u :| Holds(s, u, p) {
      HoldsStep(s, step, u, p);
      assert p in Free(t) || Holds(t, u, p);
    } else if step.EnterFree? && p == step.p {
      HoldsStep(s, step, step.thread, p);
    } else {
      assert p in Free(s) || p in s.out;
    }
  }

  lemma OwnershipStep(s: State, step: Step, all: set<Address>, initial: seq<Address>)
    requires Inv(s, all, initial) && Enabled(s, step)
    ensures Ring(Next(s, step).ring, Next(s, step).head, Next(s, step).tail) && Ownership(Next(s, step), all)
  {
    var t := Next(s, step);
    RingStep(s, step, all, initial);
    forall u, p | Holds(t, u, p)
      ensures p in all && p !in Free(t) && p !in t.out
      ensures forall v :: Holds(t, v, p) ==> v == u
    {
      HeldStep(s, step, all, initial, u, p);
    }
    forall p | p in all ensures p in Free(t) || p in t.out || exists u :: Holds(t, u, p) {
      KeptStep(s, step, all, initial, p);
    }
  }

  lemma LockingStep(s: State, step: Step)
    requires Enabled(s, step) && Locking(s)
    requires Ring(Next(s, step).ring, Next(s, step).head, Next(s, step).tail)
    ensures Locking(Next(s, step))
  {
  }

  lemma AllocatingStep(s: State, step: Step, all: set<Address>, initial: seq<Address>)
    requires Inv(s, all, initial) && Enabled(s, step)
    ensures Ring(Next(s, step).ring, Next(s, step).head, Next(s, step).tail) && Allocating(Next(s, step))
  {
    FreeStep(s, step, all, initial);
    SlotCount(s.ring, s.head, s.tail);
    if Free(s) != [] {
      PopSlot(s.ring, s.head, s.tail);
    }
  }

  lemma QueuePop(handed: seq<Address>, free: seq<Address>)
    requires free != []
    ensures (handed + [free[0]]) + free[1..] == handed + free
  {
  }

  lemma QueuePush(handed: seq<Address>, free: seq<Address>, initial: seq<Address>, returned: seq<Address>, p: Address)
    requires handed + free == initial + returned
    ensures handed + (free + [p]) == initial + (returned + [p])
  {
    assert handed + (free + [p]) == (handed + free) + [p];
    assert initial + (returned + [p]) == (initial + returned) + [p];
  }

  lemma OrderStep(s: State, step: Step, all: set<Address>, initial: seq<Address>)
    requires Inv(s, all, initial) && Enabled(s, step)
    ensures Ring(Next(s, step).ring, Next(s, step).head, Next(s, step).tail) && FirstInFirstOut(Next(s, step), initial)
  {
    FreeStep(s, step, all, initial);
    match step {
      case AdvanceHead => QueuePop(s.handed, Free(s));
      case AdvanceTail(u) => QueuePush(s.handed, Free(s), initial, s.returned, s.freers[u].p);
      case _ =>
    }
  }

  lemma InvStep(s: State, step: Step, all: set<Address>, initial: seq<Address>)
    requires Inv(s, all, initial) && Enabled(s, step)
    ensures Inv(Next(s, step), all, initial)
  {
    FreeStep(s, step, all, initial);
    OwnershipStep(s, step, all, initial);
    LockingStep(s, step);
    AllocatingStep(s, step, all, initial);
    OrderStep(s, step, all, initial);
  }

  // ---------------------------------------------------------------- every interleaving

  /** A full pool: all buffers in the ring, nobody in `malloc` or `free`. */
  ghost predicate Initial(s: State, buffers: seq<Address>)
  {
    && NoDuplicates(buffers) && |s.ring| == |buffers| + 1 && s.head == 0 && s.tail == |buffers|
    && s.ring[..|buffers|] == buffers
    && s.lock.Unlocked? && s.allocator.Resting? && s.freers == map[] && s.out == {}
    && s.handed == [] && s.returned == []
  }

  ghost function Members(s: seq<Address>): set<Address>
  {
    set p | p in s
  }

  lemma {:induction false} MembersCount(s: seq<Address>)
    requires NoDuplicates(s)
    ensures |Members(s)| == |s|
  {
    if s != [] {
      var last := |s| - 1;
      MembersCount(s[..last]);
      assert s == s[..last] + [s[last]];
      assert Members(s) == Members(s[..last]) + {s[last]};
    }
  }

  lemma InitialInv(s: State, buffers: seq<Address>)
    requires Initial(s, buffers)
    ensures Inv(s, Members(buffers), buffers)
  {
    MembersCount(buffers);
    assert Free(s) == buffers;
  }

  /**
   What the steps that matter do.  A ring with a free buffer is never taken for an empty one; the buffer handed
   out is the first free one; a buffer that enters `free` is no longer out, and is returned at the tail.
   */
  lemma StepLaw(s: State, step: Step, all: set<Address>, initial: seq<Address>)
    requires Inv(s, all, initial) && Enabled(s, step)
    ensures var t := Next(s, step);
            && (step.CheckEmpty? ==> (t.allocator.SawBuffer? <==> Free(s) != []))
            && (step.ReadHead? ==> Free(s) != [] && t.allocator == Took(Free(s)[0]))
            && (step.AdvanceHead? ==> Free(s) != [] && t.allocator.Resting?)
            && t.handed == s.handed + (if step.AdvanceHead? then [Free(s)[0]] else [])
            && t.out == (match step
                         case AdvanceHead => s.out + {Free(s)[0]}
                         case EnterFree(_, p) => s.out - {p}
                         case _ => s.out)
            && (step.EnterFree? ==> Holds(t, step.thread, step.p))
            && t.returned == s.returned + (match step
                                           case AdvanceTail(u) => [s.freers[u].p]
                                           case _ => [])
            && (step.ReleaseLock? ==> t.lock.Unlocked? && step.thread !in t.freers)
  {
    SlotCount(s.ring, s.head, s.tail);
    if s.head != s.tail {
      PopSlot(s.ring, s.head, s.tail);
    }
  }

  lemma {:induction false} InvRun(s: State, steps: seq<Step>, t: State, all: set<Address>, initial: seq<Address>)
    requires Inv(s, all, initial) && Run(s, steps, t)
    ensures Inv(t, all, initial)
    decreases |steps|
  {
    if steps != [] {
      InvStep(s, steps[0], all, initial);
      InvRun(Next(s, steps[0]), steps[1..], t, all, initial);
    }
  }

  /**
   Under every interleaving the buffers stay in exactly one place each, and they are handed out in the
   order in which they were returned.
   */
  lemma EveryInterleaving(start: State, buffers: seq<Address>, steps: seq<Step>, s: State)
    requires Initial(start, buffers) && Run(start, steps, s)
    ensures Ring(s.ring, s.head, s.tail)
    ensures Ownership(s, Members(buffers))
    ensures s.handed + Free(s) == buffers + s.returned
  {
    InitialInv(start, buffers);
    InvRun(start, steps, s, Members(buffers), buffers);
  }

  /** A buffer that is handed out is in nobody's hands at that moment, and the tail never reaches the head. */
  lemma NeverHandedOutTwice(start: State, buffers: seq<Address>, steps: seq<Step>, s: State, step: Step)
    requires Initial(start, buffers) && Run(start, steps, s) && Enabled(s, step)
    ensures step.AdvanceHead? ==>
              s.allocator.p in Members(buffers) && s.allocator.p !in s.out && forall t :: !Holds(s, t, s.allocator.p)
    ensures step.AdvanceTail? ==> Next(s, step).tail != s.head
    ensures step.StoreTail? ==> Free(Next(s, step)) == Free(s)
  {
    InitialInv(start, buffers);
    InvRun(start, steps, s, Members(buffers), buffers);
    FreeStep(s, step, Members(buffers), buffers);
    if step.AdvanceHead? {
      assert Free(s)[0] in Free(s);
    }
  }
}
