// The hardware command ring shared by the three command modules: a word
// buffer holding one four-word record per slot, a head (where the GPU reads)
// and a tail (where the CPU writes). The producer loop of
// `submit_commands_to_hardware` is the same code in every variant; the GPU
// head register it polls when the ring is full is an input of the model.
module CommandRingModel {
  import opened MachineWords
  import opened GpuCore

  // ---------------------------------------------------------------------------
  // Slots and records
  // ---------------------------------------------------------------------------

  /** The four words of a record, in ring order. */
  function Words(c: Command): seq<u32>
  {
    [c.kind, c.param0, c.param1, c.param2]
  }

  /** The record stored in slot `slot` (words `4*slot .. 4*slot+3`). */
  function RecordAt(buf: seq<u32>, slot: nat): Command
    requires 4 * slot + 4 <= |buf|
  {
    Command(buf[4 * slot], buf[4 * slot + 1], buf[4 * slot + 2], buf[4 * slot + 3])
  }

  /** The buffer after the producer stores `c` in slot `slot`. */
  function WriteSlot(buf: seq<u32>, slot: nat, c: Command): (r: seq<u32>)
    requires 4 * slot + 4 <= |buf|
    ensures |r| == |buf|
  {
    buf[4 * slot := c.kind][4 * slot + 1 := c.param0][4 * slot + 2 := c.param1][4 * slot + 3 := c.param2]
  }

  /** Storing a record and reading its slot gives the record; other slots keep theirs. */
  lemma WriteThenRead(buf: seq<u32>, slot: nat, c: Command, other: nat)
    requires 4 * slot + 4 <= |buf| && 4 * other + 4 <= |buf|
    ensures RecordAt(WriteSlot(buf, slot, c), slot) == c
    ensures other != slot ==> RecordAt(WriteSlot(buf, slot, c), other) == RecordAt(buf, other)
  {
  }

  // ---------------------------------------------------------------------------
  // Positions in the ring
  // ---------------------------------------------------------------------------

  /** `(slot + 1) % capacity`. */
  function NextSlot(slot: nat, capacity: nat): (r: nat)
    requires 0 < capacity
    ensures r < capacity
  {
    (slot + 1) % capacity
  }

  /** The slot reached from `slot` after `n` advances. */
  function Advance(slot: nat, n: nat, capacity: nat): (r: nat)
    requires slot < capacity
    ensures r < capacity
    decreases n
  {
    if n == 0 then slot else NextSlot(Advance(slot, n - 1, capacity), capacity)
  }

  /** For a slot in range the successor is the next index, wrapping to 0 at the end. */
  lemma NextSlotInRange(slot: nat, capacity: nat)
    requires slot < capacity
    ensures NextSlot(slot, capacity) == if slot + 1 == capacity then 0 else slot + 1
  {
  }

  /** Advancing fewer than `capacity` times is an offset that wraps at most once. */
  lemma {:induction false} AdvanceIsOffset(slot: nat, n: nat, capacity: nat)
    requires slot < capacity && n < capacity
    ensures Advance(slot, n, capacity) == if slot + n < capacity then slot + n else slot + n - capacity
    decreases n
  {
    if n > 0 {
      AdvanceIsOffset(slot, n - 1, capacity);
      NextSlotInRange(Advance(slot, n - 1, capacity), capacity);
    }
  }

  /** Fewer than `capacity` advances from one slot visit pairwise distinct slots. */
  lemma AdvanceDistinct(slot: nat, j: nat, k: nat, capacity: nat)
    requires slot < capacity && j < k < capacity
    ensures Advance(slot, j, capacity) != Advance(slot, k, capacity)
  {
    AdvanceIsOffset(slot, j, capacity);
    AdvanceIsOffset(slot, k, capacity);
  }

  /** The number of advances that lead from `head` to `tail`: the records waiting in the ring. */
  function Distance(head: nat, tail: nat, capacity: nat): nat
    requires head < capacity && tail < capacity
  {
    if head <= tail then tail - head else tail + capacity - head
  }

  /** Advancing `head` by the distance reaches `tail`, and no fewer advances do. */
  lemma DistanceReaches(head: nat, tail: nat, capacity: nat, k: nat)
    requires head < capacity && tail < capacity
    ensures Advance(head, Distance(head, tail, capacity), capacity) == tail
    ensures k < Distance(head, tail, capacity) ==> Advance(head, k, capacity) != tail
  {
    AdvanceIsOffset(head, Distance(head, tail, capacity), capacity);
    if k < Distance(head, tail, capacity) {
      AdvanceIsOffset(head, k, capacity);
    }
  }

  /** Consuming one record shortens the distance by one. */
  lemma DistanceStep(head: nat, tail: nat, capacity: nat)
    requires head < capacity && tail < capacity && head != tail
    ensures Distance(NextSlot(head, capacity), tail, capacity) == Distance(head, tail, capacity) - 1
  {
    NextSlotInRange(head, capacity);
  }

  /** Number of records the producer can add before `(tail + 1) % capacity == head`. */
  function FreeSlots(head: nat, tail: nat, capacity: nat): nat
    requires head < capacity && tail < capacity
  {
    if tail < head then head - tail - 1 else head + capacity - tail - 1
  }

  // ---------------------------------------------------------------------------
  // The ring's contents
  // ---------------------------------------------------------------------------

  /** The buffer after storing `cs` in successive slots starting at `tail`. */
  function RingImage(buf: seq<u32>, tail: nat, capacity: nat, cs: seq<Command>): (r: seq<u32>)
    requires tail < capacity && 4 * capacity <= |buf|
    ensures |r| == |buf|
    decreases |cs|
  {
    if cs == [] then buf
    else WriteSlot(RingImage(buf, tail, capacity, cs[..|cs| - 1]), Advance(tail, |cs| - 1, capacity), cs[|cs| - 1])
  }

  /** The `n` records that start at `head`, in ring order. */
  function ReadRing(buf: seq<u32>, head: nat, n: nat, capacity: nat): (r: seq<Command>)
    requires head < capacity && 4 * capacity <= |buf|
    ensures |r| == n
  {
    seq(n, k requires 0 <= k < n => RecordAt(buf, Advance(head, k, capacity)))
  }

  /**
   * Up to one lap of the ring, record `k` of `cs` is in slot `tail` advanced
   * `k` times.
   */
  lemma {:induction false} RingImageRecord(buf: seq<u32>, tail: nat, capacity: nat, cs: seq<Command>, k: nat)
    requires 4 * capacity <= |buf| && tail < capacity && |cs| <= capacity && k < |cs|
    ensures RecordAt(RingImage(buf, tail, capacity, cs), Advance(tail, k, capacity)) == cs[k]
    decreases |cs|
  {
    var n := |cs| - 1;
    var front := cs[..n];
    WriteThenRead(RingImage(buf, tail, capacity, front), Advance(tail, n, capacity), cs[n], Advance(tail, k, capacity));
    if k < n {
      AdvanceDistinct(tail, k, n, capacity);
      RingImageRecord(buf, tail, capacity, front, k);
    }
  }

  /** A slot the producer did not reach keeps its record. */
  lemma {:induction false} RingImageUntouched(buf: seq<u32>, tail: nat, capacity: nat, cs: seq<Command>, slot: nat)
    requires 4 * capacity <= |buf| && tail < capacity && slot < capacity
    requires forall k :: 0 <= k < |cs| ==> slot != Advance(tail, k, capacity)
    ensures RecordAt(RingImage(buf, tail, capacity, cs), slot) == RecordAt(buf, slot)
    decreases |cs|
  {
    if cs != [] {
      var n := |cs| - 1;
      var front := cs[..n];
      WriteThenRead(RingImage(buf, tail, capacity, front), Advance(tail, n, capacity), cs[n], slot);
      assert slot != Advance(tail, n, capacity);
      RingImageUntouched(buf, tail, capacity, front, slot);
    }
  }

  /**
   * FIFO order: reading back the `|cs|` records from where the producer
   * started gives exactly the commands it stored, as long as they fit in one lap.
   */
  lemma ReadBackProduced(buf: seq<u32>, tail: nat, capacity: nat, cs: seq<Command>)
    requires 0 < capacity && 4 * capacity <= |buf| && tail < capacity && |cs| <= capacity
    ensures ReadRing(RingImage(buf, tail, capacity, cs), tail, |cs|, capacity) == cs
  {
    forall k | 0 <= k < |cs|
      ensures ReadRing(RingImage(buf, tail, capacity, cs), tail, |cs|, capacity)[k] == cs[k]
    {
      RingImageRecord(buf, tail, capacity, cs, k);
    }
  }

  // ---------------------------------------------------------------------------
  // The producer
  // ---------------------------------------------------------------------------

  /** What the producer loop leaves: whether it timed out, the new head and tail, and how many records it stored. */
  datatype ProduceOutcome = ProduceOutcome(timedOut: bool, head: nat, tail: nat, written: nat)

  /**
   * The producer loop on `n` records when the GPU head register reads
   * `gpuHead`: a record goes to the tail slot unless the next slot is the
   * head; then the head is refreshed from the register, and the ring is still
   * full only if the register points at the same slot, which times out.
   */
  function Produce(head: nat, tail: nat, capacity: nat, gpuHead: nat, n: nat): ProduceOutcome
    requires tail < capacity
    decreases n
  {
    if n == 0 then ProduceOutcome(false, head, tail, 0)
    else
      var next := NextSlot(tail, capacity);
      if next == head && next == gpuHead then ProduceOutcome(true, gpuHead, tail, 0)
      else
        var rest := Produce(if next == head then gpuHead else head, next, capacity, gpuHead, n - 1);
        rest.(written := rest.written + 1)
  }

  /**
   * The producer stores a prefix of the records into successive slots: all of
   * them unless it timed out, and the tail ends after the last one stored.
   */
  lemma {:induction false} ProduceShape(head: nat, tail: nat, capacity: nat, gpuHead: nat, n: nat)
    requires 0 < capacity && tail < capacity
    ensures var o := Produce(head, tail, capacity, gpuHead, n);
      o.written <= n && (o.timedOut <==> o.written < n) &&
      o.tail == Advance(tail, o.written, capacity) &&
      (o.head == head || o.head == gpuHead)
    decreases n
  {
    if n > 0 {
      var next := NextSlot(tail, capacity);
      if !(next == head && next == gpuHead) {
        var h := if next == head then gpuHead else head;
        ProduceShape(h, next, capacity, gpuHead, n - 1);
        var rest := Produce(h, next, capacity, gpuHead, n - 1);
        AdvanceAfterNext(tail, rest.written, capacity);
      }
    }
  }

  /** Advancing from the successor is advancing once more. */
  lemma {:induction false} AdvanceAfterNext(slot: nat, n: nat, capacity: nat)
    requires 0 < capacity && slot < capacity
    ensures Advance(NextSlot(slot, capacity), n, capacity) == Advance(slot, n + 1, capacity)
    decreases n
  {
    if n > 0 {
      AdvanceAfterNext(slot, n - 1, capacity);
    } else {
      NextSlotInRange(slot, capacity);
    }
  }

  /**
   * Records that fit in the free slots are all stored without waiting,
   * whatever the head register says, and the head stays where it was.
   */
  lemma {:induction false} ProduceFits(head: nat, tail: nat, capacity: nat, gpuHead: nat, n: nat)
    requires head < capacity && tail < capacity && n <= FreeSlots(head, tail, capacity)
    ensures Produce(head, tail, capacity, gpuHead, n) == ProduceOutcome(false, head, Advance(tail, n, capacity), n)
    decreases n
  {
    if n > 0 {
      NextSlotInRange(tail, capacity);
      var next := NextSlot(tail, capacity);
      ProduceFits(head, next, capacity, gpuHead, n - 1);
      AdvanceAfterNext(tail, n - 1, capacity);
    }
  }

  /**
   * When nothing consumes the ring (the head register keeps pointing at the
   * head), exactly the free slots are filled and any record beyond them
   * times out.
   */
  lemma {:induction false} ProduceWithoutConsumer(head: nat, tail: nat, capacity: nat, n: nat)
    requires head < capacity && tail < capacity
    ensures var o := Produce(head, tail, capacity, head, n);
      (o.timedOut <==> n > FreeSlots(head, tail, capacity)) &&
      o.written == (if n <= FreeSlots(head, tail, capacity) then n else FreeSlots(head, tail, capacity)) &&
      o.head == head
    decreases n
  {
    if n > 0 {
      NextSlotInRange(tail, capacity);
      var next := NextSlot(tail, capacity);
      if next != head {
        ProduceWithoutConsumer(head, next, capacity, n - 1);
      }
    }
  }

  /**
   * The producer of `n` records leaves the head inside the ring: either they
   * fit in the free slots, so the head register is never read, or the
   * register holds a slot index when it is read.
   */
  predicate HeadStaysInRing(head: nat, tail: nat, capacity: nat, gpuHead: nat, n: nat)
    requires head < capacity && tail < capacity
  {
    n <= FreeSlots(head, tail, capacity) || gpuHead < capacity
  }

  /**
   * `HeadStaysInRing` is exactly the case in which the head the producer
   * leaves is a slot; otherwise `head_offset` takes the register's value,
   * which lies outside the ring.
   */
  lemma HeadStaysInRingExactly(head: nat, tail: nat, capacity: nat, gpuHead: nat, n: nat)
    requires head < capacity && tail < capacity
    ensures Produce(head, tail, capacity, gpuHead, n).head < capacity <==>
            HeadStaysInRing(head, tail, capacity, gpuHead, n)
  {
    if n <= FreeSlots(head, tail, capacity) {
      ProduceFits(head, tail, capacity, gpuHead, n);
    } else if gpuHead < capacity {
      ProduceShape(head, tail, capacity, gpuHead, n);
    } else {
      ProduceLeavesRing(head, tail, capacity, gpuHead, n);
    }
  }

  /**
   * With the head register outside the ring, more records than free slots
   * leave the head at the register's value.
   */
  lemma {:induction false} ProduceLeavesRing(head: nat, tail: nat, capacity: nat, gpuHead: nat, n: nat)
    requires head < capacity && tail < capacity <= gpuHead && FreeSlots(head, tail, capacity) < n
    ensures Produce(head, tail, capacity, gpuHead, n).head == gpuHead
    decreases n
  {
    NextSlotInRange(tail, capacity);
    var next := NextSlot(tail, capacity);
    if next == head {
      ProduceFromOutside(next, capacity, gpuHead, n - 1);
    } else {
      ProduceLeavesRing(head, next, capacity, gpuHead, n - 1);
    }
  }

  /** Once the head is outside the ring the producer never waits again, and the head stays there. */
  lemma {:induction false} ProduceFromOutside(tail: nat, capacity: nat, gpuHead: nat, n: nat)
    requires tail < capacity <= gpuHead
    ensures Produce(gpuHead, tail, capacity, gpuHead, n).head == gpuHead
    decreases n
  {
    if n > 0 {
      ProduceFromOutside(NextSlot(tail, capacity), capacity, gpuHead, n - 1);
    }
  }

  /** From an empty ring with no consumer at most `capacity - 1` records fit. */
  lemma EmptyRingHoldsCapacityMinusOne(slot: nat, capacity: nat, n: nat)
    requires slot < capacity
    ensures !Produce(slot, slot, capacity, slot, n).timedOut <==> n <= capacity - 1
  {
    ProduceWithoutConsumer(slot, slot, capacity, n);
  }

  /** `whole` is `rest` after `done` more records were stored before it. */
  predicate Continues(whole: ProduceOutcome, rest: ProduceOutcome, done: nat)
  {
    whole.timedOut == rest.timedOut && whole.head == rest.head && whole.tail == rest.tail &&
    whole.written == rest.written + done
  }

  /** `GibgoCommandRing`. `bufferSize` is in bytes, as in the C struct. */
  class CommandRing {
    var buffer: array<u32>
    var bufferSize: u64
    var capacity: u32
    var head: u32
    var tail: u32

    /** The buffer holds four words per slot, and the tail is a slot. */
    predicate Valid()
      reads this
    {
      0 < capacity && 4 * capacity <= buffer.Length && tail < capacity
    }

    /**
     * A ring of `capacity` slots with `head == tail == 0` and a buffer of
     * four words per slot.
     */
    constructor (capacity: u32)
      requires 0 < capacity && 16 * capacity < TWO_64
      ensures Valid() && fresh(buffer)
      ensures this.capacity == capacity && head == 0 && tail == 0
      ensures buffer.Length == 4 * capacity && bufferSize == 16 * capacity
    {
      this.capacity := capacity;
      bufferSize := 16 * capacity;
      buffer := new u32[4 * capacity];
      head := 0;
      tail := 0;
    }
  }

  /**
   * The full-ring wait: poll the GPU head register, at most `POLL_LIMIT`
   * times, while the next tail slot is the head. It reports a timeout exactly
   * when the register points at that slot; either way the head is now the
   * register's value.
   */
  method AwaitFreeSlot(ring: CommandRing, next: u32, gpuHead: u32) returns (timedOut: bool)
    requires next == ring.head
    modifies ring`head
    ensures ring.head == gpuHead
    ensures timedOut <==> next == gpuHead
  {
    var timeout: u32 := POLL_LIMIT;
    while next == ring.head && timeout > 0
      invariant timeout <= POLL_LIMIT
      invariant timeout == POLL_LIMIT ==> ring.head == next
      invariant timeout < POLL_LIMIT ==> ring.head == gpuHead
      invariant timeout < POLL_LIMIT - 1 ==> next == gpuHead
      decreases timeout
    {
      ring.head := gpuHead;
      timeout := timeout - 1;
    }
    timedOut := timeout == 0;
  }

  /**
   * The producer loop of `submit_commands_to_hardware`: each record goes to
   * words `tail*4 .. tail*4+3` and the tail advances modulo the capacity;
   * when the next slot is the head it waits as `AwaitFreeSlot` does and
   * stops on a timeout.
   */
  method WriteCommands(ring: CommandRing, cmds: seq<Command>, gpuHead: u32) returns (timedOut: bool)
    requires ring.Valid()
    modifies ring`head, ring`tail, ring.buffer
    ensures ring.Valid()
    ensures var o := Produce(old(ring.head), old(ring.tail), ring.capacity, gpuHead, |cmds|);
      timedOut == o.timedOut && ring.head == o.head && ring.tail == o.tail && o.written <= |cmds| &&
      ring.buffer[..] == RingImage(old(ring.buffer[..]), old(ring.tail), ring.capacity, cmds[..o.written])
  {
    ghost var total := Produce(ring.head, ring.tail, ring.capacity, gpuHead, |cmds|);
    ghost var start := ring.tail;
    ghost var initial := ring.buffer[..];
    ghost var outcome := total;
    var i := 0;
    while i < |cmds|
      invariant 0 <= i <= |cmds|
      invariant ring.Valid()
      invariant ring.tail == Advance(start, i, ring.capacity)
      invariant ring.buffer[..] == RingImage(initial, start, ring.capacity, cmds[..i])
      invariant outcome == Produce(ring.head, ring.tail, ring.capacity, gpuHead, |cmds| - i)
      invariant Continues(total, outcome, i)
    {
      ghost var remaining := |cmds| - i;
      var full := StoreRecord(ring, cmds[i], gpuHead, remaining);
      if full {
        assert outcome.written == 0 && total.written == i;
        return true;
      }
      ghost var rest := Produce(ring.head, ring.tail, ring.capacity, gpuHead, remaining - 1);
      assert Continues(outcome, rest, 1);
      outcome := rest;
      assert cmds[..i + 1][..i] == cmds[..i];
      i := i + 1;
    }
    assert cmds[..i] == cmds;
    return false;
  }

  /**
   * One iteration of the producer loop, with `remaining` records still to
   * store: wait if the ring is full, then store `c` at the tail and advance it.
   */
  method StoreRecord(ring: CommandRing, c: Command, gpuHead: u32, ghost remaining: nat) returns (timedOut: bool)
    requires ring.Valid() && 0 < remaining
    modifies ring`head, ring`tail, ring.buffer
    ensures ring.Valid()
    ensures timedOut ==>
      Produce(old(ring.head), old(ring.tail), ring.capacity, gpuHead, remaining) ==
        ProduceOutcome(true, gpuHead, old(ring.tail), 0) &&
      ring.head == gpuHead && ring.tail == old(ring.tail) && ring.buffer[..] == old(ring.buffer[..])
    ensures !timedOut ==>
      Continues(Produce(old(ring.head), old(ring.tail), ring.capacity, gpuHead, remaining),
        Produce(ring.head, ring.tail, ring.capacity, gpuHead, remaining - 1), 1) &&
      ring.tail == NextSlot(old(ring.tail), ring.capacity) &&
      ring.buffer[..] == WriteSlot(old(ring.buffer[..]), old(ring.tail), c)
  {
    var next := ((ring.tail as int + 1) % ring.capacity as int) as u32;
    if next == ring.head {
      timedOut := AwaitFreeSlot(ring, next, gpuHead);
      if timedOut {
        return;
      }
    }
    WriteSlotInPlace(ring, ring.tail, c);
    ring.tail := next;
    timedOut := false;
  }

  /** Stores one record in a slot of the ring buffer. */
  method WriteSlotInPlace(ring: CommandRing, slot: u32, c: Command)
    requires ring.Valid() && slot < ring.capacity
    modifies ring.buffer
    ensures ring.buffer[..] == WriteSlot(old(ring.buffer[..]), slot, c)
  {
    ring.buffer[4 * slot] := c.kind;
    ring.buffer[4 * slot + 1] := c.param0;
    ring.buffer[4 * slot + 2] := c.param1;
    ring.buffer[4 * slot + 3] := c.param2;
  }
}
