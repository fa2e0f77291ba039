// The hardware part of `submit_commands_to_hardware`, the same code in every
// variant: the producer loop over the command ring (refreshing the head from
// the GPU head register while the ring is full), then the tail register and
// the start register of the command processor, and the 64-bit count of
// submitted commands.
module RingSubmission {
  import opened MachineWords
  import opened GpuCore
  import opened CommandRingModel
  import opened GpuDevices

  /** Word offsets of the command-processor registers from `cmd_regs`. */
  const GPU_COMMAND_START: nat := 0
  const GPU_HEAD_PTR: nat := 4
  const GPU_TAIL_PTR: nat := 8

  /** The value the producer reads from the GPU head register. */
  function GpuHead(device: GpuDevice): u32
    reads device.ring, device.registers
    requires device.Valid()
  {
    device.registers[device.CommandWord() + GPU_HEAD_PTR]
  }

  /**
   * What the ring loop and the register writes leave behind: every command
   * is stored as `Produce` and `RingImage` describe, the head register being
   * read while the ring is full; a timeout is `GPU_TIMEOUT` and leaves the
   * registers alone, otherwise the result is `SUCCESS`, the tail register
   * holds the new tail and the start register 1.
   */
  twostate predicate Pushed(device: GpuDevice, cmds: seq<Command>, r: GpuResult)
    requires old(device.Valid())
    reads device.ring, device.ring.buffer, device.registers
  {
    var o := Produce(old(device.ring.head), old(device.ring.tail), old(device.ring.capacity),
                     old(GpuHead(device)), |cmds|);
    device.Valid() &&
    device.ring.buffer == old(device.ring.buffer) && device.ring.bufferSize == old(device.ring.bufferSize) &&
    device.ring.capacity == old(device.ring.capacity) &&
    (r == GpuTimeout <==> o.timedOut) && (r != GpuTimeout ==> r == Success) &&
    device.ring.head == o.head && device.ring.tail == o.tail && o.written <= |cmds| &&
    device.ring.buffer[..] == RingImage(old(device.ring.buffer[..]), old(device.ring.tail), device.ring.capacity,
                                        cmds[..o.written]) &&
    (r == Success ==>
       device.registers[..] == old(device.registers[..])[device.CommandWord() + GPU_TAIL_PTR := device.ring.tail]
                                                        [device.CommandWord() + GPU_COMMAND_START := 1]) &&
    (r != Success ==> device.registers[..] == old(device.registers[..]))
  }

  /** `submit_commands_to_hardware`'s ring loop and register writes, as `Pushed` describes them. */
  method PushToRing(device: GpuDevice, cmds: seq<Command>) returns (r: GpuResult)
    requires device.Valid()
    modifies device.ring, device.ring.buffer, device.registers
    ensures Pushed(device, cmds, r)
  {
    var gpuHead := device.registers[device.CommandWord() + GPU_HEAD_PTR];
    var timedOut := WriteCommands(device.ring, cmds, gpuHead);
    if timedOut {
      return GpuTimeout;
    }
    device.registers[device.CommandWord() + GPU_TAIL_PTR] := device.ring.tail;
    device.registers[device.CommandWord() + GPU_COMMAND_START] := 1;
    return Success;
  }

  /**
   * A ring with room for all the commands takes them without reading the
   * head register, in order from the old tail: reading `|cmds|` records from
   * there gives the commands back, and the tail moves `|cmds|` slots.
   */
  lemma PushFits(buf: seq<u32>, head: nat, tail: nat, capacity: nat, gpuHead: nat, cmds: seq<Command>)
    requires head < capacity && tail < capacity && 4 * capacity <= |buf|
    requires |cmds| <= FreeSlots(head, tail, capacity)
    ensures Produce(head, tail, capacity, gpuHead, |cmds|) ==
      ProduceOutcome(false, head, Advance(tail, |cmds|, capacity), |cmds|)
    ensures ReadRing(RingImage(buf, tail, capacity, cmds), tail, |cmds|, capacity) == cmds
  {
    ProduceFits(head, tail, capacity, gpuHead, |cmds|);
    ReadBackProduced(buf, tail, capacity, cmds);
  }

  /** The submitted-command count after `count` more commands, on the `u64` counter. */
  function CountedAfter(submitted: u64, count: nat): u64
  {
    Wrap64(submitted + count)
  }

  /** `device->commands_submitted += command_count` on the `u64` counter. */
  method CountSubmitted(device: GpuDevice, count: nat, ghost before: u64)
    requires device.commandsSubmitted == before
    modifies device`commandsSubmitted
    ensures device.commandsSubmitted == CountedAfter(before, count)
  {
    device.commandsSubmitted := Wrap64(device.commandsSubmitted + count);
  }
}
