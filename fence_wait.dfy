// `gibgo_wait_for_completion`, the same bounded poll in every variant: wait
// while the fence register is below the value, at most `POLL_LIMIT` times.
// The program is single-threaded and nothing writes the register during the
// poll, so the wait reduces to one comparison.
module FenceWait {
  import opened MachineWords
  import opened GpuCore
  import opened GpuDevices

  /** The outcome of waiting for `value` while the fence register holds `fence`. */
  function WaitResult(fence: u32, value: u32): GpuResult
  {
    if fence >= value then Success else GpuTimeout
  }

  /**
   * A fence that reached a value has reached every smaller one: waiting
   * succeeds for every value up to the register's, and fails for every value
   * above it.
   */
  lemma WaitMonotone(fence: u32, value: u32, smaller: u32)
    requires smaller <= value
    ensures WaitResult(fence, value) == Success ==> WaitResult(fence, smaller) == Success
    ensures WaitResult(fence, value) == GpuTimeout <==> fence < value
  {
  }

  /**
   * `gibgo_wait_for_completion(value)`: `SUCCESS` exactly when the fence
   * register already holds at least `value`, `GPU_TIMEOUT` after the last
   * poll otherwise; nothing changes.
   */
  method WaitForCompletion(device: GpuDevice, value: u32) returns (r: GpuResult)
    requires device.Valid()
    ensures r == WaitResult(device.FenceValue(), value)
  {
    var timeout: u32 := POLL_LIMIT;
    while device.registers[device.FenceWord()] < value && timeout > 0
      invariant timeout <= POLL_LIMIT
      invariant device.registers[device.FenceWord()] >= value ==> timeout == POLL_LIMIT
      decreases timeout
    {
      timeout := timeout - 1;
    }
    if timeout == 0 {
      return GpuTimeout;
    }
    return Success;
  }
}
