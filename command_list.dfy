// The per-frame command list shared by the three command modules: the globals
// `current_commands`, `current_command_count` and `max_commands` become one
// recorder object. `add_command`, `gibgo_begin_commands`,
// `gibgo_end_commands` and the list reset of `gibgo_submit_commands` are the
// same code in every variant.
module CommandList {
  import opened MachineWords
  import opened GpuCore

  /** Commands one frame can hold. */
  const MAX_COMMANDS: u32 := 256

  /**
   * The recorder's state: `open` is `current_commands != NULL`, `commands`
   * the first `current_command_count` entries of the buffer.
   */
  datatype Recording = Recording(open: bool, commands: seq<Command>, maxCommands: u32)

  /** The result of `add_command(c)` on a recording. */
  function AddResult(s: Recording, c: Command): GpuResult
  {
    if !s.open then InvalidParameter
    else if |s.commands| >= s.maxCommands then CommandFailed
    else Success
  }

  /** The recording after `add_command(c)`: the command is appended only when it succeeds. */
  function Added(s: Recording, c: Command): Recording
  {
    if AddResult(s, c) == Success then s.(commands := s.commands + [c]) else s
  }

  /** The recording after a sequence of `add_command` calls whose results are ignored. */
  function AddedAll(s: Recording, cs: seq<Command>): Recording
    decreases |cs|
  {
    if cs == [] then s else AddedAll(Added(s, cs[0]), cs[1..])
  }

  /** A recording never holds more commands than its buffer. */
  predicate WithinBounds(s: Recording)
  {
    |s.commands| <= s.maxCommands && (!s.open ==> s.commands == [])
  }

  /**
   * `add_command` fails with `INVALID_PARAMETER` exactly when no list is open
   * and with `COMMAND_FAILED` exactly when the open list is full; a failed
   * call changes nothing and a successful one appends exactly the command.
   */
  lemma AddSemantics(s: Recording, c: Command)
    ensures AddResult(s, c) == InvalidParameter <==> !s.open
    ensures AddResult(s, c) == CommandFailed <==> s.open && |s.commands| >= s.maxCommands
    ensures AddResult(s, c) == Success <==> s.open && |s.commands| < s.maxCommands
    ensures AddResult(s, c) != Success ==> Added(s, c) == s
    ensures AddResult(s, c) == Success ==>
      Added(s, c).commands == s.commands + [c] && Added(s, c).open && Added(s, c).maxCommands == s.maxCommands
    ensures WithinBounds(s) ==> WithinBounds(Added(s, c))
  {
  }

  /**
   * On an open list with room for all of them, a sequence of ignored-result
   * `add_command` calls appends exactly those commands, in order.
   */
  lemma {:induction false} AddedAllAppends(s: Recording, cs: seq<Command>)
    requires s.open && |s.commands| + |cs| <= s.maxCommands
    ensures AddedAll(s, cs) == s.(commands := s.commands + cs)
    decreases |cs|
  {
    if cs != [] {
      var s' := Added(s, cs[0]);
      assert s' == s.(commands := s.commands + [cs[0]]);
      AddedAllAppends(s', cs[1..]);
      assert s.commands + [cs[0]] + cs[1..] == s.commands + cs;
    }
  }

  /** Ignored-result recording adds at most one entry per command. */
  lemma {:induction false} AddedAllGrowth(s: Recording, cs: seq<Command>)
    ensures |s.commands| <= |AddedAll(s, cs).commands| <= |s.commands| + |cs|
    decreases |cs|
  {
    if cs != [] {
      AddedAllGrowth(Added(s, cs[0]), cs[1..]);
    }
  }

  /** With no list open, every `add_command` is rejected and nothing is recorded. */
  lemma {:induction false} AddedAllClosed(s: Recording, cs: seq<Command>)
    requires !s.open
    ensures AddedAll(s, cs) == s
    decreases |cs|
  {
    if cs != [] {
      AddedAllClosed(Added(s, cs[0]), cs[1..]);
    }
  }

  /**
   * On an open list, ignored-result recording appends a prefix of the
   * commands, so the list never exceeds its buffer and earlier entries stay.
   */
  lemma {:induction false} AddedAllPrefix(s: Recording, cs: seq<Command>)
    requires WithinBounds(s)
    ensures WithinBounds(AddedAll(s, cs))
    ensures AddedAll(s, cs).open == s.open && AddedAll(s, cs).maxCommands == s.maxCommands
    ensures exists n :: 0 <= n <= |cs| && AddedAll(s, cs).commands == s.commands + cs[..n]
    decreases |cs|
  {
    if cs == [] {
      assert AddedAll(s, cs).commands == s.commands + cs[..0];
    } else {
      var s' := Added(s, cs[0]);
      AddedAllPrefix(s', cs[1..]);
      var n' :| 0 <= n' <= |cs| - 1 && AddedAll(s', cs[1..]).commands == s'.commands + cs[1..][..n'];
      if AddResult(s, cs[0]) == Success {
        assert s.commands + [cs[0]] + cs[1..][..n'] == s.commands + cs[..n' + 1];
      } else {
        assert s'.commands == s.commands;
        if s.open {
          // The list is full, so nothing after the first command fits either.
          AddedAllClosedFull(s', cs[1..]);
        } else {
          AddedAllClosed(s', cs[1..]);
        }
        assert AddedAll(s, cs).commands == s.commands + cs[..0];
      }
    }
  }

  /** Recording never opens or closes the list, nor resizes it. */
  lemma {:induction false} AddedAllKeepsShape(s: Recording, cs: seq<Command>)
    ensures AddedAll(s, cs).open == s.open && AddedAll(s, cs).maxCommands == s.maxCommands
    decreases |cs|
  {
    if cs != [] {
      AddedAllKeepsShape(Added(s, cs[0]), cs[1..]);
    }
  }

  /** A full open list also rejects every further command. */
  lemma {:induction false} AddedAllClosedFull(s: Recording, cs: seq<Command>)
    requires |s.commands| >= s.maxCommands
    ensures AddedAll(s, cs) == s
    decreases |cs|
  {
    if cs != [] {
      AddedAllClosedFull(Added(s, cs[0]), cs[1..]);
    }
  }

  /** Recording one more command after a sequence is recording the longer sequence. */
  lemma {:induction false} AddedAllSnoc(s: Recording, cs: seq<Command>, c: Command)
    ensures AddedAll(s, cs + [c]) == Added(AddedAll(s, cs), c)
    decreases |cs|
  {
    if cs == [] {
      assert [c][1..] == [];
    } else {
      assert (cs + [c])[0] == cs[0] && (cs + [c])[1..] == cs[1..] + [c];
      AddedAllSnoc(Added(s, cs[0]), cs[1..], c);
    }
  }

  /** The recorder globals. */
  class CommandRecorder {
    var open: bool
    var commands: seq<Command>
    var maxCommands: u32

    function State(): Recording
      reads this
    {
      Recording(open, commands, maxCommands)
    }

    /** Program start: no list, zero count and capacity. */
    constructor ()
      ensures State() == Recording(false, [], 0)
    {
      open := false;
      commands := [];
      maxCommands := 0;
    }
  }

  /** `add_command(type, p0, p1, p2)`. */
  method AddCommand(recorder: CommandRecorder, c: Command) returns (r: GpuResult)
    modifies recorder
    ensures r == AddResult(old(recorder.State()), c)
    ensures recorder.State() == Added(old(recorder.State()), c)
  {
    if !recorder.open {
      return InvalidParameter;
    }
    if |recorder.commands| >= recorder.maxCommands {
      return CommandFailed;
    }
    recorder.commands := recorder.commands + [c];
    return Success;
  }

  /** Several `add_command` calls in order, their results ignored. */
  method AddCommands(recorder: CommandRecorder, cs: seq<Command>)
    modifies recorder
    ensures recorder.State() == AddedAll(old(recorder.State()), cs)
  {
    var i := 0;
    while i < |cs|
      invariant 0 <= i <= |cs|
      invariant AddedAll(old(recorder.State()), cs) == AddedAll(recorder.State(), cs[i..])
    {
      assert cs[i..][1..] == cs[i + 1..];
      var _ := AddCommand(recorder, cs[i]);
      i := i + 1;
    }
  }

  /**
   * `gibgo_begin_commands` on a valid context (`hostMemory` is whether the
   * `malloc` of the list succeeds): a fresh empty list of 256 commands (a
   * list already open is abandoned, as the C code leaks it). When the
   * `malloc` fails the result is `OUT_OF_MEMORY`, the capacity is still set
   * to 256 and no list is open; the count the C code leaves behind is never
   * read without a list, so the model holds no commands.
   */
  method BeginCommands(recorder: CommandRecorder, hostMemory: bool) returns (r: GpuResult)
    modifies recorder
    ensures r == if hostMemory then Success else OutOfMemory
    ensures hostMemory ==> recorder.State() == Recording(true, [], MAX_COMMANDS)
    ensures !hostMemory ==> recorder.State() == Recording(false, [], MAX_COMMANDS)
  {
    recorder.maxCommands := MAX_COMMANDS;
    recorder.commands := [];
    if !hostMemory {
      recorder.open := false;
      return OutOfMemory;
    }
    recorder.commands := [];
    recorder.open := true;
    return Success;
  }

  /** `gibgo_end_commands`: `INVALID_PARAMETER` when no list is open; changes nothing. */
  method EndCommands(recorder: CommandRecorder) returns (r: GpuResult)
    ensures r == (if recorder.open then Success else InvalidParameter)
  {
    if !recorder.open {
      return InvalidParameter;
    }
    return Success;
  }

  /** The clean-up at the end of `gibgo_submit_commands`: free the list and zero count and capacity. */
  method ResetList(recorder: CommandRecorder)
    modifies recorder
    ensures recorder.State() == Recording(false, [], 0)
  {
    recorder.open := false;
    recorder.commands := [];
    recorder.maxCommands := 0;
  }
}
