/** A device that honours output-state writes: it answers a state query for
    output `n` with the state last written to `n`. It reads the command text
    the interface sends, so the properties below also check that the
    interface addresses the output it means. Only the output commands are
    understood; every other command leaves the device as it is. */
module OutputDevice {
  import opened Wrappers
  import opened Text
  import opened Commands

  datatype OutputCommand = StateQuery(output: int) | StateWrite(output: int, state: string)

  /** How the device reads `:OUTPUT<n>:STATE?` and `:OUTPUT<n>:STATE <state>`. */
  function ParseOutputCommand(cmd: string): Option<OutputCommand> {
    var (header, arg) := SplitCommand(cmd);
    if |header| < 7 || header[..7] != ":OUTPUT" then None
    else
      var rest := header[7..];
      if arg.None? && |rest| >= 7 && rest[|rest| - 7..] == ":STATE?" then
        match ParseInt(rest[..|rest| - 7])
        case Some(n) => Some(StateQuery(n))
        case None => None
      else if arg.Some? && |rest| >= 6 && rest[|rest| - 6..] == ":STATE" then
        match ParseInt(rest[..|rest| - 6])
        case Some(n) => Some(StateWrite(n, arg.value))
        case None => None
      else None
  }

  /** The device reads an output query as a query of that very output. */
  lemma ParseOutputQuery(n: int)
    ensures ParseOutputCommand(OutputQuery(n)) == Some(StateQuery(n))
  {
    NoSpaceInInt(n);
    IntTextRoundTrip(n);
    ParseQueryOf(IntText(n), n);
  }

  lemma ParseQueryOf(t: string, n: int)
    requires ' ' !in t && ParseInt(t) == Some(n)
    ensures ParseOutputCommand(":OUTPUT" + t + ":STATE?") == Some(StateQuery(n))
  {
    var cmd := ":OUTPUT" + t + ":STATE?";
    assert ' ' !in cmd;
    SplitCommandOf(cmd, None);
    assert cmd[..7] == ":OUTPUT";
    var rest := cmd[7..];
    assert rest == t + ":STATE?";
    assert rest[|rest| - 7..] == ":STATE?";
    assert rest[..|rest| - 7] == t;
  }

  /** The device reads an output write as a write of that state to that very output. */
  lemma ParseOutputWrite(n: int, state: string)
    ensures ParseOutputCommand(OutputWrite(n, state)) == Some(StateWrite(n, state))
  {
    NoSpaceInInt(n);
    IntTextRoundTrip(n);
    ParseWriteOf(IntText(n), n, state);
  }

  lemma ParseWriteOf(t: string, n: int, state: string)
    requires ' ' !in t && ParseInt(t) == Some(n)
    ensures ParseOutputCommand(":OUTPUT" + t + ":STATE " + state) == Some(StateWrite(n, state))
  {
    var header := ":OUTPUT" + t + ":STATE";
    assert ":OUTPUT" + t + ":STATE " + state == header + " " + state;
    assert ' ' !in header;
    SplitCommandOf(header, Some(state));
    assert header[..7] == ":OUTPUT";
    var rest := header[7..];
    assert rest == t + ":STATE";
    assert rest[|rest| - 6..] == ":STATE";
    assert rest[..|rest| - 6] == t;
  }

  datatype Device = Device(outputs: map<int, string>)

  /** The device's answer to an output query; an output it has no state for
      answers with empty text. */
  function StateOf(d: Device, n: int): string {
    if n in d.outputs then d.outputs[n] else ""
  }

  /** One event: the new device and the reply line it produces, if any. */
  function Step(d: Device, e: Event): (Device, Option<string>) {
    match e
    case ClearBuffer => (d, None)
    case Command(text) =>
      match ParseOutputCommand(text)
      case Some(StateQuery(n)) => (d, Some(StateOf(d, n)))
      case Some(StateWrite(n, s)) => (Device(d.outputs[n := s]), None)
      case None => (d, None)
  }

  /** A whole log: the device afterwards and the reply lines, in order. */
  function Run(d: Device, log: seq<Event>): (Device, seq<string>)
    decreases |log|
  {
    if log == [] then (d, [])
    else
      var (d1, reply) := Step(d, log[0]);
      var (d2, replies) := Run(d1, log[1..]);
      (d2, (if reply.Some? then [reply.value] else []) + replies)
  }

  /** One toggle of output `n` against this device: the interface reads the
      device's answer `reply` and writes its inverse, which the device stores. */
  lemma {:induction false} ToggleOnDevice(d: Device, n: int, reply: string)
    requires Run(d, ToggleLog(n, reply)).1 == [reply]
    ensures reply == StateOf(d, n)
    ensures Run(d, ToggleLog(n, reply)).0 == Device(d.outputs[n := Inverse(reply)])
  {
    ParseOutputQuery(n);
    ParseOutputWrite(n, Inverse(reply));
    var log := ToggleLog(n, reply);
    var written := Device(d.outputs[n := Inverse(reply)]);
    assert Step(d, log[0]) == (d, Some(StateOf(d, n)));
    assert Step(d, log[1]) == (written, None);
    assert log[1..][1..] == [];
    assert Run(written, log[1..][1..]) == (written, []);
    assert Run(d, log[1..]) == (written, []);
    assert log != [];
    assert [StateOf(d, n)] + [] == [StateOf(d, n)];
    assert Run(d, log) == (written, [StateOf(d, n)]);
  }

  /** Toggling an output twice, each time reading what the device answers,
      gives back the device it started from exactly when that output was ON or
      OFF; any other state ends up ON. */
  lemma SetOutputTwice(d: Device, n: int, r1: string, r2: string)
    requires Run(d, ToggleLog(n, r1)).1 == [r1]
    requires Run(Run(d, ToggleLog(n, r1)).0, ToggleLog(n, r2)).1 == [r2]
    ensures Run(Run(d, ToggleLog(n, r1)).0, ToggleLog(n, r2)).0 == d
      <==> StateOf(d, n) == "ON" || StateOf(d, n) == "OFF"
    ensures Run(Run(d, ToggleLog(n, r1)).0, ToggleLog(n, r2)).0.outputs
      == d.outputs[n := Inverse(Inverse(StateOf(d, n)))]
  {
    ToggleOnDevice(d, n, r1);
    var d1 := Run(d, ToggleLog(n, r1)).0;
    ToggleOnDevice(d1, n, r2);
    var d2 := Run(d1, ToggleLog(n, r2)).0;
    assert d2.outputs == d.outputs[n := Inverse(Inverse(StateOf(d, n)))];
    if d2 == d {
      assert n in d.outputs && d2.outputs[n] == d.outputs[n];
    }
  }

  /** The done test asks the device for the output's state, so it reads true
      exactly when the device holds "ON" for that output; an output it holds
      "OFF", any other state or nothing for reads false. */
  lemma {:induction false} DoneReadsDevice(d: Device, n: int)
    ensures Run(d, [Command(OutputQuery(n))]) == (d, [StateOf(d, n)])
    ensures IsOn(StateOf(d, n)) <==> n in d.outputs && d.outputs[n] == "ON"
  {
    ParseOutputQuery(n);
    var q := [Command(OutputQuery(n))];
    assert Step(d, q[0]) == (d, Some(StateOf(d, n)));
    assert q[1..] == [] && Run(d, q[1..]) == (d, []);
    assert [StateOf(d, n)] + [] == [StateOf(d, n)];
  }

  /** An output read as OFF is written ON, and the next query reads as done. */
  lemma ToggleFromOffIsDone(d: Device, n: int)
    requires StateOf(d, n) == "OFF"
    requires Run(d, ToggleLog(n, "OFF")).1 == ["OFF"]
    ensures var replies := Run(Run(d, ToggleLog(n, "OFF")).0, [Command(OutputQuery(n))]).1;
      replies == ["ON"] && IsOn(replies[0])
  {
    ToggleOnDevice(d, n, "OFF");
    ParseOutputQuery(n);
    var d1 := Run(d, ToggleLog(n, "OFF")).0;
    var q := [Command(OutputQuery(n))];
    assert Step(d1, q[0]) == (d1, Some("ON"));
    assert q[1..] == [];
  }
}
