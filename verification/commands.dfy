/** Command text of the controller interface and the interpretation of the
    device's replies. Every builder writes the command exactly as the
    interface does, quirks included; integers are rendered as Python's
    `str` renders them, every other argument arrives already rendered. */
module Commands {
  import opened Wrappers
  import opened Text

  /** What the interface hands to its channel, in order. */
  datatype Event = Command(text: string) | ClearBuffer

  const UnitQuery := ":UNIT:TEMPERATURE?"
  const ProfileNameQuery := ":PROGRAM:NAME?"

  /** Note `:UNITS:` here against `:UNIT:` in the query. */
  function UnitWrite(token: string): string {
    ":UNITS:TEMPERATURE " + token
  }

  function ProfileSelect(profile: int): string {
    ":PROGRAM:NUMBER " + IntText(profile)
  }

  function ProgramState(mode: string): string {
    ":PROGRAM:SELECTED:STATE " + mode
  }

  function LoopPrefix(loop: int): string {
    ":SOURCE:CLOOP" + IntText(loop)
  }

  function PVQuery(loop: int): string {
    LoopPrefix(loop) + ":PVALUE?"
  }

  function SPQuery(loop: int): string {
    LoopPrefix(loop) + ":SPOINT?"
  }

  function CascadePrefix(cascade: int): string {
    ":SOURCE:CASCADE" + IntText(cascade)
  }

  function CascadeSPQuery(cascade: int): string {
    CascadePrefix(cascade) + ":SPOINT?"
  }

  /** Which half of a cascade pair a flag addresses. */
  function LoopRole(outer: bool): string {
    if outer then "OUTER" else "INNER"
  }

  function CascadeLoopPVQuery(outer: bool, cascade: int): string {
    CascadePrefix(cascade) + ":" + LoopRole(outer) + ":PVALUE?"
  }

  function CascadeLoopSPQuery(outer: bool, cascade: int): string {
    CascadePrefix(cascade) + ":" + LoopRole(outer) + ":SPOINT?"
  }

  /** Written without the leading colon every other command has. */
  function SPWrite(value: string, loop: int): string {
    "SOURCE:CLOOP" + IntText(loop) + ":SPOINT " + value
  }

  function OutputQuery(output: int): string {
    ":OUTPUT" + IntText(output) + ":STATE?"
  }

  function OutputWrite(output: int, state: string): string {
    ":OUTPUT" + IntText(output) + ":STATE " + state
  }

  function RampScaleWrite(loop: int, scaleText: string): string {
    LoopPrefix(loop) + ":RSCALE " + scaleText
  }

  function RampActionWrite(loop: int, mode: string): string {
    LoopPrefix(loop) + ":RACTION " + mode
  }

  /** The ramp sub-parameter, in its query form: rate for "rate", time for anything else. */
  function RampParam(rampType: string): string {
    if rampType == "rate" then "RRATE?" else "RTIME?"
  }

  function RampQuery(loop: int, rampType: string): string {
    LoopPrefix(loop) + ":" + RampParam(rampType)
  }

  /** Built from the query form, so the write carries the query marker too. */
  function RampWrite(loop: int, rampType: string, value: string): string {
    LoopPrefix(loop) + ":" + RampParam(rampType) + " " + value
  }

  /** The reply to an output-state query read as "done". */
  function IsOn(reply: string): bool {
    reply == "ON"
  }

  /** The state written back when toggling, given the state read. */
  function Inverse(reply: string): string {
    if reply == "OFF" then "ON" else "OFF"
  }

  /** The two commands of one output toggle that read `reply`. */
  function ToggleLog(output: int, reply: string): seq<Event> {
    [Command(OutputQuery(output)), Command(OutputWrite(output, Inverse(reply)))]
  }

  /** A toggle writes ON exactly when it read OFF, and OFF for every other reply;
      applying it twice gives back the state read exactly when that state was
      ON or OFF. */
  lemma InverseTokens(reply: string)
    ensures Inverse(reply) == "ON" <==> reply == "OFF"
    ensures Inverse(reply) == "OFF" <==> reply != "OFF"
    ensures Inverse(Inverse(reply)) == reply <==> reply == "ON" || reply == "OFF"
  {
  }

  /** The headers the builders produce hold no space, so the device sees every
      argument after the first space. */
  lemma {:induction false} NoSpaceInInt(n: int)
    ensures ' ' !in IntText(n) && ':' !in IntText(n)
  {
    var t := IntText(n);
    IntTextChars(n);
    assert forall j :: 0 <= j < |t| ==> t[j] != ' ' && t[j] != ':';
  }

  /** `set_ramp` sends the very command `get_ramp` sends, query marker and
      all, followed by a space and the value. */
  lemma RampWriteIsQueryWithValue(loop: int, rampType: string, value: string)
    ensures SplitCommand(RampWrite(loop, rampType, value)) == (RampQuery(loop, rampType), Some(value))
    ensures RampQuery(loop, rampType)[|RampQuery(loop, rampType)| - 1] == '?'
  {
    NoSpaceInInt(loop);
    var q := RampQuery(loop, rampType);
    assert RampWrite(loop, rampType, value) == q + " " + value;
    SplitCommandOf(q, Some(value));
  }

  /** `set_units` writes to the `:UNITS:` node, which is not the node
      `get_units` queries. */
  lemma UnitNodesDiffer(token: string)
    ensures SplitCommand(UnitWrite(token)) == (":UNITS:TEMPERATURE", Some(token))
    ensures SplitCommand(UnitWrite(token)).0 + "?" != UnitQuery
  {
    assert UnitWrite(token) == ":UNITS:TEMPERATURE" + " " + token;
    SplitCommandOf(":UNITS:TEMPERATURE", Some(token));
    assert (":UNITS:TEMPERATURE" + "?")[5] != UnitQuery[5];
  }

  /** `write_sp` addresses the set point of the loop `get_sp` reads, but its
      header lacks the leading colon: it is the query without its first and
      last characters. */
  lemma SetPointWriteHeader(value: string, loop: int)
    ensures SPWrite(value, loop)[0] != ':'
    ensures SplitCommand(SPWrite(value, loop)).0 == SPQuery(loop)[1..|SPQuery(loop)| - 1]
    ensures SplitCommand(SPWrite(value, loop)).1 == Some(value)
  {
    NoSpaceInInt(loop);
    SetPointHeaderOf(IntText(loop), value);
  }

  lemma SetPointHeaderOf(t: string, value: string)
    requires ' ' !in t
    ensures ("SOURCE:CLOOP" + t + ":SPOINT " + value)[0] != ':'
    ensures var q := ":SOURCE:CLOOP" + t + ":SPOINT?";
      SplitCommand("SOURCE:CLOOP" + t + ":SPOINT " + value) == (q[1..|q| - 1], Some(value))
  {
    var h := "SOURCE:CLOOP" + t + ":SPOINT";
    assert "SOURCE:CLOOP" + t + ":SPOINT " + value == h + " " + value;
    assert ":SOURCE:CLOOP" + t + ":SPOINT?" == ":" + h + "?";
    SplitCommandOf(h, Some(value));
  }

  /** Two commands that start with the same text, then an integer, then a
      colon, name the same integer and continue the same way. */
  lemma {:induction false} AddressUnique(prefix: string, a: int, b: int, x: string, y: string)
    requires x != [] && x[0] == ':' && y != [] && y[0] == ':'
    requires prefix + IntText(a) + x == prefix + IntText(b) + y
    ensures a == b && x == y
  {
    NoSpaceInInt(a);
    NoSpaceInInt(b);
    PrefixColon(prefix, IntText(a), x, IntText(b), y);
    IntTextInjective(a, b);
  }

  /** Loop addressing is unambiguous: a process-value or set-point query names
      one loop, and the two families never coincide. */
  lemma LoopAddressing(a: int, b: int)
    ensures PVQuery(a) == PVQuery(b) ==> a == b
    ensures SPQuery(a) == SPQuery(b) ==> a == b
    ensures PVQuery(a) != SPQuery(b)
  {
    var p := ":SOURCE:CLOOP";
    if PVQuery(a) == PVQuery(b) {
      AddressUnique(p, a, b, ":PVALUE?", ":PVALUE?");
    }
    if SPQuery(a) == SPQuery(b) {
      AddressUnique(p, a, b, ":SPOINT?", ":SPOINT?");
    }
    if PVQuery(a) == SPQuery(b) {
      AddressUnique(p, a, b, ":PVALUE?", ":SPOINT?");
    }
  }

  /** Two cascade loop commands with the same text name the same cascade and
      the same half, and continue the same way. */
  lemma {:induction false} CascadeUnique(o1: bool, c1: int, t1: string, o2: bool, c2: int, t2: string)
    requires CascadePrefix(c1) + ":" + LoopRole(o1) + t1 == CascadePrefix(c2) + ":" + LoopRole(o2) + t2
    ensures c1 == c2 && o1 == o2 && t1 == t2
  {
    var p := ":SOURCE:CASCADE";
    var r1, r2 := LoopRole(o1), LoopRole(o2);
    var n1, n2 := IntText(c1), IntText(c2);
    var x1, x2 := ":" + r1 + t1, ":" + r2 + t2;
    assert p + n1 + ":" + r1 + t1 == p + n1 + x1;
    assert p + n2 + ":" + r2 + t2 == p + n2 + x2;
    AddressUnique(p, c1, c2, x1, x2);
    assert x1[1] == r1[0] && x2[1] == r2[0];
    assert t1 == x1[6..] && t2 == x2[6..];
  }

  /** Cascade addressing is unambiguous: a cascade loop query names one cascade
      and one half (OUTER when the flag is set, INNER otherwise), and the
      process-value and set-point families never coincide. */
  lemma CascadeAddressing(o1: bool, c1: int, o2: bool, c2: int)
    ensures CascadeLoopPVQuery(o1, c1) == CascadeLoopPVQuery(o2, c2) ==> o1 == o2 && c1 == c2
    ensures CascadeLoopSPQuery(o1, c1) == CascadeLoopSPQuery(o2, c2) ==> o1 == o2 && c1 == c2
    ensures CascadeLoopPVQuery(o1, c1) != CascadeLoopSPQuery(o2, c2)
  {
    if CascadeLoopPVQuery(o1, c1) == CascadeLoopPVQuery(o2, c2) {
      CascadeUnique(o1, c1, ":PVALUE?", o2, c2, ":PVALUE?");
    }
    if CascadeLoopSPQuery(o1, c1) == CascadeLoopSPQuery(o2, c2) {
      CascadeUnique(o1, c1, ":SPOINT?", o2, c2, ":SPOINT?");
    }
    if CascadeLoopPVQuery(o1, c1) == CascadeLoopSPQuery(o2, c2) {
      CascadeUnique(o1, c1, ":PVALUE?", o2, c2, ":SPOINT?");
    }
  }
}
