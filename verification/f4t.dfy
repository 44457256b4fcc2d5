/** The controller interface object: its convenience fields and profile
    registry, which its methods update in place, and the channel it talks
    through, reduced to the log of what was sent (`sent`) and the queue of
    reply lines still to be read (`replies`). A read from an empty queue is the
    channel's timeout. */
module Interface {
  import opened Wrappers
  import opened Text
  import opened Enums
  import opened Commands
  import opened ProfileScan

  datatype Error =
    | Timeout                  // no reply line before the channel's timeout
    | NotAMember(value: string) // an enumeration was called with a value none of its members has

  /** One read from the channel: the first queued line, or a timeout when the
      queue is empty. */
  ghost predicate Answered(before: seq<string>, after: seq<string>, r: Result<string, Error>) {
    if before == [] then after == [] && r == Failure(Timeout)
    else after == before[1..] && r == Success(before[0])
  }

  class F4T {
    /** The `TempUnits` and `RampScale` enumerations of the base package. */
    const unitEnum: EnumClass
    const scaleEnum: EnumClass

    var setPoint: real
    var tempUnits: nat
    var currentProfile: int
    var timeout: real
    var profiles: map<int, string>

    var sent: seq<Event>
    var replies: seq<string>

    ghost predicate Valid()
      reads this
    {
      unitEnum.Valid() && scaleEnum.Valid() && unitEnum.IsMember(tempUnits)
    }

    /** `timeout` is the channel's setting as the base class left it; an unset
        one becomes 1.5 seconds. */
    constructor (setPoint: real := 22.0, units: nat, profile: int := 1, timeout: Option<real>,
                 unitEnum: EnumClass, scaleEnum: EnumClass, replies: seq<string>)
      requires unitEnum.Valid() && scaleEnum.Valid() && unitEnum.IsMember(units)
      ensures Valid()
      ensures this.setPoint == setPoint && tempUnits == units && currentProfile == profile
      ensures this.timeout == if timeout.None? then 1.5 else timeout.value
      ensures profiles == map[]
      ensures this.unitEnum == unitEnum && this.scaleEnum == scaleEnum
      ensures sent == [] && this.replies == replies
    {
      this.unitEnum, this.scaleEnum := unitEnum, scaleEnum;
      sent, this.replies := [], replies;
      this.setPoint := setPoint;
      tempUnits := units;
      currentProfile := profile;
      this.timeout := if timeout.None? then 1.5 else timeout.value;
      profiles := map[];
    }

    // The channel, as the interface uses it.

    method SendCmd(text: string)
      modifies this`sent
      ensures sent == old(sent) + [Command(text)]
    {
      sent := sent + [Command(text)];
    }

    method ClearBuffer()
      modifies this`sent
      ensures sent == old(sent) + [Event.ClearBuffer]
    {
      sent := sent + [Event.ClearBuffer];
    }

    method ReadItems() returns (r: Result<string, Error>)
      modifies this`replies
      ensures Answered(old(replies), replies, r)
    {
      if replies == [] {
        r := Failure(Timeout);
      } else {
        r := Success(replies[0]);
        replies := replies[1..];
      }
    }

    // The interface's operations.

    /** Asks for the temperature unit and stores the member whose value is the
        reply; on a timeout or an unknown value the stored unit is kept. */
    method GetUnits() returns (o: Outcome<Error>)
      requires Valid()
      modifies this`sent, this`replies, this`tempUnits
      ensures Valid()
      ensures sent == old(sent) + [Event.ClearBuffer, Command(UnitQuery)]
      ensures old(replies) == [] ==> replies == [] && o == Fail(Timeout)
      ensures old(replies) != [] ==>
        && replies == old(replies)[1..]
        && (o.Pass? <==> old(replies)[0] in unitEnum.values)
        && (o.Fail? ==> o == Fail(NotAMember(old(replies)[0])))
      ensures o.Pass? ==> unitEnum.values[tempUnits] == old(replies)[0]
      ensures o.Fail? ==> tempUnits == old(tempUnits)
    {
      ClearBuffer();
      SendCmd(UnitQuery);
      var rsp := ReadItems();
      if rsp.Failure? {
        return Fail(rsp.error);
      }
      match unitEnum.Lookup(rsp.value)
      case None =>
        o := Fail(NotAMember(rsp.value));
      case Some(m) =>
        tempUnits := m;
        o := Pass;
    }

    /** Writes the value of `units`, or of the stored unit when none is given;
        the stored unit itself is left alone. */
    method SetUnits(units: Option<nat> := None)
      requires Valid()
      requires units.Some? ==> unitEnum.IsMember(units.value)
      modifies this`sent
      ensures units.Some? ==> sent == old(sent) + [Command(UnitWrite(unitEnum.values[units.value]))]
      ensures units.None? ==> sent == old(sent) + [Command(UnitWrite(unitEnum.values[tempUnits]))]
    {
      var u := if units.Some? then units.value else tempUnits;
      SendCmd(UnitWrite(unitEnum.values[u]));
    }

    /** Walks profiles 1 to 39: selects each, asks for its name, and stores
        the cleaned name until one is empty. */
    method GetProfiles() returns (o: Outcome<Error>)
      modifies this`sent, this`replies, this`profiles
      ensures profiles == Registry(old(profiles), Walk(old(replies)).names)
      ensures Walk(old(replies)).Consumed() <= |old(replies)|
      ensures replies == old(replies)[Walk(old(replies)).Consumed()..]
      ensures sent == old(sent) + ScanLog(Walk(old(replies)).Visited())
      ensures o.Fail? <==> Walk(old(replies)).stop == NoReply
      ensures o.Fail? ==> o == Fail(Timeout)
    {
      var i := 1;
      while i < ProfileLimit
        invariant 1 <= i <= ProfileLimit
        invariant WalkedSoFar(old(replies), old(sent), old(profiles), i - 1, replies, sent, profiles)
      {
        var ended;
        ended, o := StoreNextProfile(i, old(replies), old(sent), old(profiles));
        if ended {
          return;
        }
        i := i + 1;
      }
      o := Pass;
      WalkEndsAtLimit(old(replies), old(sent), old(profiles), replies, sent, profiles);
    }

    /** One step of the walk: profile `i` is selected and its name asked for;
        a non-empty name is stored, an empty name or a missing reply ends the
        walk, and then the state is the walk's result. */
    method StoreNextProfile(i: nat, ghost r0: seq<string>, ghost s0: seq<Event>, ghost p0: map<int, string>)
      returns (ended: bool, o: Outcome<Error>)
      requires 1 <= i < ProfileLimit
      requires WalkedSoFar(r0, s0, p0, i - 1, replies, sent, profiles)
      modifies this`sent, this`replies, this`profiles
      ensures !ended ==> o == Pass && WalkedSoFar(r0, s0, p0, i, replies, sent, profiles)
      ensures ended ==> WalkDone(r0, s0, p0, o.Fail?, replies, sent, profiles)
      ensures o.Fail? ==> o == Fail(Timeout)
    {
      var rsp := ReadProfileName(i);
      if rsp.Failure? {
        WalkEndsUnanswered(r0, s0, p0, i - 1, old(replies), old(sent), old(profiles));
        return true, Fail(rsp.error);
      }
      if rsp.value == [] {
        WalkEndsEmpty(r0, s0, p0, i - 1, old(replies), old(sent), old(profiles));
        return true, Pass;
      }
      WalkStep(r0, s0, p0, i - 1, old(replies), old(sent), old(profiles));
      profiles := profiles[i := rsp.value];
      return false, Pass;
    }

    method ReadProfileName(profile: int) returns (r: Result<string, Error>)
      modifies this`sent, this`replies
      ensures sent == old(sent) + [Command(ProfileSelect(profile))] + [Command(ProfileNameQuery)]
      ensures old(replies) == [] ==> replies == [] && r == Failure(Timeout)
      ensures old(replies) != [] ==> replies == old(replies)[1..] && r == Success(CleanName(old(replies)[0]))
    {
      SelectProfile(profile);
      SendCmd(ProfileNameQuery);
      var rsp := ReadItems();
      if rsp.Failure? {
        return Failure(rsp.error);
      }
      r := Success(CleanName(rsp.value));
    }

    /** Selects a profile by number; the number is passed on unchecked, and the
        `currentProfile` field is not updated. */
    method SelectProfile(profile: int)
      modifies this`sent
      ensures sent == old(sent) + [Command(ProfileSelect(profile))]
    {
      SendCmd(ProfileSelect(profile));
    }

    /** Forwards a program state request (start, stop, pause, resume) unchecked. */
    method ProgMode(mode: string)
      modifies this`sent
      ensures sent == old(sent) + [Command(ProgramState(mode))]
    {
      SendCmd(ProgramState(mode));
    }

    /** The process value of a loop, as the reply line reads. */
    method GetPV(loop: int) returns (r: Result<string, Error>)
      modifies this`sent, this`replies
      ensures sent == old(sent) + [Command(PVQuery(loop))]
      ensures Answered(old(replies), replies, r)
    {
      SendCmd(PVQuery(loop));
      r := ReadItems();
    }

    /** The set point of a loop, as the reply line reads. */
    method GetSP(loop: int) returns (r: Result<string, Error>)
      modifies this`sent, this`replies
      ensures sent == old(sent) + [Command(SPQuery(loop))]
      ensures Answered(old(replies), replies, r)
    {
      SendCmd(SPQuery(loop));
      r := ReadItems();
    }

    method GetCascadeSP(cascade: int := 1) returns (r: Result<string, Error>)
      modifies this`sent, this`replies
      ensures sent == old(sent) + [Command(CascadeSPQuery(cascade))]
      ensures Answered(old(replies), replies, r)
    {
      SendCmd(CascadeSPQuery(cascade));
      r := ReadItems();
    }

    /** The process value of the outer (`outer` set) or inner half of a cascade. */
    method GetCascadeLoopPV(outer: bool, cascade: int := 1) returns (r: Result<string, Error>)
      modifies this`sent, this`replies
      ensures sent == old(sent) + [Command(CascadeLoopPVQuery(outer, cascade))]
      ensures Answered(old(replies), replies, r)
    {
      SendCmd(CascadeLoopPVQuery(outer, cascade));
      r := ReadItems();
    }

    /** The set point of the outer (`outer` set) or inner half of a cascade. */
    method GetCascadeLoopSP(outer: bool, cascade: int := 1) returns (r: Result<string, Error>)
      modifies this`sent, this`replies
      ensures sent == old(sent) + [Command(CascadeLoopSPQuery(outer, cascade))]
      ensures Answered(old(replies), replies, r)
    {
      SendCmd(CascadeLoopSPQuery(outer, cascade));
      r := ReadItems();
    }

    /** Writes a loop's set point; `setPoint` is not updated. */
    method WriteSP(value: string, loop: int)
      modifies this`sent
      ensures sent == old(sent) + [Command(SPWrite(value, loop))]
    {
      SendCmd(SPWrite(value, loop));
    }

    /** Whether an output reads exactly "ON". */
    method IsDone(output: int) returns (r: Result<bool, Error>)
      modifies this`sent, this`replies
      ensures sent == old(sent) + [Command(OutputQuery(output))]
      ensures old(replies) == [] ==> replies == [] && r == Failure(Timeout)
      ensures old(replies) != [] ==> replies == old(replies)[1..] && r == Success(old(replies)[0] == "ON")
    {
      SendCmd(OutputQuery(output));
      var rsp := ReadItems();
      if rsp.Failure? {
        return Failure(rsp.error);
      }
      r := Success(IsOn(rsp.value));
    }

    /** Reads an output's state for display; the printed line is not modelled. */
    method GetTS(output: int) returns (o: Outcome<Error>)
      modifies this`sent, this`replies
      ensures sent == old(sent) + [Command(OutputQuery(output))]
      ensures old(replies) == [] ==> replies == [] && o == Fail(Timeout)
      ensures old(replies) != [] ==> replies == old(replies)[1..] && o == Pass
    {
      SendCmd(OutputQuery(output));
      var rsp := ReadItems();
      o := if rsp.Failure? then Fail(rsp.error) else Pass;
    }

    /** Reads an output's state and writes the opposite: ON after OFF, OFF
        after anything else. A timeout on the read leaves the write unsent. */
    method SetOutput(output: int) returns (o: Outcome<Error>)
      modifies this`sent, this`replies
      ensures old(replies) == [] ==>
        && replies == [] && o == Fail(Timeout)
        && sent == old(sent) + [Command(OutputQuery(output))]
      ensures old(replies) != [] ==>
        && replies == old(replies)[1..] && o == Pass
        && sent == old(sent) + ToggleLog(output, old(replies)[0])
    {
      SendCmd(OutputQuery(output));
      var rsp := ReadItems();
      if rsp.Failure? {
        return Fail(rsp.error);
      }
      var state := Inverse(rsp.value);
      SendCmd(OutputWrite(output, state));
      o := Pass;
    }

    /** Writes a loop's ramp scale, given a value of the ramp-scale enumeration;
        any other value fails before anything is sent. */
    method SetRampScale(value: string, loop: int := 1) returns (o: Outcome<Error>)
      requires Valid()
      modifies this`sent
      ensures o.Pass? <==> value in scaleEnum.values
      ensures o.Fail? ==> o == Fail(NotAMember(value)) && sent == old(sent)
      ensures o.Pass? ==> exists m: nat ::
        && scaleEnum.IsMember(m) && scaleEnum.values[m] == value
        && sent == old(sent) + [Command(RampScaleWrite(loop, scaleEnum.labels[m]))]
    {
      match scaleEnum.Lookup(value)
      case None =>
        o := Fail(NotAMember(value));
      case Some(m) =>
        SendCmd(RampScaleWrite(loop, scaleEnum.labels[m]));
        o := Pass;
    }

    /** Forwards a ramp action (OFF, STARTUP, SETPOINT, BOTH) for a loop unchecked. */
    method RampMode(mode: string, loop: int)
      modifies this`sent
      ensures sent == old(sent) + [Command(RampActionWrite(loop, mode))]
    {
      SendCmd(RampActionWrite(loop, mode));
    }

    /** Asks for a loop's ramp rate ("rate") or ramp time (anything else) and
        reads no reply. */
    method GetRamp(rampType: string, loop: int := 1)
      modifies this`sent
      ensures sent == old(sent) + [Command(RampQuery(loop, rampType))]
      ensures replies == old(replies)
    {
      SendCmd(RampQuery(loop, rampType));
    }

    /** Writes a loop's ramp rate or time with the query-form header. */
    method SetRamp(rampType: string, value: string, loop: int := 1)
      modifies this`sent
      ensures sent == old(sent) + [Command(RampWrite(loop, rampType, value))]
    {
      SendCmd(RampWrite(loop, rampType, value));
    }
  }
}
