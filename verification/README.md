# F4T controller interface, modelled in Dafny

This project models the `F4T` class of the F4TscpiLibrary, the upper-level
interface for a Watlow F4T chamber controller. The class turns requests into
SCPI-style command text and sends each one over a channel. It reads reply
lines back and interprets a few of them: temperature units, output states and
profile names. It keeps a handful of convenience fields and a profile
registry, and updates them in place.

The model is the Dafny class `Interface.F4T` (`f4t.dfy`). It has the Python
fields and stands in for the channel with two fields:

- `sent`: the log of what the interface handed to the channel, in order.
  Each entry is a command line or a buffer clear.
- `replies`: the queue of reply lines still to be read. A read takes the
  first line. A read from an empty queue is the channel's timeout, and it
  surfaces as the `Timeout` error.

Every operation is a method of the class. Its `ensures` state the commands
it appends to `sent`, the replies it takes from `replies`, the fields it
changes and its result. The pure parts are functions in their own modules:

- `Commands`: the command text, and the reading of ON/OFF replies.
- `Text`: Python's `str.strip`, quote removal, `str(int)` and splitting a
  command line.
- `ProfileScan`: the profile walk, stated as a function of the replies.
- `Enums`: the two enumerations the class imports.
- `OutputDevice`: a small device that honours output writes, used to state
  what the done test reads and what two toggles of an output do.

The code is modelled as written, including these quirks:

- `set_ramp` builds its write from the query token, so the write carries
  `?`.
- `get_ramp` never reads its reply.
- `set_units` writes to `:UNITS:`, while `get_units` queries `:UNIT:`.
- `write_sp` has no leading colon.
- `get_profiles` stops at profile 39, because `range(1, 40)` excludes 40.
  The doc comment of `select_profile` (f4t_interface.py:59) speaks of
  profiles up to 40; this model follows the code.

## Model

| member | source | states |
|---|---|---|
| Interface.F4T.constructor | f4t/f4t_interface.py:17-25 | set point, units and current profile are stored as given; the registry starts empty; an unset timeout becomes 1.5, a set one is kept; nothing is sent |
| Interface.F4T.GetUnits | f4t/f4t_interface.py:27-33 | clears the buffer, then sends `:UNIT:TEMPERATURE?` and reads one reply; on a known value the stored unit becomes the member with that value; on an unknown value it fails with `NotAMember` and on a timeout with `Timeout`, and in both cases keeps the stored unit |
| Interface.F4T.SetUnits | f4t/f4t_interface.py:35-40 | sends exactly one `:UNITS:TEMPERATURE <value>` with the given unit's value, or the stored unit's when none is given; it changes nothing but the log |
| Interface.F4T.GetProfiles | f4t/f4t_interface.py:42-54 | the registry afterwards is the old registry extended with the walk's names, the queue has lost exactly the replies the walk read, the log has gained exactly the walk's select/name-query pairs, and it fails (with `Timeout`) exactly when a reply was missing |
| Interface.F4T.StoreNextProfile | f4t/f4t_interface.py:45-54 | one pass of the loop: a non-empty cleaned name is stored under the profile number and the walk goes on; an empty name or a missing reply ends it, leaving the walk's result |
| Interface.F4T.ReadProfileName | f4t/f4t_interface.py:46-50 | sends the profile selection, then `:PROGRAM:NAME?`, and returns the next reply stripped of surrounding whitespace and of every double quote |
| Interface.F4T.SelectProfile | f4t/f4t_interface.py:56-61 | sends exactly one `:PROGRAM:NUMBER <profile>`; the number is not range-checked |
| Interface.F4T.ProgMode | f4t/f4t_interface.py:63-76 | sends exactly one `:PROGRAM:SELECTED:STATE <mode>` and reads nothing |
| Interface.F4T.GetPV | f4t/f4t_interface.py:78-86 | sends one `:SOURCE:CLOOP<loop>:PVALUE?` and returns the next reply line unmodified, or `Timeout` |
| Interface.F4T.GetSP | f4t/f4t_interface.py:88-96 | sends one `:SOURCE:CLOOP<loop>:SPOINT?` and returns the next reply line unmodified, or `Timeout` |
| Interface.F4T.GetCascadeSP | f4t/f4t_interface.py:98-102 | sends one `:SOURCE:CASCADE<cascade>:SPOINT?` (cascade 1 by default) and returns the next reply line unmodified |
| Interface.F4T.GetCascadeLoopPV | f4t/f4t_interface.py:104-112 | sends one `:SOURCE:CASCADE<cascade>:OUTER:PVALUE?` when the flag is set and `...:INNER:PVALUE?` otherwise (cascade 1 by default), and returns the next reply line unmodified |
| Interface.F4T.GetCascadeLoopSP | f4t/f4t_interface.py:114-122 | the same for `...:OUTER:SPOINT?` and `...:INNER:SPOINT?` |
| Interface.F4T.WriteSP | f4t/f4t_interface.py:124-131 | sends exactly one `SOURCE:CLOOP<loop>:SPOINT <value>`, without the leading colon, and reads nothing |
| Interface.F4T.IsDone | f4t/f4t_interface.py:133-141 | sends one `:OUTPUT<n>:STATE?` and returns true exactly when the reply is `ON`; every other reply, the empty one included, gives false |
| Interface.F4T.GetTS | f4t/f4t_interface.py:143-150 | sends one `:OUTPUT<n>:STATE?` and consumes one reply; it returns no value |
| Interface.F4T.SetOutput | f4t/f4t_interface.py:152-161 | sends one state query and, once a reply was read, exactly one write to the same output: `ON` after `OFF`, and `OFF` after any other reply; on a timeout no write is sent |
| Interface.F4T.SetRampScale | f4t/f4t_interface.py:163-167 | fails with `NotAMember` exactly when no ramp-scale member has the value, and then sends nothing; otherwise it sends exactly one `:SOURCE:CLOOP<loop>:RSCALE <label>` for that member |
| Interface.F4T.RampMode | f4t/f4t_interface.py:169-177 | sends exactly one `:SOURCE:CLOOP<loop>:RACTION <mode>` |
| Interface.F4T.GetRamp | f4t/f4t_interface.py:179-186 | sends one `...:RRATE?` for `rate` and `...:RTIME?` for anything else, and leaves the reply queue untouched |
| Interface.F4T.SetRamp | f4t/f4t_interface.py:188-195 | sends exactly one ramp write whose header is the query token, `?` included |
| Enums.EnumClass.Lookup | f4t/f4t_interface.py:33 | calling the enumeration with a value gives a member with exactly that value, and gives nothing exactly when no member has it |
| Enums.LookupValue | f4t/f4t_interface.py:33-40 | the value `set_units` writes for a member is read back by `get_units` as that same member |
| ProfileScan.ScanStopsAtFirstEmpty | f4t/f4t_interface.py:45-54 | the walk stores the cleaned names in order, all non-empty, and stops at profile 39, at the first empty name, or when the replies run out |
| ProfileScan.StopsAtFirstEmptyUnique | f4t/f4t_interface.py:45-54 | that description fixes the walk's result: anything that satisfies it is the walk |
| ProfileScan.ScanBounds | f4t/f4t_interface.py:45-54 | the walk reads no more replies than are queued and visits no more than 39 profiles, and reads at most one reply per visited profile |
| ProfileScan.WalkRegistry | f4t/f4t_interface.py:45-54 | after the walk, profile p maps to the cleaned p-th reply (never empty) for each of the at most 39 stored profiles; every other key keeps its old entry or absence; an `EmptyName` stop means the next cleaned reply was empty |
| ProfileScan.RegistryLookup | f4t/f4t_interface.py:51-52 | storing names for profiles 1, 2, ... writes key p with the p-th name, removes nothing and touches no other key |
| ProfileScan.ScanLogAt | f4t/f4t_interface.py:45-48 | the walk's log holds two commands per profile, in ascending profile order: the selection, then the name query |
| ProfileScan.CleanName | f4t/f4t_interface.py:50 | a cleaned name never holds a double quote |
| ProfileScan.CleanNameEmpty | f4t/f4t_interface.py:50-54 | a cleaned name is empty exactly when the stripped reply holds only double quotes, so `" "` with the space inside the quotes still gives a name |
| ProfileScan.ScanExample | f4t/f4t_interface.py:45-54 | replies `"Ramp1"` (quoted), ` Ramp2` (padded, CRLF-terminated) and an empty one give the names Ramp1 and Ramp2 and stop at profile 3 |
| Text.StripSpec | f4t/f4t_interface.py:50 | `strip()` removes exactly the whitespace at both ends: what it cuts off is whitespace, and what it leaves neither starts nor ends with whitespace |
| Text.RemoveQuotesConcat | f4t/f4t_interface.py:50 | `replace('"', '')` works piece by piece, so it drops exactly the quotes and keeps every other character in order |
| Text.RemoveQuotesNone | f4t/f4t_interface.py:50 | text without quotes is left unchanged |
| Text.IntTextRoundTrip | f4t/f4t_interface.py:61 | the decimal rendering of an integer reads back as that integer |
| Text.IntTextInjective | f4t/f4t_interface.py:61 | distinct profile, loop, cascade or output numbers render as distinct text |
| Commands.InverseTokens | f4t/f4t_interface.py:159 | the toggle writes `ON` exactly after `OFF` and `OFF` after any other reply, and inverting twice returns the reply exactly when it was `ON` or `OFF` |
| Commands.RampWriteIsQueryWithValue | f4t/f4t_interface.py:185-195 | the ramp write is the ramp query for the same loop and type, `?` included, followed by a space and the value |
| Commands.UnitNodesDiffer | f4t/f4t_interface.py:31-40 | the unit write addresses `:UNITS:TEMPERATURE`, a node other than the `:UNIT:TEMPERATURE` that the unit query reads |
| Commands.SetPointWriteHeader | f4t/f4t_interface.py:95-131 | the set-point write's header is the set-point query for the same loop without its leading colon and its `?`, and its argument is the value |
| Commands.LoopAddressing | f4t/f4t_interface.py:85-95 | each process-value or set-point query names exactly one loop, and the two families never produce the same text |
| Commands.CascadeAddressing | f4t/f4t_interface.py:104-122 | each cascade loop query names exactly one cascade and one half, OUTER or INNER, and the PV and SP families never produce the same text |
| OutputDevice.ParseOutputQuery | f4t/f4t_interface.py:136 | a device reads the output query as a query of that very output |
| OutputDevice.ParseOutputWrite | f4t/f4t_interface.py:161 | a device reads the output write as a write of that state to that very output |
| OutputDevice.ToggleOnDevice | f4t/f4t_interface.py:156-161 | against a device that honours writes, one toggle reads the output's state and leaves its inverse stored |
| OutputDevice.DoneReadsDevice | f4t/f4t_interface.py:133-141 | against a device that honours writes, the done query is answered with the output's stored state and changes nothing, so the done test reads true exactly when the device holds `ON` for that output |
| OutputDevice.SetOutputTwice | f4t/f4t_interface.py:152-161 | two toggles of any output number leave the device as it was exactly when the output was `ON` or `OFF`; any other state, and an output the device has no state for, ends up `ON` |
| OutputDevice.ToggleFromOffIsDone | f4t/f4t_interface.py:133-161 | an output read as `OFF` is written `ON`, and the next done test on it reads true |

## Left out

- The `Controller` base class is not part of this model. Neither are the
  transport under it, the internals of `send_cmd`, `read_items` and
  `clear_buffer`, or how the timeout is enforced. The channel is the `sent`
  log plus the `replies` queue, and an empty queue stands for a timeout.
- Interface.F4T.ClearBuffer: the buffer clear is only logged. It does not
  drop queued replies, because the queue stands for the replies the reads
  will return, not for the bytes pending on the line.
- Transport errors are not modelled. The only channel failure is `Timeout`.
- The `time.sleep` settle delays are left out. They have no logical effect,
  and they do not appear in the log.
- Logging and the `print` in `get_ts` are left out: they are side-channel
  output. Interface.F4T.GetTS therefore states only the command and the
  consumed reply.
- `TempUnits` and `RampScale` are defined in `f4t_class`, which is not part
  of this model. Each one is an abstract table: a member has a value (the
  device token) and a label (how `str()` renders it). Their concrete tokens
  and labels are not modelled, and no two members may share a value.
- Interface.F4T.constructor: the `units` parameter has no default. The
  Python default `TempUnits.C` is a concrete member, and this model keeps the
  members abstract. Any extra constructor arguments go to the base class,
  which is not modelled; only its resulting timeout is taken as a parameter.
- Enum members as arguments: `set_ramScale` also accepts a `RampScale`
  member where the model takes its value, and `set_units` takes a member
  that the model passes as its index.
- Floating-point values: `setPoint` is kept as a `real`, and no command
  uses it. Only `val` of `write_sp` and the ramp value arrive as
  already-rendered text. The `mode`, `rampType` and ramp arguments are
  forwarded text. No arithmetic is done on any of them. Python's rendering
  of floats is not modelled. Only integers, that is profile, loop, cascade and output
  numbers, are rendered, as `str(int)` renders them.
- `loop` in `get_cascadeLoopPV`/`get_cascadeLoopSP` is tested for
  truthiness in Python. The model takes it as a `bool`, so other truthy
  values are not modelled.
- The insertion order of the `profiles` dict is not modelled. The registry
  is a `map`; the order of writes is stated through the log
  (`ProfileScan.ScanLogAt`) instead.
- What the device does with program-state, ramp and set-point commands is
  not modelled. Only the output family is modelled, and only to state what
  two toggles do.
