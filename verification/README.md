# FX PLC emulator: ladder interpreter, scan runtime and protocols

A Dafny model of the portable core of an FX-series PLC emulator, with proofs. One device image (X, Y, M, S, T,
C, D) is scanned by a ladder interpreter, advanced by a scan runtime, and read and written by two protocols: the
serial programming port and Modbus TCP. `dafny verify dfyconfig.toml` checks the whole project.

## How it is organised

Each stateful part of the firmware is a class over arrays and fields with loops in place, proved equal to a
function on values; the theorems are about those functions.

| part | functions on values | classes and loops | theorems |
|---|---|---|---|
| numbers and packed bits | `Words`, `BitPacking` | | `Words`, `BitPacking` |
| device image | `Devices` | `PlcMemory.Memory` | `Devices` |
| ladder interpreter | `Instructions`, `Applied`, `Ladder` | `BlockMoves`, `AppliedOps`, `Interpreter.Machine` | `LadderScan`, `Listing`, `Programs`, `Assembler`, `Relays`, `Networks`, `LostContacts`, `Branches`, `Rungs`, `Overflows`, `Calls`, `AppliedLaws`, `InstructionLaws`, `StlIsolation`, `StlTransfers`, `StlCharts`, `Fifo`, `PulseLaws`, `PulseScans` |
| scan runtime | `Timers`, `ScanRuntime` | `ScanRuntime.Runtime` | `TimeLaws`, `TimerScans`, `ScanLaws` |
| programming port | `FxAddr`, `FxMonitor`, `FxProtocol`, `FxCommands`, `FxWire` | `FxAddr.Bus`, `FxMonitor.Monitor`, `FxPort.Port` | `FxAddr`, `FxMonitor`, `FxProtocol`, `FxCommands`, `FxTransfers`, `FxWire`, `FxLineErrors`, `FxForces`, `FxRefusals` |
| Modbus | `ModbusMap`, `ModbusPdu`, `ModbusTcp` | `ModbusServer.Server`, `TcpConnection.Connection` | `ModbusMap`, `ModbusPdu`, `ModbusRequests`, `ModbusTcp` |
| both protocols and the program | | | `SharedImage`, `DeviceMap` |

The interpreter is split in two: `Instructions.Decode` reads program memory only, and `Ladder.Exec` carries out
the decoded instruction. A malformed operand stops the fetching where the C `&&` chains stop, so the offset after
a malformed applied instruction is that of the code. Bit operations are arithmetic on unbounded integers with
explicit wrap-around. `Assembler` is a
canonical encoding of the instruction set that the decoder inverts; on the word lists quoted in the comments of
`src/plc_exec.c` it agrees with them (`Assembler.CapturedEncodings`, `Assembler.CapturedTables`).

## Where the code is not what one would expect

The model follows the code; each item is a theorem.

- The comment at `src/plc_exec.c:670-673` says that block-stack entries are discarded when the stack wraps. The
  code drops the new push instead. `Networks.NetFitsExactly` says exactly when the block stack survives that, and
  `LostContacts.NetResultExact` exactly when the result does, for networks that test no device twice;
  `Networks.OverflowMisreads` shows what is read instead. `Branches.TreeFitsExactly` and `Branches.FullStackFork`
  are the same for MPS. `Overflows.RungFitsExactly` puts both together for scans of whole rungs, and two programs
  there drive a coil wrongly.
- An inactive step is not dark to everything: comparisons that start or join a rung, word 0x01CA and PLF get
  through (`StlIsolation.IsolationExact`, `StlIsolation.UnpoweredEffects`).
- A state that is both a destination and a fired source is cleared at the end of the scan, so a token can vanish
  (`StlCharts.ExclusiveScan`, `StlCharts.TokenLost`). The source of a transfer stays active until the scan ends, so
  two transfers of one step both fire when both conditions hold, and the token doubles (`StlCharts.TokenDoubled`).
- The sum check of the programming port does not catch every wrong byte: STX inside a frame starts a new one, and if
  the bytes before it sum to 0 the rest is accepted as a request of its own (`FxLineErrors.OneWrongByte`). A write
  can become a remote STOP that way (`FxLineErrors.WriteBecomesStop`).
- A Modbus request whose reply the TCP stack refuses has been carried out all the same (`ModbusTcp.RefusalExact`).
- A scan that lasts longer than the 32-bit microsecond accumulator loses time (`TimeLaws.AdvanceExact`,
  `TimeLaws.LongScanLosesTime`).
- A TCP segment that carries more than the buffer has room for ends the connection even when it holds only
  complete frames (`ModbusTcp.ChunkExact`).
- A timer with preset 0 counts on and is never done (`TimerScans.TimerCounts`).
- 32-bit counters can be read but not written through the byte space (`FxAddr.ByteOverByte`).
- Multi-byte and multi-item writes are applied one by one before a later rejection
  (`ModbusPdu.CoilWriteExact`, `ModbusPdu.RegisterWriteExact`, `FxPort.Port.WritePayload`).

## Model

| member | source | states |
|---|---|---|
| LadderScan.ScanHalts | src/plc_exec.c:693-773 | Every scan of every program image ends, recursive CALLs included: after at most Rank steps (bytes left per call level, read lexicographically over up to nine levels) the loop has stopped, and it was running at every earlier step |
| LadderScan.StepDescends | src/plc_exec.c:739-773 | Every step lowers that rank: CALL lowers the caller’s level, SRET empties the callee’s, anything else moves on; at most eight returns are pending |
| LadderScan.RunWellFormed | src/plc_exec.c:675-693 | From a well-formed state the whole loop keeps offsets and return addresses even and the branch, block, call and source stacks within 16, 16, 8 and 8 |
| LadderScan.RunLoopAfter | src/plc_exec.c:693-712 | Splitting a scan after any number of instructions does not change where it ends |
| Networks.NetMeaning | src/plc_exec.c:1032-1037 | A series/parallel contact network compiled to LD, AND, OR, ANB and ORB leaves on the rung its Boolean value (gated by the open step) and on the block stack the old stack plus the old result, if its need fits in the free entries |
| Networks.NetFitsExactly | src/plc_exec.c:1105-1121 | ... and that law, for rung and block stack together, holds if and only if the need fits (for the result alone: LostContacts.NetResultExact) |
| Networks.OverflowMisreads | src/plc_exec.c:1105-1109 | The failing family: with one free entry, a block is joined to the result of an older rung instead of to its left operand |
| LostContacts.NetResultExact | src/plc_exec.c:1105-1121 | For a network that tests no device twice: its result is right in every state with h < 16 entries on the block stack if and only if its need fits in the others |
| LostContacts.RunsBlind | src/plc_exec.c:1105-1109 | Why: when the need does not fit, the machine does not see one contact of the network (it is in the result when the first push is dropped); images that differ only there run alike |
| LostContacts.Misread | src/plc_exec.c:1105-1109 | ... so from every state some image, changed in the devices of the network only, gets a wrong result |
| Overflows.NetworkOverflow | src/plc_exec.c:1105-1109 | A concrete program: seventeen blocks inside each other and Y0; a scan of a blank image leaves Y0 off although all contacts are closed |
| Overflows.ChainMisreads | src/plc_exec.c:1105-1121 | A nested series one block too long leaves the result of the rung before in place of its own value |
| Branches.TreeMeaning | src/plc_exec.c:1021-1031 | A tree of MPS/MRD/MPP arms nested at most to the free entries drives every coil, top to bottom, from the power kept at its fork, and leaves the branch stack at its entry height |
| Branches.TreeFitsExactly | src/plc_exec.c:1022-1031 | ... and that meaning, for a tree inside another fork, holds if and only if the nesting fits (for whole rungs: Overflows.EmptyStackExact and Overflows.RungFitsExactly) |
| Branches.PathMeaning | src/plc_exec.c:1123-1135 | When no coil of the tree is tested by one of its contacts, each coil receives the conjunction of the contacts on its root path, read before the rung |
| Branches.FullStackFork | src/plc_exec.c:1022-1031 | The failing family: a fork entered with a full branch stack hands its later arms the power of the enclosing fork and removes that fork’s entry |
| Overflows.RungFitsExactly | src/plc_exec.c:654-1135 | A rung in program memory is scanned rightly for all images if and only if its network needs at most sixteen block entries and its forks nest at most sixteen deep; for rungs whose network tests no device twice, none that is tested on the way to the last coil, and only settable ones, whose coils are not tested in the tree, and whose arms beside the way to the last coil, a writable coil that some image lets power reach, each begin with a free contact (its device is settable and not tested by the network or on that way, nor the other way round at the head of another such arm) |
| Overflows.NetworkFitsExactly | src/plc_exec.c:654-1135 | In particular for a network that tests no device twice and a writable coil: every scan is right if and only if the need is at most sixteen |
| Overflows.ForksFitExactly | src/plc_exec.c:654-1135 | For any network that needs at most sixteen block entries (devices tested twice included) and a tree as above: every scan is right if and only if the forks nest at most sixteen deep |
| Overflows.EmptyStackExact | src/plc_exec.c:1022-1031 | The same for a tree over all states with an empty branch stack |
| Overflows.Misdriven | src/plc_exec.c:1022-1031 | What goes wrong otherwise: in every image that powers the last coil and opens the arms beside the way to it, the scan leaves that coil off |
| Overflows.BranchOverflow | src/plc_exec.c:1022-1031 | A concrete program nested seventeen deep; a scan of a blank image leaves Y0 off although its rung means to drive it |
| Programs.ListingScan | src/plc_exec.c:693-738 | A scan of a listing followed by END executes the listing from the start state and clears the queued states |
| Programs.StartsDark | src/plc_exec.c:654-692 | A scan starts with the rung off: a coil in front of every contact goes off |
| Programs.Load | src/plc_exec.c:693-712 | Every listing that fits can be put in program memory |
| Calls.CallExact | src/plc_exec.c:739-765 | CALL P with power, right after OUT, or inside STL goes on at the word after the first word 0xB000 + P of the program and remembers the word after its operands; otherwise it goes on there; without such a word, and as ninth nested call, it is refused. Nothing else changes |
| Calls.BadCallRefused | src/plc_exec.c:741-759 | A CALL with other operands than a pointer’s is refused |
| Calls.SretExact | src/plc_exec.c:766-773 | SRET goes back to the latest remembered word, or is refused |
| Calls.CallRuns | src/plc_exec.c:739-773 | A CALL that is taken executes the body of the subroutine on the devices as they are and goes on after its operands with the devices the body left |
| Calls.SubroutineScan | src/plc_exec.c:693-773 | A scan of a program with a CALL executes the listing before it, the body if it is taken, and the listing behind it |
| Calls.CallScan | src/plc_exec.c:739-765 | Network, CALL P, rest, END, and behind it the subroutine of rungs: the scan solves the rungs of the subroutine exactly when the network has power, and then the rest |
| Calls.CallAfterCoilScan | src/plc_exec.c:751-756 | A CALL right after a coil solves the subroutine with and without power |
| Calls.CallInStep | src/plc_exec.c:751-756 | A CALL after STL S is taken whether S is active or not |
| Calls.MissingScan | src/plc_exec.c:757-759 | Without the subroutine the CALL is reported and the scan goes on behind it |
| Calls.LoadProgram | src/plc_exec.c:310-316 | Such programs exist for every listing, body and pointer: no word in front of the subroutine passes for its marker |
| Rungs.RungsScan | src/plc_exec.c:654-1135 | A scan of a program of rungs (a network, then a tree of coils) that fit the stacks computes the meaning of each rung, top to bottom, on the devices the rungs above it left |
| Listing.ListingRuns | src/plc_exec.c:693-712 | The interpreter, run on encoded words in program memory, executes exactly the listing they encode |
| Listing.DecodeEncode | src/plc_exec.c:1021-1121 | Decoding an encoded one-word instruction gives the instruction back and moves on by one word |
| Assembler.LongDecodes | src/plc_exec.c:715-1088 | The decoder inverts the encoder on every instruction of several words, applied instructions included, and takes exactly the words it occupies |
| Assembler.AppliedDecodes | src/plc_exec.c:413-635 | The same for the operands of every applied instruction |
| Assembler.ArgDecodes | src/plc_exec.c:215-332 | Each kind of operand decodes from its two typed words, and no bit operand passes for a word or the other way round |
| Assembler.ShortDecodes | src/plc_exec.c:735-838 | The decoder inverts the encoder on END, SRET, SET S, RST S, OUT S, resets and the counter enable word |
| Assembler.PulseDecodes | src/plc_exec.c:777-794 | A pulse prefix is accepted exactly in front of a pulse coil word, and both decode |
| Assembler.EncodingIsUnambiguous | src/plc_exec.c:715-1088 | Two encodings that agree are of the same instruction |
| StlIsolation.IsolationExact | src/plc_exec.c:1069-1121 | In a step whose gate is false one instruction leaves the rung powered if and only if it is an ungated comparison that holds, word 0x01CA with its input on, or a stack read below the entry height; otherwise rung and stacks stay dark |
| StlIsolation.UnpoweredEffects | src/plc_exec.c:1123-1172 | Without power inside STL, SET, RST, SET S, moves and applied instructions change no device, OUT writes false, a pulse coil writes its edge (PLF may still pulse), and no transfer is queued |
| StlIsolation.StepIsIsolated | src/plc_exec.c:334-357 | Over any run of a dark step’s body: the rung is false at every point, no bit is switched on, no register changes, no transfer is queued |
| StlIsolation.StepStartsDark | src/plc_exec.c:334-348 | Opening an inactive step makes everything above the entry heights dark |
| StlTransfers.TransferLaw | src/plc_exec.c:334-365 | Over a whole scan in which S is written only by SET and transfers: active after = (active before + powered destinations) - sources of fired transfers; a state that is both ends up cleared |
| StlTransfers.StatesOnlyAccumulate | src/plc_exec.c:350-357 | Until the scan ends the set of active states only grows |
| StlTransfers.ExecTransfers | src/plc_exec.c:811-821 | What one instruction of any kind adds to the active states and to the sources to clear |
| StlTransfers.MergeGates | src/plc_exec.c:1048-1052 | Consecutive STL words form a gate that is the conjunction of all their states; the first eight of them are the sources of the transfer |
| StlCharts.ChartScan | src/plc_exec.c:709-738 | A scan of a compiled sequential chart, whose steps may have several transfers, has the chart’s step-by-step meaning, then clears the queued sources |
| StlCharts.TokensBalance | src/plc_exec.c:350-365 | Conservation, from any set of active states: after a scan there are as many as before, plus the states activated in it, minus the steps that fired |
| StlCharts.OneHotExactly | src/plc_exec.c:350-365 | A scan that starts with one active state ends with one if and only if its steps activate as many states as steps fire |
| StlCharts.OneHotRun | src/plc_exec.c:334-365 | Over every run of scans of any sequential chart, cycles and selections included: it ends with one active state if and only if over the run as many states were activated as steps fired |
| StlCharts.RunBalance | src/plc_exec.c:334-365 | The same account over every run of scans |
| StlCharts.ExclusiveScan | src/plc_exec.c:350-365 | When no step sends its token to two states in the scan: one state stays active if and only if no transfer enters a state that already fired in it, and none otherwise |
| StlCharts.ExclusiveRun | src/plc_exec.c:334-365 | ... and over every run of such scans one state is active at the end if and only if no scan of the run re-enters a state that fired in it; otherwise none is, from that scan on |
| StlCharts.OneTransferExcludes | src/plc_exec.c:350-357 | Charts with at most one transfer to a step are of that kind in every scan |
| StlCharts.OneHotForever | src/plc_exec.c:334-365 | ... and forward charts of that kind keep exactly one active state for all inputs, however many steps the token crosses in one scan |
| StlCharts.RoundTripLosesToken | src/plc_exec.c:359-365 | The failing family: two steps that hand the token to each other in one scan leave no state active |
| StlCharts.TokenLost | src/plc_exec.c:359-365 | A concrete program and image in which that happens |
| StlCharts.TokenDoubled | src/plc_exec.c:350-357 | A concrete selection whose two conditions both hold: one active state becomes two |
| Interpreter.Machine.Scan | src/plc_exec.c:654-1182 | The interpreter over packed device memory, arrays of stacks and bitmaps terminates and leaves exactly the state of the scan function |
| Interpreter.Machine.ExecuteWord | src/plc_exec.c:693-712 | One turn of the loop is one step of the scan function |
| Interpreter.Machine.BeginScan | src/plc_exec.c:664-691 | The variables at the start of a scan; the first scan after STOP forgets the edge memory |
| Interpreter.Machine.FinishScan | src/plc_exec.c:359-365 | Exactly the queued states are cleared |
| Interpreter.Machine.BeginStep | src/plc_exec.c:334-348 | STL: gate and source list, a ninth merged source is reported |
| Interpreter.Machine.QueueSources | src/plc_exec.c:350-357 | The open step’s sources join the bitmap of states to clear |
| Interpreter.Machine.Edge | src/plc_exec.c:193-206 | The packed edge bitmap behaves as a set of program steps |
| Interpreter.Machine.FindTarget | src/plc_exec.c:310-316 | The search returns the word after the first marker in program order |
| Instructions.FindMarker | src/plc_exec.c:310-316 | The offset returned holds the marker and no earlier whole-word offset does |
| Instructions.DecodeAdvances | src/plc_exec.c:693-732 | Every instruction, malformed or not, moves on by at least one word and by whole words |
| Interpreter.Machine.ExecContact | src/plc_exec.c:1105-1121 | LD, LDI, AND, ANI, OR, ORI: the gate applies to LD and OR, the push is dropped when the stack is full |
| Interpreter.Machine.ExecCompare | src/plc_exec.c:1069-1088 | Inline comparisons join the rung without the gate |
| Interpreter.Machine.ExecStack | src/plc_exec.c:1021-1044 | MPS, MRD, MPP, ANB, ORB on the two arrays |
| Interpreter.Machine.ExecOut | src/plc_exec.c:1123-1135 | OUT, which inside STL is a transfer for S coils |
| Interpreter.Machine.ExecSet | src/plc_exec.c:1137-1143 | SET and its transfer |
| Interpreter.Machine.ExecSetState | src/plc_exec.c:811-821 | SET S and its transfer |
| Interpreter.Machine.ExecRst | src/plc_exec.c:1145-1152 | RST of bits, timers and counters |
| Interpreter.Machine.ExecPulse | src/plc_exec.c:1154-1172 | PLS and PLF through the edge bitmap; a coil without prefix is reported |
| Interpreter.Machine.ExecCall | src/plc_exec.c:739-765 | CALL with the return array and the depth limit is the CALL of the scan function, which Calls.CallExact pins down |
| Interpreter.Machine.ExecSret | src/plc_exec.c:766-773 | SRET |
| Interpreter.Machine.ExecPreset | src/plc_exec.c:715-732 | OUT T and OUT C with their preset |
| Interpreter.Machine.ExecApplied | src/plc_exec.c:413-635 | An applied instruction takes its whole effect, is reported, or does nothing without power, as AppliedLaws.AppliedOutcome says |
| Interpreter.Machine.ExecZrst | src/plc_exec.c:839-865 | ZRST clears the inclusive range |
| Interpreter.Machine.ExecSftl | src/plc_exec.c:866-900 | SFTL with its range checks |
| Interpreter.Machine.ExecAbsd | src/plc_exec.c:901-944 | ABSD with its range checks |
| Interpreter.Machine.ExecDeco | src/plc_exec.c:945-980 | DECO with its range checks |
| Interpreter.Machine.ExecMovBits | src/plc_exec.c:981-1001 | MOV between bit arrays |
| Interpreter.Machine.ExecMov | src/plc_exec.c:1002-1014 | MOV to a register |
| AppliedOps.Apply | src/plc_exec.c:413-635 | Each valid applied instruction has the effect of the scan function on packed memory; the laws of AppliedLaws say what that is |
| AppliedLaws.AppliedOutcome | src/plc_exec.c:413-635 | Every executed applied instruction: outside its range checks, written out operand by operand, it is refused with and without power; inside, it changes nothing but devices, and those only with power |
| AppliedLaws.OperandValue | src/plc_exec.c:215-233 | What a typed operand pair stands for: a timer’s value, a register, or a number |
| AppliedLaws.AddSub | src/plc_exec.c:500-501 | ADD and SUB leave sum and difference modulo 2^16 in the register, and change no other |
| AppliedLaws.Multiplied | src/plc_exec.c:502-502 | MUL leaves the exact signed product in the pair |
| AppliedLaws.Divided | src/plc_exec.c:503-506 | DIV: a = b * q + r, r smaller in size than b and of the sign of a, as signed words; -32768 / -1 leaves -32768 and 0 |
| AppliedLaws.DividedTime | src/plc_exec.c:440-464 | DDIV: unsigned 32-bit quotient and remainder in two pairs |
| AppliedLaws.PairMoved | src/plc_exec.c:418-439 | DMOV copies a pair |
| AppliedLaws.BitByBit | src/plc_exec.c:507-510 | WAND, WOR and WXOR, bit by bit |
| AppliedLaws.RotatedBits | src/plc_exec.c:523-532 | ROR and ROL move every bit n places around the word |
| AppliedLaws.AdjustedLaw | src/plc_exec.c:513-522 | INC, DEC and NEG modulo 2^16 |
| AppliedLaws.Compared | src/plc_exec.c:465-474 | CMP: its three flags say greater, equal and less of signed words; no other device changes |
| AppliedLaws.BlockMoved | src/plc_exec.c:475-486 | BMOV copies the source as it was, whatever the overlap |
| AppliedLaws.BlockFilled | src/plc_exec.c:487-491 | FMOV |
| AppliedLaws.ShiftedDown | src/plc_exec.c:532-544 | SFTR, device by device |
| AppliedLaws.QueueWritten | src/plc_exec.c:545-558 | SFWR appends to the queue its table holds, or reports it full |
| AppliedLaws.QueueRead | src/plc_exec.c:559-572 | SFRD takes the oldest entry off that queue, or reports it empty |
| AppliedLaws.EncodedWord | src/plc_exec.c:573-593 | ENCO of a word leaves the number of its highest bit that is on, or 0 |
| AppliedLaws.EncodedBits | src/plc_exec.c:573-593 | ENCO of devices likewise |
| AppliedLaws.BitOnMoved | src/plc_exec.c:594-621 | BON copies one bit, indexed by n and by D28 when an operand is an array |
| AppliedLaws.Floated | src/plc_exec.c:622-630 | FLT leaves the IEEE 754 single whose value is the integer |
| InstructionLaws.OutLaw | src/plc_exec.c:1123-1135 | OUT: the coil takes the state of the rung; no other device changes |
| InstructionLaws.SetLaw | src/plc_exec.c:1137-1143 | SET: with power the coil goes on |
| InstructionLaws.RstLaw | src/plc_exec.c:1145-1152 | RST of a relay: with power it goes off |
| InstructionLaws.RstNumberLaw | src/plc_exec.c:1145-1152 | RST of a timer or counter: with power it reads 0 and its contact is off, no other changes |
| InstructionLaws.PulseLaw | src/plc_exec.c:1154-1172 | A pulse coil gets the edge of its rung under a prefix, no other device changes, and its step remembers the rung; without a prefix it is refused; either way it clears the block stack |
| InstructionLaws.StateLaw | src/plc_exec.c:811-838 | SET S, RST S and OUT S by their two-word forms |
| InstructionLaws.CompareLaw | src/plc_exec.c:288-298 | Inline comparisons of signed words by the relation bits of their opcode |
| InstructionLaws.MovLaw | src/plc_exec.c:1002-1014 | MOV: with power the register takes the constant, or the value of the source register |
| InstructionLaws.MovBitsLaw | src/plc_exec.c:985-1001 | MOV of sixteen devices, copied as they were, around number 255 |
| InstructionLaws.ZrstLaw | src/plc_exec.c:839-865 | ZRST: with power every relay of the range goes off |
| InstructionLaws.SftlLaw | src/plc_exec.c:866-900 | SFTL with its refusals, device by device |
| InstructionLaws.AbsdLaw | src/plc_exec.c:901-944 | ABSD with its refusals: output i is on exactly while the counter is between its two thresholds |
| InstructionLaws.DecoLaw | src/plc_exec.c:945-980 | DECO with its refusals: exactly the selected output is on |
| InstructionLaws.TimerCoilLaw | src/plc_scan.c:177-202 | OUT T executed: which ticks it counts by its number, where it stops, that a timer once done stays so whatever its preset becomes, and what it keeps without power |
| InstructionLaws.CounterCoilLaw | src/plc_scan.c:213-241 | OUT C executed: only an edge counts, up to the preset for C0-C199, by the direction relay for C200-C255, and when it is done |
| InstructionLaws.PresetLaw | src/plc_exec.c:715-733 | OUT T and OUT C clear the block stack and change nothing but timers and counters; what they do to these is in TimeLaws and TimerScans |
| InstructionLaws.RetLaw | src/plc_exec.c:1053-1060 | RET closes the step and takes the power off the rung |
| InstructionLaws.EnableLaw | src/plc_exec.c:1090-1103 | Word 0x01CA puts an input on the rung |
| InstructionLaws.UnknownLaw | src/plc_exec.c:1174-1180 | A word that is no instruction is counted and remembered; a broken comparison or 0x01CA also takes the power off the rung |
| InstructionLaws.BlankLaw | src/plc_exec.c:698-700 | Erased words are passed over without any effect |
| AppliedOps.DriveDrum | src/plc_exec.c:934-942 | Drum output i is on exactly between its two thresholds |
| AppliedOps.DriveOneHot | src/plc_exec.c:972-978 | Exactly the selected output of the run is on |
| Applied.Normalized | src/plc_exec.c:622-630 | The conversion of a 16-bit integer to a single-precision float needs no rounding |
| BlockMoves.SftlInPlace | src/plc_exec.c:888-897 | The nested in-place loops compute the window shifted by k, source first, even when the source lies in the window |
| BlockMoves.SftlMoves | src/plc_exec.c:888-897 | Per device: every surviving bit moved up by exactly k, the source as it was before at offset k-1, other vacated bits false, nothing outside the window changed |
| BlockMoves.SftrInPlace | src/plc_exec.c:532-544 | The downward shift, also where the window runs past the last S relay |
| BlockMoves.SftrMoves | src/plc_exec.c:532-544 | Per device: moved down by exactly k, source at offset n-k, the rest false, nothing else changed |
| BlockMoves.MoveBlockInPlace | src/plc_exec.c:475-486 | BMOV copies the source as it was, for every overlap |
| BlockMoves.FillBlockInPlace | src/plc_exec.c:487-491 | FMOV fills exactly the block |
| BlockMoves.CopyBits | src/plc_exec.c:994-998 | Sixteen bits copied as they were, for every overlap |
| BlockMoves.ClearRun | src/plc_exec.c:855-859 | A run of devices cleared, last number included |
| BlockMoves.EncodeWord | src/plc_exec.c:584-590 | ENCO of a word: the position of the highest bit that is on |
| BlockMoves.EncodeBits | src/plc_exec.c:584-590 | ENCO of devices: the position of the highest one that is on |
| Applied.HighestOn | src/plc_exec.c:584-590 | That position is on and nothing above it is, or nothing is on |
| BlockMoves.FifoWrite | src/plc_exec.c:545-558 | SFWR on device memory is the queue write |
| BlockMoves.FifoRead | src/plc_exec.c:559-572 | SFRD on device memory is the queue read, whose loop closes the table up |
| Fifo.FifoRefinesQueue | src/plc_exec.c:545-572 | Over any sequence of SFWR and SFRD the table holds exactly a queue of capacity n-1 in order, M8022 reports exactly the refused writes, M8020 exactly the empty reads, every value read is the queue’s, and no other register changes |
| PulseLaws.EdgeMemory | src/plc_exec.c:193-206 | After any executions since the first scan a step is marked exactly when its own last rung was on |
| PulseLaws.PulseIsEdge | src/plc_exec.c:173-206 | A coil pulses exactly on the edge of its rung against its own previous execution |
| PulseScans.HistoryRuns | src/plc_exec.c:675-693 | Over every run of scans from the first after STOP the edge memory is that of all prefixed pulse coils executed in it, subroutines included, each PLS or PLF as its prefix in the program says |
| PulseScans.FirstScanForgets | src/plc_exec.c:682-688 | The first scan after STOP goes as the first of a run, whatever the edge memory holds |
| PulseScans.CoilsReceive | src/plc_exec.c:1154-1172 | Every prefixed coil that a scan of the run executes receives exactly whether its execution fires, given all executions before it in the run |
| PulseScans.ScansBalance | src/plc_exec.c:1154-1172 | Over every run of scans, a PLS and a PLF coil that saw the same rungs: PLS pulses minus PLF pulses is one while the rung is on and zero otherwise |
| PulseScans.ScansNeverTwice | src/plc_exec.c:1154-1172 | Over every run of scans no coil pulses in two consecutive executions |
| Devices.ReadOverWriteBit | src/plc_exec.c:369-404 | Instruction operands never alias: a write changes the one device it names, if that is writable |
| Devices.ReadOverWriteRun | src/plc_exec.c:369-404 | The same for runs of consecutive devices |
| PlcMemory.BitSet | src/plc_memory.c:32-41 | Setting one bit of a packed array updates that flag and no other; out of range is ignored |
| PlcMemory.BitGet | src/plc_memory.c:25-30 | Reading a packed bit is reading the flag; out of range is false |
| PlcMemory.Memory.SetM | src/plc_memory.c:59-65 | Ordinary and special M relays |
| PlcMemory.Memory.GetD | src/plc_memory.c:67-73 | Ordinary and special data registers, 0 elsewhere |
| PlcMemory.Memory.SetD | src/plc_memory.c:75-86 | One register written, writes elsewhere ignored |
| PlcMemory.Memory.SetD32 | src/plc_memory.c:92-95 | A register pair, low word first |
| PlcMemory.Memory.WriteBit | src/plc_exec.c:394-404 | Writing through an instruction operand |
| PlcMemory.Memory.ReadBit | src/plc_exec.c:379-392 | Reading through an instruction operand |
| PlcMemory.Memory.ResetNonretentive | src/plc_memory.c:9-21 | Y, M, S, D, T0-T245 and C0-C99 are cleared; everything else stays |
| Words.FlagsUpdate | src/plc_memory.c:32-41 | Changing bit i % 16 of word i / 16 changes flag i only |
| Words.MarksUpdate | src/plc_exec.c:193-206 | The same for bitmaps of 32-bit words read as sets |
| ScanRuntime.Runtime.AdvanceTicks | src/plc_scan.c:28-52 | One scan’s ticks and remainders in 32-bit arithmetic |
| ScanRuntime.Runtime.ScanBegin | src/plc_scan.c:114-137 | Start time, ticks, released timer coils, inputs, analog channels and special relays |
| ScanRuntime.Runtime.ScanEnd | src/plc_scan.c:139-175 | Idle non-retentive timers reset; outputs are the first seven Y relays in RUN and 0 in STOP; scan time D8010 and its extremes D8011 and D8012; the first-scan flag ends |
| ScanRuntime.Runtime.SetMode | src/plc_scan.c:95-110 | STOP to RUN resets the non-retentive image and arms the initial pulse; RUN to STOP clears the outputs; no change otherwise |
| ScanRuntime.Runtime.UpdateSpecialRelays | src/plc_scan.c:62-72 | Run monitor, initial pulse and the four clock relays |
| ScanRuntime.Runtime.TimerDrive | src/plc_scan.c:177-202 | One execution of a timer coil |
| ScanRuntime.Runtime.CounterDrive | src/plc_scan.c:213-241 | One execution of a counter coil |
| ScanRuntime.Runtime.TimerReset | src/plc_scan.c:204-211 | Timer reset |
| ScanRuntime.Runtime.CounterReset | src/plc_scan.c:243-250 | Counter reset |
| TimeLaws.AdvanceExact | src/plc_scan.c:28-38 | One scan conserves time if and only if the 32-bit accumulator does not wrap |
| TimeLaws.TicksConserved | src/plc_scan.c:28-52 | Over any scans: ticks handed out plus remainders equal elapsed time plus initial remainders, in all three bases |
| TimeLaws.TicksAreFloor | src/plc_scan.c:28-60 | Summed ticks are the floor of elapsed time plus the initial phase |
| TimerScans.StepClocks | src/plc_exec.c:715-732 | No instruction changes a timer or a counter but its own coil and reset, for every instruction of the interpreter |
| TimerScans.CycleTimer | src/plc_scan.c:114-211 | A timer after one turn of the main loop (begin, scan of any program, end): the coil executions and resets that the scan carried out, in order, then the idle reset |
| TimerScans.TimerCounts | src/plc_scan.c:177-202 | Over every run of the main loop in which a scan executes the coil at most once and does not reset the timer, from reset, everything else arbitrary: the timer holds min(preset, the ticks that count) and is done exactly from the preset on; T0-T199 and T250-T255 count 100 ms ticks, T200-T245 10 ms, T246-T249 1 ms; T0-T245 restart whenever the power is off, T246-T255 keep what they have; with preset 0 it counts on to 65535 and is never done |
| TimerScans.TimerAccurate | src/plc_scan.c:19-60 | In microseconds, with power all along and preset p > 0: done exactly when 1000 * rem100 + accum + elapsed reaches 100000 * p for T0-T199 and T250-T255, 1000 * rem10 + accum + elapsed reaches 10000 * p for T200-T245, accum + elapsed reaches 1000 * p for T246-T249 |
| TimerScans.TimerBounds | src/plc_scan.c:19-60 | ... so never before p - 1 ticks have passed, always from p ticks on |
| TimerScans.WithoutPower | src/plc_scan.c:145-150 | A turn in which the coil has no power, or is skipped altogether: T0-T245 read 0 and are not done, T246-T255 keep their value |
| TimeLaws.ClockRuns | src/plc_scan.c:40-50 | The milliseconds behind the clock relays count the milliseconds handed out, modulo 2^32 |
| ScanLaws.BeginLaw | src/plc_scan.c:112-137 | Device by device: X0-X9 are the bits of the input word, D8030-D8032 the analog channels, M8000, M8002 and M8011-M8014 the run monitor, the initial pulse and square waves of 10 ms, 100 ms, 1 s and 1 min; nothing else changes |
| ScanLaws.EndLaw | src/plc_scan.c:139-175 | ... and at the end: queued states off, D8010-D8012, idle timers T0-T245 reset; nothing else changes |
| TimeLaws.TenthsLaw | src/plc_scan.c:163-165 | Scans of up to 6.5 s are recorded in whole tenths of a millisecond |
| TimerScans.DrivesOnce | src/plc_exec.c:715-732 | A program that runs so exists for every timer and preset: LD M8000, OUT T, END executes the coil once per scan with power, in every scan |
| TimerScans.LoadTimer | src/plc_exec.c:715-732 | ... and can be put in program memory |
| TimerScans.DrivesAlong | src/plc_scan.c:112-175 | ... so its timer keeps time from reset in every run of the main loop, whatever inputs, analog values and scan lengths are |
| TimeLaws.LongScanLosesTime | src/plc_scan.c:28-38 | The failing family: a scan that overflows the accumulator loses 2^32 microseconds |
| TimeLaws.ScanTimeLaw | src/plc_scan.c:163-172 | From the first scan on D8011 is the shortest scan, D8012 the longest of them and of what it held before, D8010 the last |
| TimeLaws.UpCounterLaw | src/plc_scan.c:213-241 | C0-C199, over any executions of the coil from reset with all other devices arbitrary between them: min(preset, rising edges), done exactly from max(preset, 1) edges on |
| TimeLaws.UpDownCounterLaw | src/plc_scan.c:213-241 | C200-C255, the same: up edges minus down edges by M8200 + (idx - 200) as it stands at each execution, done as of the last edge, while the count stays in 32 bits |
| TimerScans.CounterFolds | src/plc_scan.c:213-250 | A counter after any run of the main loop is what the coil executions and resets in its scans made of it, in order |
| TimerScans.CounterLatches | src/plc_scan.c:213-241 | C0-C199 over every run without reset, with presets that change: done exactly from the first edge on that finds the counter at the preset of that moment |
| TimerScans.CounterCounts | src/plc_scan.c:213-241 | Both counter laws over every run of the main loop in which scans execute the coil, any number of times, with one preset and without reset |
| FxAddr.ByteOverByte | src/fx_addr.c:6-143 | The memory law: for all states and 16-bit addresses a and b, b reads v after v is written to a if a = b and a holds what is written; otherwise b reads what it did. S above 999, 0x00E0-0x00FF, 32-bit counters and gaps hold nothing |
| FxAddr.BitOverBit | src/fx_addr.c:6-58 | The same law for single bits of the bit addresses |
| FxAddr.ForceLaw | src/fx_addr.c:145-185 | The same law for the force address space |
| FxAddr.ForceIsBit | src/fx_addr.c:153-185 | A relay has one state, whichever of the two spaces names it |
| FxAddr.Bus.ReadByte | src/fx_addr.c:70-106 | Reading a byte of devices or program, eight bits or-ed together where needed |
| FxAddr.Bus.WriteByte | src/fx_addr.c:108-143 | Writing a byte, bit by bit or merged into its word |
| FxAddr.Bus.WriteBit | src/fx_addr.c:37-58 | Writing one bit |
| FxAddr.Bus.ReadBit | src/fx_addr.c:6-35 | Reading one bit |
| FxAddr.Bus.ForceBit | src/fx_addr.c:172-185 | Forcing a relay |
| FxAddr.Bus.ForceState | src/fx_addr.c:153-170 | Reading a relay by force address |
| FxMonitor.SampleExact | src/fx_monitor.c:41-67 | A list is sampled if and only if its marker is 0x81, it fits in 912 bytes and its result in 128; then the length is 2w + ceil(b/8) and word i is the two device bytes at its address |
| FxMonitor.SampledBit | src/fx_monitor.c:61-66 | Packed bit i is the force-space state of watched relay i, padding bits are 0 |
| FxMonitor.Monitor.Sample | src/fx_monitor.c:41-67 | The loops leave exactly that sample readable, and nothing for any other list, whatever was sampled before |
| FxMonitor.Monitor.WriteList | src/fx_monitor.c:23-25 | One byte of the watch list |
| BitPacking.PackedBits | src/modbus_pdu.c:32-57 | Bit i % 8 of packed byte i / 8 is bit i, and the padding is 0 |
| BitPacking.OrBit | src/fx_monitor.c:61-66 | Or-ing one bit into its byte extends the packed run |
| FxProtocol.FrameIsDelivered | src/fx_protocol.c:672-716 | Self-synchronisation: from every receiver state, a framed body is stored byte by byte and delivered exactly once, as it was sent |
| FxProtocol.ReplyDecodes | src/fx_protocol.c:182-207 | A data reply decodes to the bytes it was built from |
| FxProtocol.ParseHexWord | src/fx_protocol.c:120-148 | Hex digits written for a word parse back to it |
| FxCommands.WriteThenRead | src/fx_protocol.c:255-282 | A framed write of up to 64 bytes to addresses that hold what is written is acknowledged, and a framed read of the range then gets a checked reply that decodes to the same bytes |
| FxCommands.StoredReads | src/fx_protocol.c:265-282 | After a write each address of the range reads its new byte if it holds one, every other address its old byte |
| FxCommands.WriteIsStored | src/fx_protocol.c:265-282 | A well-formed write stores its bytes in order and is acknowledged |
| FxCommands.ReadIsAnswered | src/fx_protocol.c:255-263 | A well-formed read is answered with the bytes of its range |
| FxTransfers.DownloadReadsBack | src/fx_protocol.c:385-438 | A framed extended write of up to 64 bytes to addresses that hold what is written is acknowledged and reads back through a framed extended read |
| FxTransfers.ExtendedWriteIsStored | src/fx_protocol.c:385-425 | A well-formed extended write stores its bytes in order, watch list included, unless it is the announced check value |
| FxTransfers.ExtendedReadIsAnswered | src/fx_protocol.c:429-438 | A well-formed extended read is answered with its range, after sampling when it is the result address |
| FxTransfers.CheckValueOnce | src/fx_protocol.c:316-407 | After a program range is announced, exactly one two-byte transfer to its second word is acknowledged without changing anything else, whatever its four data characters are; the same transfer again is written (or refused, when they are not hex digits) |
| FxTransfers.WatchThenRead | src/fx_monitor.c:15-67 | Monitor Mode end to end: a framed write of a watch list, then a framed read of the result address, decodes to what is sampled from the devices for exactly that list |
| FxWire.WireWriteThenRead | src/fx_protocol.c:672-716 | On the wire: whatever the receiver held, the bytes of a write and a read request send back an acknowledgement and a reply that decodes to what was written |
| FxWire.FrameIsAnswered | src/fx_protocol.c:232-483 | From every receiver state a framed body is carried out once and answered once |
| FxWire.WholeIsAnswered | src/fx_protocol.c:672-716 | From every receiver state, what stands between STX and two characters after ETX is handled exactly once, sound or not |
| FxLineErrors.OneWrongByte | src/fx_protocol.c:232-246 | On the wire, from every link, when byte i of a framed body becomes b: if b is STX, the bytes after it are carried out if and only if there are any and those up to the replaced one sum to 0 mod 256; if b is ETX, the bytes before it are carried out if and only if there are any and the next two body bytes are their check digits; otherwise nothing changes and NAK is sent. What a false ETX leaves over is answered byte by byte |
| FxLineErrors.SoundIsFrame | src/fx_protocol.c:239-253 | What a sound frame does does not depend on how its check digits are written (lower case included) |
| FxLineErrors.WriteBecomesStop | src/fx_protocol.c:686-689 | A concrete failing input: in the frame that writes B0 7B to 0x4000 one character becomes STX, and the frame is carried out as a remote STOP and acknowledged |
| FxPort.Port.Receive | src/fx_protocol.c:672-716 | The receive loop body over its buffer and handlers is the stream machine |
| FxPort.Port.HandleFrame | src/fx_protocol.c:232-483 | The frame in the buffer is checked, carried out and answered as the command function says |
| FxPort.Port.ParseHexAt | src/fx_protocol.c:137-148 | The digit loop computes the number, or fails at the first bad digit |
| FxPort.Port.ChecksumAt | src/fx_protocol.c:151-157 | The sum loop computes the check sum |
| FxPort.Port.ReadResponse | src/fx_protocol.c:182-207 | The reply built in the buffer, with its running sum, is the framed range |
| FxPort.Port.RangeResponse | src/fx_protocol.c:212-229 | The reply to an announced range |
| FxPort.Port.WritePayload | src/fx_protocol.c:272-279 | Bytes are written in order up to the first bad hex pair |
| FxPort.Port.HandleRead | src/fx_protocol.c:255-263 | Device read, with its refusals |
| FxPort.Port.HandleWrite | src/fx_protocol.c:265-282 | Device write, with its refusals |
| FxPort.Port.HandleAnnounce | src/fx_protocol.c:316-338 | Announcing a range, and the pending transfer check |
| FxPort.Port.HandleExtendedForce | src/fx_protocol.c:349-365 | Extended force on packed memory is that of the command function; FxForces.ForceFrameLaw says what that does |
| FxPort.Port.HandleTransfer | src/fx_protocol.c:367-438 | Extended reads and writes by sub-command |
| FxPort.Port.HandleExtendedWrite | src/fx_protocol.c:385-425 | Extended write: watch list or devices, or the pending transfer check; a completed write that starts in the program marks it to be saved |
| FxPort.Port.HandleExtendedRead | src/fx_protocol.c:429-438 | Extended read; the result address samples first |
| FxPort.Port.HandleForce | src/fx_protocol.c:461-477 | Force of one bit of the byte space |
| FxPort.Port.HandleStop | src/fx_protocol.c:451-459 | Remote stop |
| FxForces.ForceFrameLaw | src/fx_protocol.c:349-365 | The framed E7 and E8 with any force address, low byte first: acknowledged; M8036 on means RUN, M8037 on STOP, nothing else changes the mode; without a change of mode the addressed relay goes on or off and every other relay and number is kept |
| FxForces.RemoteRun | src/fx_protocol.c:357-358 | M8036 on starts a stopped PLC: running, initial pulse due, Y, M, S, D, T0-T245 and C0-C99 clear, everything else kept |
| FxForces.RemoteStop | src/fx_protocol.c:359-360 | M8037 on stops a running PLC with its devices kept |
| FxForces.RemoteOnTheWire | src/fx_protocol.c:340-361 | The remote RUN and STOP sequences on the wire, from every link |
| FxForces.BitForceLaw | src/fx_protocol.c:461-477 | The framed 7 and 8: the addressed bit, low address byte first, goes on or off, every other bit is kept |
| FxForces.BadForceIgnored | src/fx_protocol.c:352-365 | An extended force with a bad address is acknowledged without effect |
| FxRefusals.HexDigits | src/fx_protocol.c:124-148 | Numbers are read in digits, capital and small letters, high digit first; any other character spoils them |
| FxRefusals.DigitsSent | src/fx_protocol.c:120-122 | ... and sent in digits and capital letters |
| FxRefusals.ReadExact | src/fx_protocol.c:255-263 | Framed reads of 1 to 64 bytes are answered, all others refused |
| FxRefusals.WrongCountRefused | src/fx_protocol.c:265-271 | Writes with a count of 0, above 64, or not that of their data change nothing and are refused |
| FxRefusals.BadPairRefused | src/fx_protocol.c:272-279 | A bad hex pair refuses the write after the bytes before it are stored |
| FxRefusals.UnknownRefused | src/fx_protocol.c:451-483 | Unknown commands and a STOP with a payload are refused |
| FxRefusals.StopFrame | src/fx_protocol.c:451-459 | The bare STOP is 02 42 03 34 35 and stops a running PLC |
| FxRefusals.TransferRefused | src/fx_protocol.c:367-384 | Extended transfers with another sub-command or a bad count are refused |
| FxRefusals.AnnounceRefused | src/fx_protocol.c:316-330 | Announcing no words, more than 64, or a program range below 0x8000 is refused |
| FxRefusals.EnquiryAnswered | src/fx_protocol.c:677-682 | ENQ between frames is answered with ACK |
| FxRefusals.OverlongDropped | src/fx_protocol.c:696-700 | A frame that has not ended after 256 bytes is dropped |
| FxTransfers.SavedExactly | src/fx_protocol.c:422-424 | An extended write has the program saved exactly when it is stored from 0x8000 on |
| ModbusMap.CoilOverCoil | src/modbus_map.c:14-46 | A coil reads what was last written to it and no other coil; exactly the mapped addresses exist |
| ModbusMap.HoldingOverHolding | src/modbus_map.c:65-89 | The same for holding registers |
| ModbusMap.TablesAreSeparate | src/modbus_map.c:14-108 | Writes to one table show in another only where the analog inputs are special registers |
| ModbusMap.WriteCoil | src/modbus_map.c:31-46 | One coil in device memory, refused if unmapped |
| ModbusMap.WriteHolding | src/modbus_map.c:78-89 | One register in device memory, refused if unmapped |
| ModbusMap.ReadCoil | src/modbus_map.c:14-29 | Coil lookup in device memory |
| ModbusMap.ReadDiscrete | src/modbus_map.c:48-63 | Discrete input lookup |
| ModbusMap.ReadHolding | src/modbus_map.c:65-76 | Holding register lookup |
| ModbusMap.ReadInput | src/modbus_map.c:91-108 | Input register lookup; 32-bit counters by their low word |
| ModbusPdu.RegistersRoundTrip | src/modbus_pdu.c:184-199 | Function 16 then function 3 is the identity on the payload for every accepted request; a request that fits a frame never exceeds what one read returns |
| ModbusPdu.CoilsRoundTrip | src/modbus_pdu.c:167-182 | Function 15 then function 1 returns the bits written, with zero padding |
| ModbusPdu.RegisterWriteExact | src/modbus_pdu.c:184-199 | Accepted if and only if every address, 16-bit wrap included, is mapped; either way exactly the registers before the first unmapped address are written, and no coil changes |
| ModbusPdu.CoilWriteExact | src/modbus_pdu.c:167-182 | The same for coils |
| ModbusPdu.MappedCoils | src/modbus_pdu.c:175-180 | The number of items before the first unmapped coil |
| ModbusPdu.MappedRegisters | src/modbus_pdu.c:192-197 | The number of items before the first unmapped register |
| ModbusPdu.ReplyShape | src/modbus_pdu.c:128-204 | Every request that names a function gets one reply of at most 256 bytes, from its unit, for its function or that function’s exception |
| ModbusPdu.AduReplyShape | src/modbus_pdu.c:97-126 | A frame’s reply carries its transaction, protocol 0 and a length that agrees with its size |
| ModbusServer.Server.ExecPdu | src/modbus_pdu.c:128-204 | The handler that fills the reply buffer and writes item by item does what the request function says |
| ModbusServer.Server.ExecAdu | src/modbus_pdu.c:97-126 | The same for a TCP frame |
| ModbusServer.Server.AnswerBits | src/modbus_pdu.c:32-57 | Packed bits, or the exception |
| ModbusServer.Server.AnswerWords | src/modbus_pdu.c:59-81 | Big-endian registers, or the exception |
| ModbusServer.Server.StoreCoils | src/modbus_pdu.c:175-180 | The write loop stops at the first unmapped coil |
| ModbusServer.Server.StoreRegisters | src/modbus_pdu.c:192-197 | The write loop stops at the first unmapped register |
| ModbusServer.Server.AnswerCoilRun | src/modbus_pdu.c:167-182 | Multiple coils with the payload checks |
| ModbusServer.Server.AnswerRegisterRun | src/modbus_pdu.c:184-199 | Multiple registers with the payload checks |
| ModbusServer.Server.StoreCoil | src/modbus_pdu.c:145-155 | Single coil |
| ModbusServer.Server.StoreRegister | src/modbus_pdu.c:158-165 | Single register |
| ModbusRequests.BitsAnswered | src/modbus_pdu.c:32-57 | Functions 1 and 2 by their bytes: bit i of the reply is the coil or input i of the published table, padding 0; 1 to 2000 items, all mapped, else exceptions 3 and 2; nothing changes |
| ModbusRequests.WordsAnswered | src/modbus_pdu.c:59-81 | Functions 3 and 4 likewise, high byte first, 1 to 125 items |
| ModbusRequests.CoilAnswered | src/modbus_pdu.c:145-155 | Function 5: FF00 switches the coil on, 0000 off, every other device is kept; other values get exception 3, unmapped coils exception 2 |
| ModbusRequests.RegisterAnswered | src/modbus_pdu.c:158-165 | Function 6: the register takes the value, everything else is kept; unmapped registers get exception 2 |
| ModbusRequests.CoilReadsBack | src/modbus_pdu.c:145-155 | Function 5 then function 1: bit 1 after FF00, bit 0 after 0000 |
| ModbusRequests.RegisterReadsBack | src/modbus_pdu.c:158-165 | Function 6 then function 3: the value |
| ModbusRequests.CoilsAnswered | src/modbus_pdu.c:167-182 | Function 15 by its bytes: coil i takes bit i of the payload up to the first unmapped one; incomplete payloads get exception 3 |
| ModbusRequests.RegistersAnswered | src/modbus_pdu.c:184-199 | Function 16 by its bytes |
| ModbusRequests.MappedBefore | src/modbus_pdu.c:175-197 | How many items a refused run of writes takes first: those before the first address outside the published tables |
| ModbusRequests.FrameAnswered | src/modbus_pdu.c:113-126 | A request in a TCP frame of its own is carried out, and its reply comes in a frame of the same transaction with its length |
| ModbusRequests.FrameIgnored | src/modbus_pdu.c:97-112 | Frames for another protocol or with a length that is not their own get no reply and change nothing |
| ModbusRequests.OthersRefused | src/modbus_pdu.c:128-142 | Other functions get exception 1, short requests exception 3, and one without a function no reply |
| ModbusTcp.Reassembly | src/modbus_tcp.c:54-116 | However a stream is cut, if no chunk overruns the buffer then devices, executed frames, replies, remaining bytes and the end of the connection, by a refused reply too, are those of the whole stream |
| ModbusTcp.CutsAgree | src/modbus_tcp.c:54-116 | Two ways of cutting the same bytes have the same outcome |
| ModbusTcp.ChunkExact | src/modbus_tcp.c:101-116 | One chunk is handled as the stream it continues if and only if it fits in the buffer, or the next length field ends the connection anyway |
| ModbusTcp.BytesNeverOverrun | src/modbus_tcp.c:101-116 | A stream delivered byte by byte never overruns |
| ModbusTcp.Remainder | src/modbus_tcp.c:54-81 | The connection ends exactly by a refused reply or when the next length field is 0 or above 256; while it stays open, executed frames and buffer are the bytes received, and the buffer holds less than one frame |
| ModbusTcp.RefusalExact | src/modbus_tcp.c:71-75 | If the TCP stack refuses reply k, the connection ends exactly when there is such a reply: the replies before it are written as without the refusal, and its own frame has been carried out |
| ModbusTcp.ClosedForGood | src/modbus_tcp.c:83-116 | A closed peer or a receive error ends the connection with what was carried out and answered, and nothing later counts |
| ModbusTcp.ParseDivides | src/modbus_tcp.c:57-68 | Parsing conserves the stream: frames of the length they claim, then a remainder that is not one |
| ModbusTcp.OnlyOneDivision | src/modbus_tcp.c:57-68 | There is only one such division of a stream |
| ModbusTcp.DrainIsWhole | src/modbus_tcp.c:54-81 | The loop that takes frames off the front is the whole-stream reference |
| ModbusTcp.StreamWriteThenRead | src/modbus_tcp.c:54-116 | An accepted register write and a read of its range, in any segments, are answered by the echo and by exactly the bytes written |
| TcpConnection.Connection.Consume | src/modbus_tcp.c:54-81 | The loop over buffer and length, with its memmove and tcp_write, is the draining function; false when a length is impossible or a reply is refused |
| TcpConnection.Connection.OnReceive | src/modbus_tcp.c:83-116 | A chunk is appended and consumed; one that does not fit, a closed peer and a receive error end the connection |
| TcpConnection.Connection.Execute | src/modbus_tcp.c:70-78 | One frame carried out, its reply offered, and the frame shifted out unless the reply was refused |
| TcpConnection.Connection.Shift | src/modbus_tcp.c:77-78 | The overlapping move keeps exactly the bytes after the frame |
| SharedImage.ModbusWriteSerialRead | src/modbus_pdu.c:184-199 | Registers written over Modbus are what the serial port then reads |
| SharedImage.SerialWriteModbusRead | src/fx_protocol.c:265-282 | Registers written over the serial port are what Modbus then reads |
| SharedImage.RegistersAgree | src/fx_addr.c:100-104 | A holding register is its two byte addresses |
| SharedImage.CoilsAgree | src/fx_addr.c:6-35 | Relays that both protocols can name have the same state in both |
| DeviceMap.Inputs | src/fx_addr.c:6-35 | X n: operand nibble 4, bit address 0x80 + n/8, force address 0x1200 + n, discrete input n |
| DeviceMap.Outputs | src/fx_addr.c:6-35 | Y n: nibble 5, 0xA0 + n/8, 0x0C00 + n, coil n |
| DeviceMap.Relays | src/fx_addr.c:6-35 | M n: nibbles 8 to D, 0x100 + n/8, force address n, coil 1000 + n |
| DeviceMap.SpecialRelays | src/fx_addr.c:6-35 | M8000 + n: nibble F, 0x1E0 + n/8, 0x0E00 + n |
| DeviceMap.States | src/fx_addr.c:6-35 | S n: nibbles 0 to 3, bit address n/8, 0x1400 + n, coil 5000 + n |
| DeviceMap.Contacts | src/modbus_map.c:48-63 | T and C contacts: nibbles 6 and E, 0xC0 and 0x1C0, discrete inputs 1000 + n and 2000 + n |
| DeviceMap.Registers | src/fx_addr.c:60-106 | D n: byte addresses 0x4000 + 2n, low byte first, holding register n |
| DeviceMap.SpecialRegisters | src/fx_addr.c:60-106 | D8000 + n: 0x0E00 + 2n, holding register 8000 + n |
| DeviceMap.TimerValues | src/fx_addr.c:60-106 | T n: 0x0800 + 2n, input register n |
| DeviceMap.CounterValues | src/fx_addr.c:60-106 | C n: 0x0A00 + 2n or, from C200 on, four bytes from 0x0C00; input register 1000 + n is the low word |
| DeviceMap.ProgramBytes | src/fx_addr.c:60-106 | Program memory starts at byte address 0x8000 |
| DeviceMap.Gaps | src/fx_addr.c:60-106 | Addresses that name nothing read 0, those past the program FF |

## Left out

- USB, lwIP, Wi-Fi, ADC, GPIO and flash drivers: foreign I/O. Inputs, analog values, elapsed time and received bytes are parameters; what is sent is a log.
- Accepting connections, the four connection slots and `on_error`; which reply `tcp_write` refuses is a parameter of the connection.
- Console lines, the trace dump and its ring buffer, and the frame and byte counters of the programming port: diagnostics. The bytes that lead to them are events without effect on the protocol.
- The flash commit after a program write, and when it runs; only the mark that leads to it is modelled.
- FxPort.Port.Receive: does not model the trace dump and the console replies sent on the same port outside frames, because they are diagnostics; `sent` holds the protocol's bytes only.
- The identification registers set at start-up and the demo ladder.
- `plc_exec_has_program` and other plain accessors.
- Communications during a scan: the main loop runs them only between scans, so `Interpreter.Machine.Scan` takes program memory as a value.
- Interpreter.Machine.ExecApplied: the code reads uninitialised operands after some malformed ones, but only to discard them; the model never reads them.
- TimerScans.CounterCounts: for C200-C255 is stated while the count stays within 32 bits, as is TimeLaws.UpDownCounterLaw.
- TimeLaws.UpDownCounterLaw: is stated while the count stays within 32 bits; beyond that the C increment is undefined and the model wraps.
- Serial bytes sent by handlers are returned by `FxPort` handlers and sent by the receive loop, which is where the firmware's handlers would send them as their last action.
- Uncaptured instruction encodings beyond the unknown-word path.
