# BATTLE2 core in Dafny

BATTLE2 is a programming game: agents are small byte programs that share one
circular byte arena and try to overwrite each other's code. This project
models the parts of the repository that decide a match and a tournament,
and proves properties of them.

- **Instruction set** (`isa.dfy`, module `Isa`): the twelve opcodes, their
  widths (five bytes with a 32-bit little-endian immediate, one byte
  otherwise), the encoder `enc`, and a decoder by the width table that ties
  the VM, the assembler and the built-in agents together.
- **VM** (`vm.dfy`, module `Machine`): the arena with its per-cell writer,
  the run-length log of a tick's writes, and `step`. The semantics is given
  on values (`Exec`), where its properties are proved; the classes `VM` and
  `Agent` update arena and agent in place and are proved to do what `Exec`
  says.
- **Kernel** (`kernel.dfy`, module `Engine`; `ticks.dfy`, module `Ticks`):
  spawning, one tick (each live agent runs up to `instr_per_tick` steps,
  then activity and territory statistics, alive and territory scoring, kill
  attribution and liveness tracking), the tick loop of `run` and the choice
  of the winner. Each phase is a method of the `Kernel` class proved equal
  to a fold over the agents; the folds carry the properties.
- **Built-in agents** (`builtins.dfy`, module `Builtins`): the six fixed
  programs as lists of `enc` calls, and the case-insensitive dispatcher
  `build_agent` with its defaults.
- **Assembler** (`assembler.dfy`, module `Assembler`): the first pass that
  cuts comments, binds labels and lays out offsets, operand evaluation
  (numbers, labels, one `+` or `-`), and the second pass that emits bytes;
  the output is proved to decode back to the instructions at the offsets
  the first pass recorded.
- **Tournament controller** (`schedule.dfy`, `leaderboard.dfy`,
  `bracket.dfy`): the `--players` and `--seeds` parsers, player
  normalisation, the run tag and its split back into names, the
  position-balanced pair and the round robin, `parse_summary`,
  `write_match_csv`, the integer counters of `aggregate_leaderboard`, and
  the single-elimination bracket.
- **Agent folders** (`agents_meta.dfy`, module `AgentMeta`): the relaxed
  JSON reader for `agent.yaml`, the rule that turns a folder into an
  `AgentSpec`, discovery in sorted order and lookup by name.
- `text.dfy` (module `Text`) holds the Python `str`/`int()` behaviour the
  parsers rely on, and `wrappers.dfy` the `Option`/`Result` types used for
  `None` and for raised exceptions.

`engine/src/core.py` is a byte-identical copy of
`engine/src/battle_engine/core.py`, and `_legacy/agents_tooling/asm_assembler.py`
of `sdk/tooling/asm_assembler.py`; one model stands for both copies and the
table cites them alternately.

Facts about the code as written that the model records: in the tag
`a__vs__b__seed-N__AB` two names free of both separators can still read back
wrongly (`Schedule.MisreadTag`: `x__vs` against `y` reads as `x` against
`vs__y`), and the exact condition is `Schedule.Separable`; a single-elimination
series over one seed tallies only two games, whatever `best_of` is, because
replays overwrite the same run directories (`Bracket.OneSeedOnePair`); with no
seeds the bracket raises `ZeroDivisionError` (`Bracket.NoSeedsFails`); the
seeker built-in's two jump targets fall inside 5-byte instructions rather than on instruction starts (`Builtins.SeekerLayout`); and the final
numeric test of `encode_operand` is unreachable.

## Model

| member | source | states |
|---|---|---|
| Isa.Width | engine/src/battle_engine/core.py:128-171 | every opcode occupies one or five bytes: five for the eight immediate ops, one otherwise |
| Isa.Mask32 | engine/src/battle_engine/core.py:133 | `v & 0xFFFFFFFF` lies below 2^32 and leaves a value already in range unchanged |
| Isa.LeValue | engine/src/core.py:84-92 | four bytes combined little-endian give a value below 2^32 |
| Isa.LeRoundTrip | engine/src/core.py:175-179 | the bytes `enc` writes for an immediate read back, little-endian, as that immediate |
| Isa.Enc | engine/src/battle_engine/core.py:175-179 | `enc(op)` is one byte; `enc(op, imm)` is five bytes, the opcode then `imm & 0xFFFFFFFF` little-endian |
| Isa.Decode | engine/src/battle_engine/core.py:120-171 | scanning code by the width table yields only well-formed instructions |
| Isa.DecodeEncAll | engine/src/core.py:175-179 | code built from well-formed instructions decodes back to exactly those instructions, and its length is the sum of their widths |
| Isa.JoinEncEach | engine/src/builtins/registry.py:8-14 | joining `enc` outputs equals encoding the instructions the calls stand for; valid calls decode back to them |
| Isa.OpcodeAtOffset | sdk/tooling/asm_assembler.py:151-163 | in a well-formed program's bytes, instruction k's opcode sits at the sum of the widths before it |
| Isa.ImmAtOffset | _legacy/agents_tooling/asm_assembler.py:151-163 | the four bytes after an immediate instruction's opcode read back as its immediate |
| Isa.RunningOffsets | sdk/tooling/asm_assembler.py:37-46 | offsets built as a running sum of widths are the footprints of the program's prefixes |
| Machine.Rd32 | engine/src/battle_engine/core.py:84-92 | `_rd32` reads a value below 2^32, wrapping indices around the arena |
| Machine.RecordDiff | engine/src/battle_engine/core.py:99-107 | logging a write adds exactly one cell write to the log: the last run grows or a run of one is appended |
| Machine.RecordDiffInArena | engine/src/core.py:99-107 | logging a write of an arena cell keeps every run non-empty and inside the arena |
| Machine.WriteCell | engine/src/battle_engine/core.py:94-107 | `_wr8` keeps the arena's size |
| Machine.WriteCellOneCell | engine/src/core.py:94-107 | `_wr8` changes exactly cell `pos mod m` to `val & 0xFF`, sets its writer, and logs one write |
| Machine.Exec | engine/src/battle_engine/core.py:120-171 | a step keeps the arena's size |
| Machine.ExecStore | engine/src/battle_engine/core.py:144-148 | STORE and STOREI keep the arena's size |
| Machine.ExecDead | engine/src/battle_engine/core.py:121-122 | a dead agent's step changes nothing |
| Machine.ExecAdvancesByWidth | engine/src/battle_engine/core.py:128-169 | every non-jump, non-halting opcode keeps the agent alive and moves `pc` on by its width in the assembler's table |
| Machine.ExecJumps | engine/src/core.py:149-153 | JMP goes to its immediate mod m; JZ goes there exactly when Z is 1 and otherwise moves on five |
| Machine.ExecKills | engine/src/battle_engine/core.py:130-131 | HALT and any byte above 11 kill the agent and change nothing else; every other opcode leaves it alive |
| Machine.ExecPcInArena | engine/src/core.py:120-171 | a `pc` inside the arena stays inside it |
| Machine.ExecRegistersBounded | engine/src/battle_engine/core.py:133-163 | registers A and P stay below 2^32 |
| Machine.ExecZeroFlag | engine/src/core.py:135-163 | only ADD, LOAD and LOADI change Z, and they set it to "A is zero" |
| Machine.ExecWrites | engine/src/battle_engine/core.py:144-169 | only STORE and STOREI touch memory: one `_wr8` of A as the agent, and one more counted write |
| Machine.ExecLogsWrites | engine/src/core.py:144-169 | the write log grows by exactly the writes the agent's `mem_writes` grows by |
| Machine.Place | engine/src/battle_engine/core.py:109-116 | copying code in keeps the arena's size |
| Machine.PlaceFrom | engine/src/core.py:114-116 | every cell after `load_code` holds its old content or a byte of the code |
| Machine.PlaceWrites | engine/src/battle_engine/core.py:114-116 | code no longer than the arena lands intact: byte k at `(s + k) mod m` |
| Machine.PlaceKeeps | engine/src/core.py:114-116 | cells at least `len(code)` cells on from the start keep their content |
| Machine.Rd32After | engine/src/battle_engine/core.py:84-92 | `_rd32(s + 1)` reads the four cells after `s`, wrapping around |
| Machine.LoadThenRead | engine/src/core.py:109-118 | after `load_code` of `enc(op, imm)`, `_rd32` of the cell after the opcode reads `imm & 0xFFFFFFFF` |
| Machine.RegionEndHoldsLastByte | engine/src/battle_engine/core.py:117 | the reported region end holds the last byte of non-empty code |
| Machine.PlaceLast | engine/src/core.py:117 | the cell written last is in the arena and holds the code's last byte |
| Machine.Agent.constructor | engine/src/battle_engine/core.py:63-71 | a new agent is alive at `pc` with zero registers and counters and the given region |
| Machine.VM.constructor | engine/src/battle_engine/core.py:76-79 | a new arena is all NOP with no writers and an empty log |
| Machine.VM.ClearTickDiffs | engine/src/core.py:81-82 | the log is emptied |
| Machine.VM.Wr8 | engine/src/battle_engine/core.py:94-107 | the in-place `_wr8` leaves the state `WriteCell` describes |
| Machine.VM.LoadCode | engine/src/core.py:109-118 | returns `start mod m` and the region end; the arena and writers become `Place` of the code and of the owner |
| Machine.VM.Step | engine/src/battle_engine/core.py:120-171 | the in-place step leaves arena, log and agent as `Exec` says, and leaves `cpu_used` and the region alone |
| Machine.VM.StepStore | engine/src/core.py:144-148 | the in-place STORE/STOREI agrees with `ExecStore` |
| Machine.VM.StepImm | engine/src/battle_engine/core.py:132-159 | the in-place immediate ops agree with `ExecImm` |
| Machine.VM.StepShort | engine/src/core.py:128-171 | the in-place NOP, HALT, LOADI and invalid bytes agree with `ExecShort` |
| Engine.Turn | engine/src/battle_engine/core.py:268-273 | a turn keeps the arena's size |
| Engine.TurnQuota | engine/src/battle_engine/core.py:269-273 | an agent takes at most `instr_per_tick` steps, fewer only when it died, and at least one when alive |
| Engine.TurnLogsWrites | engine/src/core.py:269-273 | over a turn the log grows by exactly the writes the agent counts |
| Engine.TurnOwners | engine/src/battle_engine/core.py:269-273 | over a turn each cell keeps its writer or gets the agent |
| Engine.ExecOwners | engine/src/core.py:144-169 | a step's only change of writer is a cell taken by the stepping agent |
| Engine.StepOne | engine/src/battle_engine/core.py:265-273 | the step phase for one agent keeps the arena's size and the agent's id |
| Engine.StepAll | engine/src/core.py:265-273 | the step phase keeps the arena's size, the number of agents and their ids |
| Engine.StepAllQuota | engine/src/battle_engine/core.py:265-273 | dead agents are untouched; live ones take between one and `instr_per_tick` steps, fewer only if they died |
| Engine.Owned | engine/src/battle_engine/core.py:282-284 | an agent owns at most the whole arena |
| Engine.OwnedCells | engine/src/core.py:282-284 | the `Counter(writer)` count equals the number of cells whose writer is the agent |
| Engine.Activity | engine/src/battle_engine/core.py:276-280 | the activity update keeps the stats table's keys |
| Engine.TerritoryStats | engine/src/core.py:282-289 | the territory update keeps the stats table's keys |
| Engine.ActivityStep | engine/src/battle_engine/core.py:276-280 | the activity update over one more agent updates that agent's entry |
| Engine.TerritoryStep | engine/src/core.py:283-289 | the territory update over one more agent updates that agent's entry |
| Engine.ActivityPerAgent | engine/src/battle_engine/core.py:276-280 | with distinct ids each agent gains an alive tick only if alive, adds its steps to CPU and records its write count |
| Engine.ActivityUntouched | engine/src/core.py:276-280 | an id no agent has keeps its stats entry |
| Engine.TerritoryOneEffect | engine/src/battle_engine/core.py:245-251 | territory scoring of one agent adds buckets times weight to that agent alone |
| Engine.AliveScoresGain | engine/src/battle_engine/core.py:292-296 | alive scoring gives an id the alive weight once per live agent with that id |
| Engine.TerritoryScoresGain | engine/src/core.py:241-251 | territory scoring gives nothing when the weight is not positive, else buckets times weight per agent with the id |
| Engine.AttributeOne | engine/src/battle_engine/core.py:302-317 | kill attribution for one agent keeps the stats table's keys |
| Engine.Attribute | engine/src/core.py:302-317 | kill attribution keeps the stats table's keys |
| Engine.AttributeSnoc | engine/src/battle_engine/core.py:302-317 | attribution over one more agent is attribution of that agent after the ones before |
| Engine.AttributeOneEffect | engine/src/core.py:302-317 | one event if the agent died; the kill and its weight go to a writer other than the victim |
| Engine.AttributeEvents | engine/src/battle_engine/core.py:302-317 | one event per agent that died this tick |
| Engine.AttributeKills | engine/src/core.py:304-310 | each writer gets one kill per agent that died this tick on a cell it wrote |
| Engine.AttributeScores | engine/src/battle_engine/core.py:306-309 | each writer gains the kill weight for each of those kills |
| Engine.AttributeOneDeaths | engine/src/core.py:304-317 | attribution of one agent adds a death to that agent alone, and only when it died this tick |
| Engine.AttributeDeaths | engine/src/battle_engine/core.py:304-317 | with distinct ids each agent's death count grows by one exactly when it died this tick |
| Engine.AttributeDeathsUntouched | engine/src/core.py:302-317 | an id no agent has keeps its death count |
| Engine.RememberEach | engine/src/battle_engine/core.py:332-333 | with distinct ids `_alive_prev` records each agent's own liveness |
| Engine.RememberUntouched | engine/src/core.py:332-333 | an id no agent has keeps its `_alive_prev` entry or absence |
| Engine.AliveIds | engine/src/battle_engine/core.py:343 | there are no more live ids than agents |
| Engine.WinnerUnique | engine/src/core.py:343-354 | the winner rule picks at most one name |
| Engine.ResolveWinner | engine/src/battle_engine/core.py:343-354 | the sole survivor; none in survival mode; else the strictly highest score, none on a tie or empty table |
| Engine.StepAllOwners | engine/src/core.py:265-273 | after the step phase every cell's writer still has a stats entry |
| Engine.Advanced | engine/src/battle_engine/core.py:259-273 | the start of a tick keeps the kernel coherent |
| Engine.AdvancedIs | engine/src/core.py:259-273 | the start of a tick sets the tick, empties the log and runs the step phase |
| Engine.SameKeysKnown | engine/src/battle_engine/core.py:276-289 | tables with the same keys know the same agents and writers |
| Engine.Counted | engine/src/core.py:276-289 | the statistics update keeps the kernel coherent |
| Engine.Attributed | engine/src/battle_engine/core.py:302-317 | kill attribution keeps the kernel coherent |
| Engine.TickKeeps | engine/src/core.py:259-335 | a tick keeps the kernel coherent, the agents and their ids, leaves dead agents alone and sets the tick number |
| Engine.RunWorldStep | engine/src/battle_engine/core.py:259-335 | the loop is one tick followed by the rest, stopping after `max_ticks` or once at most one agent lives |
| Engine.Kernel.constructor | engine/src/battle_engine/core.py:184-200 | a new kernel has no agents, empty tables, tick 0 and a NOP arena of the configured size |
| Engine.Kernel.Spawn | engine/src/battle_engine/core.py:202-217 | appends one new agent at `entry mod m`, loads its code owned by it, keeps an existing score and opens its liveness and stats |
| Engine.Kernel.Register | engine/src/core.py:206-217 | the score is kept if present, else 0; `_alive_prev` is true; stats are fresh |
| Engine.Kernel.LoadFor | engine/src/core.py:203 | loading code for a known agent keeps the kernel coherent and places code and owner |
| Engine.Kernel.Enlist | engine/src/battle_engine/core.py:204-205 | appends the agent and keeps the kernel coherent |
| Engine.Kernel.TakeTurn | engine/src/core.py:265-273 | one agent's turn in place agrees with `StepOne` |
| Engine.Kernel.BodiesOfSplit | engine/src/battle_engine/core.py:265 | one more agent at the front or back of the list |
| Engine.Kernel.TurnAt | engine/src/battle_engine/core.py:265-273 | agent i's turn extends the step phase by one and leaves later agents alone |
| Engine.Kernel.StepAgents | engine/src/core.py:264-273 | the step phase in place agrees with `StepAll` |
| Engine.Kernel.RecordActivity | engine/src/battle_engine/core.py:276-280 | the stats become `Activity` of the old stats |
| Engine.Kernel.RecordTerritory | engine/src/core.py:282-289 | the stats become `TerritoryStats` over the current writers |
| Engine.Kernel.ScoreAlive | engine/src/battle_engine/core.py:291-296 | the scores become `AliveScores` of the old scores |
| Engine.Kernel.ApplyTerritoryScoring | engine/src/core.py:241-251 | the scores become `TerritoryScores` of the old scores |
| Engine.Kernel.AttributeAgent | engine/src/battle_engine/core.py:302-317 | one agent's attribution in place agrees with `AttributeOne` |
| Engine.Kernel.Attribution | engine/src/core.py:301-317 | attribution in place agrees with `Attributed` and keeps the kernel coherent |
| Engine.Kernel.AttributeAll | engine/src/battle_engine/core.py:302-317 | the attribution loop agrees with `Attribute` |
| Engine.Kernel.RememberAlive | engine/src/core.py:332-333 | `_alive_prev` in place agrees with `Remembered` |
| Engine.Kernel.AliveList | engine/src/battle_engine/core.py:343 | the live ids, in agent order |
| Engine.Kernel.LiveAmong | engine/src/core.py:334 | the number of live agents is the length of the live-id list |
| Engine.Kernel.Advance | engine/src/battle_engine/core.py:260-273 | the start of a tick in place agrees with `Advanced` |
| Engine.Kernel.RecordStats | engine/src/core.py:275-289 | the statistics update in place agrees with `Counted` |
| Engine.Kernel.ScoreTick | engine/src/battle_engine/core.py:291-299 | the scoring in place agrees with `Scored` |
| Engine.Kernel.Run | engine/src/battle_engine/core.py:253-354 | the tick loop from 1 agrees with `RunWorld` and the returned name satisfies the winner rule |
| Engine.Kernel.Play | engine/src/core.py:259-335 | the tick loop in place agrees with `RunWorld` |
| Engine.Kernel.PlayTick | engine/src/battle_engine/core.py:259-335 | one pass of the loop; the loop's goal is reached once at most one agent lives |
| Engine.Kernel.Tick | engine/src/core.py:260-333 | one tick in place agrees with `TickWorld` |
| Ticks.TickParts | engine/src/battle_engine/core.py:275-333 | after stepping, a tick changes only the tables |
| Ticks.TickScore | engine/src/core.py:291-317 | a tick moves a score by the alive weight, the territory buckets and the kill weight, per agent concerned |
| Ticks.TickEvents | engine/src/battle_engine/core.py:302-317 | a tick logs one event per agent that died in it |
| Ticks.TickDistinct | engine/src/core.py:259-335 | distinct ids stay distinct |
| Ticks.TickRemembers | engine/src/battle_engine/core.py:332-333 | after a tick `_alive_prev` holds each agent's liveness |
| Ticks.DiesOnce | engine/src/core.py:302-304 | a death is attributed once: a dead agent stays dead and is not counted again the next tick |
| Ticks.RunKeeps | engine/src/battle_engine/core.py:259-335 | the loop keeps the kernel coherent, the agents, their ids and the arena size, and leaves dead agents alone |
| Ticks.RunStops | engine/src/core.py:259-335 | the loop runs at least one tick, at most up to `max_ticks`, and stops early only when at most one agent lives |
| Builtins.RunnerCalls | engine/src/builtins/registry.py:8-9 | the runner's four `enc` calls each pass an immediate exactly when the opcode takes one |
| Builtins.WriterCalls | engine/src/builtins/registry.py:12-13 | the writer's calls are all valid |
| Builtins.BomberCalls | engine/src/builtins/registry.py:16-28 | the bomber's calls are all valid |
| Builtins.SpiralCalls | engine/src/builtins/registry.py:45-70 | the spiral's twelve calls are all valid |
| Builtins.SeekerCalls | engine/src/builtins/registry.py:73-101 | the seeker's calls are all valid, with the target compared through `(-target) & 0xFFFFFFFF` |
| Builtins.AssembleDecodes | engine/src/builtins/registry.py:9 | a program joined from valid `enc` calls decodes back to their instructions, and its length is their total width |
| Builtins.RunnerLayout | engine/src/builtins/registry.py:8-9 | the runner is 16 bytes, decodes to NOP; ADD 1; JZ start; JMP start+1, and its JMP lands on the ADD at offset 1 |
| Builtins.WriterLayout | engine/src/builtins/registry.py:12-13 | the writer is 15 bytes, decodes to MOV; STORE start+offset; JMP start, and jumps back to its first byte |
| Builtins.BomberLayout | engine/src/builtins/registry.py:16-28 | the bomber decodes cleanly, is 21 bytes, and its JMP to start+10 lands on its STOREI |
| Builtins.FloodBlock | engine/src/builtins/registry.py:40 | the unrolled block STOREI; ADDP 1 is valid and 6 bytes |
| Builtins.FlooderValid | engine/src/builtins/registry.py:31-42 | every flooder call is valid, for any `writes_per_loop` |
| Builtins.FlooderShape | engine/src/builtins/registry.py:38-41 | 3 + 2·max(1, writes) instructions in 15 + 6·max(1, writes) bytes, a STOREI at offset 10 and a final JMP start+10 |
| Builtins.FlooderLayout | engine/src/builtins/registry.py:31-42 | the flooder decodes cleanly and its JMP lands on the first STOREI at start+10 |
| Builtins.SpiralOffsets | engine/src/builtins/registry.py:52-68 | the spiral's instructions take 52 bytes, the first three 15 |
| Builtins.SpiralLayout | engine/src/builtins/registry.py:45-70 | the spiral decodes cleanly, is 52 bytes, and its JMP to start+15 lands on its first STOREI |
| Builtins.SeekerOffsets | engine/src/builtins/registry.py:84-99 | the seeker is 42 bytes; offsets 10 and 20 are not instruction starts |
| Builtins.SeekerLayout | engine/src/builtins/registry.py:73-101 | the seeker decodes cleanly and is 42 bytes, but as written its jump targets start+10 and start+20 fall inside 5-byte instructions |
| Builtins.BuildCalls | engine/src/builtins/registry.py:104-144 | the only error is `unknown agent type` for the name given |
| Builtins.BuildAgent | engine/src/builtins/registry.py:104-144 | the only error is `unknown agent type` for the name given |
| Builtins.BuildAgentAccepts | engine/src/builtins/registry.py:5 | `build_agent` succeeds exactly when the lower-cased name is one of the six supported ones |
| Builtins.BuildCallsValid | engine/src/builtins/registry.py:104-143 | every accepted program is made of valid `enc` calls |
| Builtins.BuildAgentDecodes | engine/src/builtins/registry.py:104-143 | every accepted program decodes cleanly under the width table |
| Builtins.BuildAgentDefaults | engine/src/builtins/registry.py:117 | without keyword arguments the agents that take a `ptr` start writing at start+256, in any case of the name |
| Assembler.Opcode | sdk/tooling/asm_assembler.py:23-36 | every mnemonic `OPMAP` knows maps to one of the VM's twelve opcodes |
| Assembler.OpmapMatchesVm | _legacy/agents_tooling/asm_assembler.py:22-36 | `OPMAP` numbers the twelve mnemonics as the VM numbers its opcodes |
| Assembler.OpmapOneToOne | sdk/tooling/asm_assembler.py:23-36 | every VM opcode has exactly one mnemonic |
| Assembler.OpcodeIsOpmap | _legacy/agents_tooling/asm_assembler.py:23-36 | the opcode lookup succeeds exactly for the keys of `OPMAP`, with `OPMAP`'s value |
| Assembler.ImmOpsMatchVm | sdk/tooling/asm_assembler.py:37-46 | `IMM_OPS` is exactly the mnemonics whose opcodes carry an immediate, so `parse_lines`' offsets are the VM's `pc` advances |
| Assembler.StripMarks | _legacy/agents_tooling/asm_assembler.py:62-64 | stripping a comment-free string gives a clean line |
| Assembler.BeforeChar | sdk/tooling/asm_assembler.py:63-64 | `split(c, 1)[0]` is the prefix before the first `c` |
| Assembler.CleanLine | _legacy/agents_tooling/asm_assembler.py:63-64 | a cleaned line is stripped and holds no '#' or ';' |
| Assembler.CleanLineCuts | sdk/tooling/asm_assembler.py:62-64 | cutting at '#' then ';' keeps exactly the stripped text before the first comment mark of either kind |
| Assembler.LabelColon | _legacy/agents_tooling/asm_assembler.py:48 | a matched label is a name of a letter or '_' then word characters, ended by ':' |
| Assembler.AfterLabel | sdk/tooling/asm_assembler.py:74 | the stripped text after a label is again a clean line |
| Assembler.MatchInst | _legacy/agents_tooling/asm_assembler.py:50 | a matched mnemonic is a non-empty run of ASCII letters |
| Assembler.SplitLabel | sdk/tooling/asm_assembler.py:68-76 | splitting off a label leaves a clean line and a well-formed label name |
| Assembler.ClassifyBody | _legacy/agents_tooling/asm_assembler.py:77-83 | an accepted instruction has a known mnemonic; a rejected one is a `SyntaxError` |
| Assembler.InstTextClean | sdk/tooling/asm_assembler.py:63-64 | a mnemonic with a clean operand is a clean line that cleaning leaves alone |
| Assembler.InstTextNoLabel | _legacy/agents_tooling/asm_assembler.py:48 | such a line starts with no label |
| Assembler.InstTextMatches | sdk/tooling/asm_assembler.py:77-81 | the instruction pattern gives back exactly the mnemonic and the operand |
| Assembler.InstLine | _legacy/agents_tooling/asm_assembler.py:77-84 | mnemonics are case-insensitive: the line is read as the upper-cased mnemonic with its operand, or is an unknown-opcode `SyntaxError` |
| Assembler.LabelLine | sdk/tooling/asm_assembler.py:68-76 | a line `label:` binds the label and holds no instruction |
| Assembler.BlankLine | _legacy/agents_tooling/asm_assembler.py:65-66 | a line blank up to a comment mark is skipped |
| Assembler.Classified | sdk/tooling/asm_assembler.py:61 | each source line is read on its own, in order |
| Assembler.ParseLines | _legacy/agents_tooling/asm_assembler.py:53-86 | the first pass loop returns the instructions and labels `ParseAll` describes, or its error |
| Assembler.FoldStep | sdk/tooling/asm_assembler.py:61-85 | one more line is one more step of the pass |
| Assembler.ApplyOk | _legacy/agents_tooling/asm_assembler.py:70-85 | a step that does not fail binds its label at the running offset and records its instruction there |
| Assembler.FoldErrorSticks | sdk/tooling/asm_assembler.py:71-83 | once a line fails the whole pass fails with that error |
| Assembler.FoldErrors | _legacy/agents_tooling/asm_assembler.py:71-83 | the pass fails only with errors of its lines or duplicate labels |
| Assembler.ParseErrorsAreSyntax | sdk/tooling/asm_assembler.py:53-86 | every error of the first pass is a `SyntaxError` |
| Assembler.BindLaid | _legacy/agents_tooling/asm_assembler.py:73 | binding a label at the running offset keeps the layout |
| Assembler.AppendLaid | sdk/tooling/asm_assembler.py:84-85 | recording an instruction at the running offset keeps the layout |
| Assembler.ApplyLaid | _legacy/agents_tooling/asm_assembler.py:67-85 | every successful step keeps the layout |
| Assembler.FoldLaid | sdk/tooling/asm_assembler.py:61-85 | a successful pass is laid out |
| Assembler.ParseAllLaid | _legacy/agents_tooling/asm_assembler.py:53-86 | whatever `parse_lines` returns starts at 0, places each instruction right after the previous one by the width table, and binds labels to offsets |
| Assembler.ApplyExtends | sdk/tooling/asm_assembler.py:67-85 | a successful step extends every layout its input extends |
| Assembler.FoldExtends | _legacy/agents_tooling/asm_assembler.py:61-85 | the layout after any prefix of the lines is extended by the final one |
| Assembler.LabelBindsNext | sdk/tooling/asm_assembler.py:73-85 | a label is the offset of the next instruction, or the end of the program when none follows |
| Assembler.LabelBound | _legacy/agents_tooling/asm_assembler.py:73 | a step that binds a label leaves it bound |
| Assembler.DuplicateFails | sdk/tooling/asm_assembler.py:71-72 | a label bound by two steps makes the pass fail |
| Assembler.DuplicateLabelFails | _legacy/agents_tooling/asm_assembler.py:71-72 | defining a label twice is a `SyntaxError` |
| Assembler.ParseNumberBlank | sdk/tooling/asm_assembler.py:93-95 | a blank token is an empty-number error |
| Assembler.DigitsShape | _legacy/agents_tooling/asm_assembler.py:120 | a run of digits is a plain number token without sign or "0x" |
| Assembler.ParseNegative | sdk/tooling/asm_assembler.py:96-102 | a stripped '-' decimal token parses as the negated value |
| Assembler.ParsePositive | _legacy/agents_tooling/asm_assembler.py:96-102 | a stripped unsigned decimal token parses as its value |
| Assembler.ShowIntParses | sdk/tooling/asm_assembler.py:89-102 | `parse_number` reads back every integer `str` prints |
| Assembler.HexParses | _legacy/agents_tooling/asm_assembler.py:96-102 | `parse_number` reads back "0x" and lower-case hex digits, with or without '-' |
| Assembler.HexSigned | sdk/tooling/asm_assembler.py:96-102 | a hex literal parses as its value, and with '-' in front as the negation |
| Assembler.LabelNameShape | _legacy/agents_tooling/asm_assembler.py:118-121 | a label name is stripped, unsigned and not a number |
| Assembler.WordNotNumber | sdk/tooling/asm_assembler.py:118-121 | a token starting like a name skips both numeric tests |
| Assembler.EncodeWord | _legacy/agents_tooling/asm_assembler.py:125-144 | such a token is an expression on '+' first, then on '-', and otherwise a label lookup |
| Assembler.LabelOperand | sdk/tooling/asm_assembler.py:143-148 | a bound label is its offset; an unbound label-shaped name is an unknown-immediate error |
| Assembler.SignAfterLabel | _legacy/agents_tooling/asm_assembler.py:127 | in `label` + sign + digits, `split(op, 1)` cuts right after the label |
| Assembler.DigitsParse | sdk/tooling/asm_assembler.py:101 | every run of decimal digits parses |
| Assembler.EvalExprAt | _legacy/agents_tooling/asm_assembler.py:127-140 | with both sides defined the expression is their sum or difference |
| Assembler.EvalSidesOk | sdk/tooling/asm_assembler.py:138-140 | both sides defined: the sum or difference, left first |
| Assembler.WordToDigitStripped | _legacy/agents_tooling/asm_assembler.py:115 | a token from a word character to a digit strips to itself |
| Assembler.LabelSignDigits | sdk/tooling/asm_assembler.py:118-126 | `label` + sign + digits is neither numeric nor signed and holds '+' exactly when the sign is '+' |
| Assembler.LabelExpr | _legacy/agents_tooling/asm_assembler.py:127-140 | `label op d` evaluates to the label's offset plus or minus `d` |
| Assembler.LabelPart | sdk/tooling/asm_assembler.py:134-135 | a bound label as a side of an expression is its offset |
| Assembler.DigitsPart | _legacy/agents_tooling/asm_assembler.py:132-133 | decimal digits as a side of an expression are their value |
| Assembler.ExprOperand | sdk/tooling/asm_assembler.py:105-148 | `label+d` and `label-d` encode as the label's offset plus or minus `d` |
| Assembler.OffsetOperand | _legacy/agents_tooling/asm_assembler.py:105-148 | `label+n` and `label-n` written in decimal encode as the label's offset plus or minus n |
| Assembler.SplitIndex | sdk/tooling/asm_assembler.py:127 | `split(op, 1)` cuts within the token |
| Assembler.Emit | _legacy/agents_tooling/asm_assembler.py:154-162 | an emitted instruction is well-formed with `OPMAP`'s opcode, has an immediate exactly for `IMM_OPS`, and a missing operand is the `requires immediate` error |
| Assembler.Emitted | sdk/tooling/asm_assembler.py:153 | every line is emitted on its own, in order |
| Assembler.Collect | _legacy/agents_tooling/asm_assembler.py:153-163 | a successful second pass has one instruction per line |
| Assembler.CollectOk | sdk/tooling/asm_assembler.py:153-163 | the second pass succeeds exactly when every line does, and then gives each line's instruction |
| Assembler.CollectFirstError | _legacy/agents_tooling/asm_assembler.py:153-163 | a failing second pass reports the error of its first failing line |
| Assembler.CollectStep | sdk/tooling/asm_assembler.py:153-162 | one more line adds its instruction or error |
| Assembler.CollectSticks | _legacy/agents_tooling/asm_assembler.py:158-159 | once a line fails the second pass fails with it |
| Assembler.ProgramWellFormed | sdk/tooling/asm_assembler.py:151-163 | the emitted instructions are the lines', each well-formed and as wide as the first pass counted |
| Assembler.Assemble | _legacy/agents_tooling/asm_assembler.py:151-163 | the output is the encoding of the second pass's instructions, and the error that of its first failing line |
| Assembler.AssembleLine | sdk/tooling/asm_assembler.py:154-162 | one line's bytes: its opcode, then for an immediate op the operand mod 2^32 low byte first |
| Assembler.EmitFails | _legacy/agents_tooling/asm_assembler.py:157-159 | a failing line after lines that all emitted is the error of the pass |
| Assembler.EmitStep | sdk/tooling/asm_assembler.py:155-162 | a line that emits appends its encoding to the output so far |
| Assembler.AssembledDecodes | _legacy/agents_tooling/asm_assembler.py:151-163 | the output is as long as the first pass's final offset and decodes back to the instructions |
| Assembler.AssembledOpcode | sdk/tooling/asm_assembler.py:84-85 | each opcode byte sits at the offset the first pass recorded for its line |
| Assembler.AssembledOperand | _legacy/agents_tooling/asm_assembler.py:159-162 | after an immediate op come four bytes reading back as its operand mod 2^32 |
| Assembler.OperandAt | sdk/tooling/asm_assembler.py:159-162 | the operand bytes of the k-th instruction, wherever it starts |
| Assembler.EmitImm | _legacy/agents_tooling/asm_assembler.py:159 | an immediate op carries its operand modulo 2^32 |
| Assembler.AssembledOffsets | sdk/tooling/asm_assembler.py:85 | the first pass's final offset is the output's width |
| Assembler.PrefixOffsets | _legacy/agents_tooling/asm_assembler.py:84-85 | the width of the first k instructions is the recorded offset of the k-th, or the final offset |
| Schedule.Kept | tournament/scripts/btctl.py:250 | the kept names are no more than the comma-separated pieces |
| Schedule.StripKeepsOut | tournament/scripts/btctl.py:250 | stripping adds no character, so a comma-free piece stays comma-free |
| Schedule.StripTwice | tournament/scripts/btctl.py:250 | `strip` is idempotent |
| Schedule.KeptNames | tournament/scripts/btctl.py:250 | every kept piece is non-empty, stripped and comma-free |
| Schedule.ParsedPlayerNames | tournament/scripts/btctl.py:250 | every name `_parse_players` returns is non-empty, stripped and free of commas |
| Schedule.KeptNamesIdentity | tournament/scripts/btctl.py:250 | pieces that are already player names are all kept, unchanged |
| Schedule.ParsePlayersJoin | tournament/scripts/btctl.py:250 | `_parse_players` reads back exactly the names a comma-joined player list was made of |
| Schedule.Range | tournament/scripts/btctl.py:253 | `range(lo, hi)` is the `hi - lo` consecutive integers from `lo`, empty when `hi <= lo` |
| Schedule.ShowIntChars | tournament/scripts/btctl.py:252-253 | a printed integer holds only digits and '-', so no ".." or ',' |
| Schedule.SeedRange | tournament/scripts/btctl.py:251-253 | `lo..hi` parses as the ascending inclusive range from `lo` to `hi`, empty when `hi < lo` |
| Schedule.SplitRange | tournament/scripts/btctl.py:253 | two pieces free of '.' joined by ".." split back into those two |
| Schedule.ShowSeeds | tournament/scripts/btctl.py:254 | one printed seed per seed, in order |
| Schedule.IntsShown | tournament/scripts/btctl.py:254 | `int` reads back every printed seed of a list |
| Schedule.SeedList | tournament/scripts/btctl.py:251-254 | a comma-separated seed list parses back to those seeds, in order |
| Schedule.NormalizePlayer | tournament/scripts/btctl.py:66-70 | a built custom agent runs as its blob through the runner; any other name is the built-in of that name |
| Schedule.SideOfTag | tournament/scripts/btctl.py:134 | `write_match_csv` puts a game on side B exactly when it is the swapped game of its pair |
| Schedule.TagNamesSplit | tournament/scripts/btctl.py:146-148 | reading names out of a tag fails exactly when it lacks "__vs__", and is otherwise the two `split` expressions |
| Schedule.SuffixLacksV | tournament/scripts/btctl.py:76 | the seed and side after "__seed-" hold no 'v' |
| Schedule.VsInRest | tournament/scripts/btctl.py:148 | after the second name "__vs__" occurs only inside that name and "__seed-" |
| Schedule.CutShort | tournament/scripts/btctl.py:148 | an early "__vs__" cuts the second name short |
| Schedule.FirstNameBack | tournament/scripts/btctl.py:147 | the first name comes back exactly when "__vs__" does not start inside it |
| Schedule.SecondNameBack | tournament/scripts/btctl.py:148 | the second name comes back when neither separator starts inside it |
| Schedule.TagNamesBack | tournament/scripts/btctl.py:146-148 | a tag splits back into its two names exactly when they are separable |
| Schedule.TagRoundTrip | tournament/scripts/btctl.py:76 | the tag of a game gives back its two players' names exactly when the names are separable |
| Schedule.MisreadTag | tournament/scripts/btctl.py:146-148 | names free of both separators are not enough: slot A named `x__vs` against `y` reads back as "x" against "vs__y" |
| Schedule.MisreadSeparable | tournament/scripts/btctl.py:147-148 | "x" and "vs__y" are names a tag does give back |
| Schedule.PairTasks | tournament/scripts/btctl.py:198-200 | a balanced pair is two games per seed |
| Schedule.PairTasksAt | tournament/scripts/btctl.py:198-200 | for each seed in turn, `a` in slot A and then the swapped game with `b` in slot A |
| Schedule.BalancedPair | tournament/scripts/btctl.py:194-201 | the loop runs exactly the games of a position-balanced pair, in order |
| Schedule.MulIsProduct | tournament/scripts/btctl.py:205-208 | counting games in whole pair blocks is multiplication |
| Schedule.RowLength | tournament/scripts/btctl.py:206-208 | a row of the round robin holds two games per seed for each later player |
| Schedule.RoundRobin | tournament/scripts/btctl.py:203-209 | the nested loop runs exactly the round robin's games, in order |
| Schedule.RowStep | tournament/scripts/btctl.py:206-208 | a row grows by the balanced pair of its next opponent |
| Schedule.PairsBeforeAll | tournament/scripts/btctl.py:205-206 | the first `i` rows hold `i(2n - i - 1)/2` pairs |
| Schedule.PairsBeforeGrows | tournament/scripts/btctl.py:205-206 | a later row starts after every pair of an earlier one |
| Schedule.PairIndexOrdered | tournament/scripts/btctl.py:205-207 | pairs are played in player order: by first player, then by second |
| Schedule.RowsLength | tournament/scripts/btctl.py:205-208 | the first `i` rows hold two games per seed and pair |
| Schedule.RoundRobinCount | tournament/scripts/btctl.py:203-209 | the round robin plays `2 * seeds * C(n, 2)` games |
| Schedule.RowPrefix | tournament/scripts/btctl.py:206-208 | a row's games so far are a prefix of the whole row |
| Schedule.RowsPrefix | tournament/scripts/btctl.py:205-208 | the games of the first rows are a prefix of the later rows' |
| Schedule.RoundRobinOrder | tournament/scripts/btctl.py:203-209 | the games of pair `(i, j)` come as one block of `2s` right after every pair before it in player order |
| Schedule.EarlierLength | tournament/scripts/btctl.py:203-209 | pair `(i, j)`'s block starts at `2s` times its rank among the pairs |
| Leaderboard.ParseSummary | tournament/scripts/btctl.py:110-125 | an unreadable or undecodable file is the empty dictionary; a decoded non-object fails at `get`; an object always gives a summary |
| Leaderboard.SummaryRoundTrip | tournament/scripts/btctl.py:115-125 | a summary the engine wrote reads back field for field |
| Leaderboard.SummaryDefaults | tournament/scripts/btctl.py:116-124 | every missing field reads as its default: no winner, zero counts and scores, no seed |
| Leaderboard.AliveFallback | tournament/scripts/btctl.py:120-121 | the survival counts fall back to `A_alive`/`B_alive`, then to 0 |
| Leaderboard.WriteMatchCsv | tournament/scripts/btctl.py:127-137 | the loop writes the rows of the match table in run order, or fails as the table does |
| Leaderboard.MatchRowsStop | tournament/scripts/btctl.py:132 | once a summary is a non-object the table fails there, whatever follows |
| Leaderboard.MatchRowsCount | tournament/scripts/btctl.py:131-137 | the table is written exactly when no summary is a non-object JSON value, with one row per readable summary, unreadable ones skipped |
| Leaderboard.RowSide | tournament/scripts/btctl.py:134-136 | a game's row is on side "B" exactly when it is the swapped game of its pair, and carries `seed-` and the recorded seed |
| Leaderboard.Credit | tournament/scripts/btctl.py:154-166 | adding to an agent of the `defaultdict` keeps each agent listed once |
| Leaderboard.Record | tournament/scripts/btctl.py:154-166 | one game's update keeps each agent listed once |
| Leaderboard.Fold | tournament/scripts/btctl.py:144-166 | the counters after any games list each agent once |
| Leaderboard.Results | tournament/scripts/btctl.py:144-152 | each summary is read on its own, in order |
| Leaderboard.Collect | tournament/scripts/btctl.py:144-166 | a successful tally has one game per summary |
| Leaderboard.CollectStop | tournament/scripts/btctl.py:145-152 | the first summary that raises ends the report with its exception |
| Leaderboard.Add | tournament/scripts/btctl.py:154-166 | one agent's in-place counter updates are crediting it on the board |
| Leaderboard.AggregateLeaderboard | tournament/scripts/btctl.py:139-166 | the loop leaves the counters `Aggregate` describes, or its failure, including the early return without summaries |
| Leaderboard.FoldShares | tournament/scripts/btctl.py:154-166 | each agent's counters are the sum over the games of its shares |
| Leaderboard.PlusShare | tournament/scripts/btctl.py:154-166 | a game's share is its slot A part and then its slot B part |
| Leaderboard.CreditStats | tournament/scripts/btctl.py:154-166 | crediting one agent leaves every other agent's counters alone |
| Leaderboard.StandingBalanced | tournament/scripts/btctl.py:154-160 | each game an agent played counts once as a win, a loss or a tie, and its games are the slots it played |
| Leaderboard.SharesBalanced | tournament/scripts/btctl.py:154-160 | summed shares count one win, loss or tie per slot played |
| Leaderboard.ShareBalanced | tournament/scripts/btctl.py:154-160 | a game credits an agent one win, loss or tie per slot it played |
| Leaderboard.TotalIgnores | tournament/scripts/btctl.py:169 | an entry not listed takes no part in the sum over the board |
| Leaderboard.TotalUpdate | tournament/scripts/btctl.py:154-166 | adding to a listed agent adds to the sum |
| Leaderboard.CreditTotal | tournament/scripts/btctl.py:154-166 | crediting an agent adds the credit to the sum over the board |
| Leaderboard.TotalSnoc | tournament/scripts/btctl.py:143 | a new agent adds its counters to the sum |
| Leaderboard.FoldTotal | tournament/scripts/btctl.py:144-166 | the sum over the board is what the games added |
| Leaderboard.BothBalanced | tournament/scripts/btctl.py:155-164 | each game is a win and a loss or two ties, and its score and territory differences cancel |
| Leaderboard.LeaderboardZeroSum | tournament/scripts/btctl.py:139-166 | over the whole board wins equal losses, score and territory differences sum to zero, and there are two agent-games per summary |
| Leaderboard.CreditsTaskPlayers | tournament/scripts/btctl.py:146-166 | a scheduled game whose tag reads back is credited to the players of its `Task` record, so the swapped game credits each agent its own score |
| Leaderboard.GamesComplete | tournament/scripts/btctl.py:144-166 | with every summary an object with integer fields and every tag naming two agents, no run raises |
| Leaderboard.CollectComplete | tournament/scripts/btctl.py:144-166 | the tally fails only where a summary fails |
| Bracket.SeriesTasks | tournament/scripts/btctl.py:225-228 | a series plays two games per pair, and fails with `ZeroDivisionError` exactly when it has pairs to play and no seeds |
| Bracket.SeriesTasksAt | tournament/scripts/btctl.py:225-227 | pair `j` plays `A` in slot A and then `B` in slot A, on `seeds[j % len(seeds)]` |
| Bracket.TagsOfSnoc | tournament/scripts/btctl.py:231 | one more game adds its tag to the series directory |
| Bracket.InTagsOf | tournament/scripts/btctl.py:231 | every game played leaves its run directory in the series directory |
| Bracket.DistinctTags | tournament/scripts/btctl.py:227-231 | the tally sees every tag played exactly once, even when a repeated seed replays a game |
| Bracket.DeltasAt | tournament/scripts/btctl.py:231-243 | each run directory adds its own contribution |
| Bracket.WinnerIsMax | tournament/scripts/btctl.py:244 | the series winner is one of the two players with the larger `(wins, score)` key, and on equal keys the first player |
| Bracket.SeriesOf | tournament/scripts/btctl.py:220-245 | a finished series is won by one of its players after two games per pair |
| Bracket.SeriesFnApply | tournament/scripts/btctl.py:220-245 | the series function is the series of the two players given |
| Bracket.SeriesFair | tournament/scripts/btctl.py:220-245 | every series of `single_elim` that finishes is won by one of its players and plays the same number of games |
| Bracket.RoundOf | tournament/scripts/btctl.py:216-219 | a finished round sends on half its players, rounded up |
| Bracket.RoundRuns | tournament/scripts/btctl.py:217-228 | a round plays `len(bracket) // 2` series |
| Bracket.RoundMembers | tournament/scripts/btctl.py:217-245 | the `k`-th player sent on is one of the `k`-th pair, or the unpaired last player |
| Bracket.RoundStop | tournament/scripts/btctl.py:217-245 | once a series fails the round fails with it |
| Bracket.ElimChampion | tournament/scripts/btctl.py:215-247 | a non-empty bracket ends with one player left, who entered it |
| Bracket.ElimRuns | tournament/scripts/btctl.py:215-247 | `n >= 1` players play `n - 1` series, since each eliminates one player |
| Bracket.Halves | tournament/scripts/btctl.py:217-219 | a round's series and the players it sends on account for all its players |
| Bracket.RoundFails | tournament/scripts/btctl.py:217-245 | when every series fails with the same error, so does the first round |
| Bracket.NoSeedsFails | tournament/scripts/btctl.py:225-226 | with no seeds and `best_of >= 1`, a bracket of two or more raises `ZeroDivisionError` |
| Bracket.RoundCompletes | tournament/scripts/btctl.py:217-245 | when every series finishes, so does the round |
| Bracket.ElimCompletes | tournament/scripts/btctl.py:215-247 | when every series finishes, so does the bracket |
| Bracket.TagHasVs | tournament/scripts/btctl.py:233-235 | every tag holds "__vs__", so the tally never raises `IndexError` on it |
| Bracket.CleanDelta | tournament/scripts/btctl.py:231-243 | a summary with integer scores is always tallied |
| Bracket.TotalComplete | tournament/scripts/btctl.py:231-243 | the tally fails only where a summary fails |
| Bracket.CleanElimCompletes | tournament/scripts/btctl.py:211-248 | with seeds to play and readable summaries the bracket runs to the end |
| Bracket.SwappedGameCountsForB | tournament/scripts/btctl.py:240-243 | in the swapped game a win of the engine's slot A counts for the series' `B`, with slot A's score |
| Bracket.StraightGameCountsForA | tournament/scripts/btctl.py:236-239 | in the unswapped game a win of slot A counts for the series' `A` |
| Bracket.DistinctSnocKnown | tournament/scripts/btctl.py:221-227 | a replayed game adds no new run directory |
| Bracket.DistinctSnocNew | tournament/scripts/btctl.py:221-227 | a game with a new tag adds its directory |
| Bracket.PairTagsDiffer | tournament/scripts/btctl.py:76 | the two games of a pair write to different run directories |
| Bracket.OneSeedOnePair | tournament/scripts/btctl.py:225-231 | with one seed, any series tallies just two games: the replays overwrite the same directories |
| Bracket.PlaySeries | tournament/scripts/btctl.py:220-245 | the loops of one series give the games and winner `SeriesOf` describes, or its error |
| Bracket.PlayPairs | tournament/scripts/btctl.py:225-228 | the pairs loop plays exactly the series' games in order, or raises `ZeroDivisionError` on its first pass when there are no seeds |
| Bracket.Tally | tournament/scripts/btctl.py:231-243 | the tally loop sums the contributions of the run directories in order, or stops with the first exception |
| Bracket.TotalStop | tournament/scripts/btctl.py:231-243 | once a summary fails the tally fails with it |
| Bracket.RoundPairStep | tournament/scripts/btctl.py:220-245 | a pair adds its series' games and winner to the round |
| Bracket.RoundLastStep | tournament/scripts/btctl.py:218-219 | an odd player out goes on unplayed |
| Bracket.PlayRound | tournament/scripts/btctl.py:216-246 | the loop of one round gives the games and players `RoundOf` describes, or its error |
| Bracket.SingleElim | tournament/scripts/btctl.py:211-248 | the rounds loop returns the games of the whole bracket, or the error of its first failing series |
| AgentMeta.CutLines | engine/src/battle_engine/agents.py:37-40 | one cut line per line of the file |
| AgentMeta.ReadJsonLike | engine/src/battle_engine/agents.py:28-46 | the reader's line loop, join, comma clean-up and decode give exactly what `JsonLike` says: fields, or the failure's cause |
| AgentMeta.BeforeLacks | engine/src/battle_engine/agents.py:38-39 | `split(sep, 1)[0]` holds no `sep` |
| AgentMeta.BeforeIsPrefix | engine/src/battle_engine/agents.py:38-39 | `split(sep, 1)[0]` is a prefix of the line |
| AgentMeta.CommentsCut | engine/src/battle_engine/agents.py:37-40 | a cut line is a prefix of the line holding neither "//" nor "#" |
| AgentMeta.PlainLineKept | engine/src/battle_engine/agents.py:38-39 | a line without comment markers is kept whole |
| AgentMeta.UncommaDeletesCommas | engine/src/battle_engine/agents.py:42 | the trailing-comma clean-up only deletes commas; every other character survives in order |
| AgentMeta.UncommaNoComma | engine/src/battle_engine/agents.py:42 | text without commas is left alone |
| AgentMeta.JoinBlank | engine/src/battle_engine/agents.py:41 | blank lines joined by newlines are blank text |
| AgentMeta.CommentsOnlyIsEmpty | engine/src/battle_engine/agents.py:37-43 | a file of comments and blank lines reads as the empty object, whatever the decoder does |
| AgentMeta.JsonLikeOutcome | engine/src/battle_engine/agents.py:43-46 | a read succeeds exactly for blank text or a decoded object, and otherwise fails with `DecodeError` exactly when decoding fails and `NotAnObject` exactly when the value is not an object |
| AgentMeta.Defaults | engine/src/battle_engine/agents.py:66-70 | `defaults` is refused exactly when present and not an object; otherwise it is that object, or empty when absent |
| AgentMeta.Meta | engine/src/battle_engine/agents.py:60-64 | any failure of reading `agent.yaml` is a `SystemExit` carrying its cause |
| AgentMeta.SpecFromDir | engine/src/battle_engine/agents.py:49-80 | no spec for a non-folder or a folder with neither file; a spec named after its folder with the blob when `model.blob` exists; an `agent.py`-only folder shows its name with no defaults; failures only from `agent.yaml` |
| AgentMeta.DisplayPrecedence | engine/src/battle_engine/agents.py:65 | a truthy "display" wins over a truthy "name", which wins over the folder name |
| AgentMeta.DisplayNonEmpty | engine/src/battle_engine/agents.py:65 | the display name is never empty when the folder name is not |
| AgentMeta.SpecFromYaml | engine/src/battle_engine/agents.py:60-80 | with a readable `agent.yaml` the spec carries its display rule and `defaults` object, and fails only on bad `defaults` |
| AgentMeta.SpecFromBadYaml | engine/src/battle_engine/agents.py:61-64 | a failed read of `agent.yaml` stops the lookup with its cause |
| AgentMeta.BelowAsymmetric | engine/src/battle_engine/agents.py:88 | Python string order is asymmetric |
| AgentMeta.BelowTotal | engine/src/battle_engine/agents.py:88 | of two different names one is below the other |
| AgentMeta.BelowTrans | engine/src/battle_engine/agents.py:88 | Python string order is transitive |
| AgentMeta.Insert | engine/src/battle_engine/agents.py:88 | inserting adds exactly the one name and starts with it or the old first name |
| AgentMeta.Sort | engine/src/battle_engine/agents.py:88 | sorting keeps the same names |
| AgentMeta.InsertAscending | engine/src/battle_engine/agents.py:88 | inserting into an ascending list keeps it ascending |
| AgentMeta.SortAscending | engine/src/battle_engine/agents.py:88 | `sorted` returns the same names in ascending order |
| AgentMeta.AscendingStrict | engine/src/battle_engine/agents.py:88 | distinct ascending names are in strict order |
| AgentMeta.DiscoveredStop | engine/src/battle_engine/agents.py:88-93 | a folder that fails stops discovery with its failure |
| AgentMeta.DiscoverAgents | engine/src/battle_engine/agents.py:83-94 | the loop returns the specs `DiscoverOf` describes (none when `agents` is missing, its entries visited in sorted order), or the first failure |
| AgentMeta.DiscoveredAt | engine/src/battle_engine/agents.py:88-93 | a name is a key of the result exactly when it was visited, is a folder and yields a spec, and its entry is that spec |
| AgentMeta.DiscoveredOk | engine/src/battle_engine/agents.py:88-93 | in a discovery that succeeded every visited folder yielded a spec or nothing |
| AgentMeta.ResolveAgent | engine/src/battle_engine/agents.py:97-106 | a blank name is refused; a resolved agent has that name and lives in the folder of that name |
| AgentMeta.ResolveAgreesWithDiscover | engine/src/battle_engine/agents.py:83-106 | resolving a listed name succeeds exactly when discovery found it, with the same spec |
| AgentMeta.ResolveMissing | engine/src/battle_engine/agents.py:100-105 | a name that is not a folder is an unknown agent |
| Text.StripEnds | tournament/scripts/btctl.py:250 | `strip` leaves no white space at either end, and leaves a string without any alone |
| Text.Split | tournament/scripts/btctl.py:147-148 | `split` gives at least one piece, the first being the text before the first separator |
| Text.SplitPiecesLackSeparator | tournament/scripts/btctl.py:250 | no piece `split` returns holds the separator |
| Text.JoinSplit | tournament/scripts/btctl.py:250 | joining the pieces of a `split` with its separator gives the string back |
| Text.SplitJoin | tournament/scripts/btctl.py:250 | splitting a join gives the parts back when none holds the separator's first character |
| Text.SplitLines | engine/src/battle_engine/agents.py:37 | `splitlines` gives lines free of line breaks, and none exactly for the empty text |
| Text.PyIntShowInt | tournament/scripts/btctl.py:253-254 | `int(str(n))` is `n` |
| Text.PyIntShowHex | sdk/tooling/asm_assembler.py:98-99 | `int("0x" + hex digits, 16)` is their value |

## Left out

- Unicode: white space, `isdigit`, `lower` and `upper` are modelled on Latin-1 white space and ASCII letters and digits; Python's full Unicode tables are not modelled.
- Machine.VM.Wr8: requires a non-empty arena; with `arena_size == 0` the source raises `ZeroDivisionError` at `pos % size`, which is not modelled.
- Machine.VM.LoadCode: requires a non-empty arena, for the same `ZeroDivisionError`.
- Machine.VM.Step: requires a non-empty arena, for the same `ZeroDivisionError`.
- Engine.Kernel.Spawn: requires a positive `arena_size`, for the same `ZeroDivisionError`.
- `Config.from_dict`, the `Config.seed` field and the `random.Random` it seeds: nothing in the core draws from the generator, and `int()` over a JSON dictionary is input handling.
- `JSONLSink`, `_snapshot`, the replay header, the verbose per-tick line and the renderer hooks: telemetry and I/O, with no effect on the match state.
- The summary dictionary `run` builds and writes to `summary.json`: its territory averages and percentages are floating point and the file write is I/O. The winner it carries is modelled.
- `main` of the assembler (argument parsing, file reading, size check and blob writing): command-line I/O.
- `main` of the controller, `load_roster`, `build_customs`, `_find_build_sh` and `_battle_cmd`: command-line handling, the environment, files and subprocesses.
- Schedule.BalancedPair: `run_game` launches the engine as a subprocess and writes `agents.json`; a game is modelled as the `Task` record of the call, and the outcome as the `summary.json` it leaves (a parameter of the bracket).
- Leaderboard.AggregateLeaderboard: the `winrate` and average columns, their sort and the CSV and Markdown writing are floating point and I/O; the integer counters they are computed from are modelled.
- Leaderboard.ParseSummary: JSON booleans and floats in a summary are not modelled; a field is an integer, a string or `null`.
- The order in which `rglob` yields summaries is modelled as the order of the given runs.
- Bracket.PlaySeries: the series directory name (`elim_r{rnd}_{A}_vs_{B}`) and any run directories left in it from earlier runs are not modelled; the tally sees exactly the games the series played.
- AgentMeta.ResolveAgent: the name is treated as a single folder name; `Path.resolve()`, `..` and `/` inside the name are not modelled.
- AgentMeta.ReadJsonLike: `json.loads` and reading the file as UTF-8 are parameters; the decoder itself is not modelled.
- AgentMeta.DiscoverAgents: the file system (`exists`, `iterdir`, `is_dir`, reading `agent.yaml`) is a parameter, and `sorted()` on paths is modelled as code-point order of the folder names by an insertion sort.
- `app/services/agents.py` is not part of this model.
