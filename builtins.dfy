/** The built-in agents: fixed byte programs joined from `enc` calls, and the
    case-insensitive dispatcher `build_agent` that fills in their defaults.
    Each program is written as the list of its `enc` calls; the bytes are
    `b"".join` of their encodings. */
module Builtins {
  import opened Wrappers
  import opened Isa
  import Text

  /** The names `build_agent` accepts, after lower-casing. */
  const Supported: seq<string> := ["runner", "writer", "bomber", "flooder", "spiral", "seeker"]

  /** The bytes of a list of `enc` calls, joined. */
  function Assemble(calls: seq<EncCall>): seq<byte> {
    JoinBytes(EncEach(calls))
  }

  /** NOP; ADD 1; JZ start; JMP start+1 */
  function RunnerCalls(start: int): (r: seq<EncCall>)
    ensures AllValid(r)
  {
    [EncCall(NOP, None), EncCall(ADD, Some(1)), EncCall(JZ, Some(start)), EncCall(JMP, Some(start + 1))]
  }

  /** MOV byte; STORE start+offset; JMP start */
  function WriterCalls(start: int, offset: int, byteVal: int): (r: seq<EncCall>)
    ensures AllValid(r)
  {
    [EncCall(MOV, Some(byteVal)), EncCall(STORE, Some(start + offset)), EncCall(JMP, Some(start))]
  }

  /** MOV byte; MOVP ptr; loop: STOREI; ADDP stride; JMP loop, with loop at
      start+10. */
  function BomberCalls(start: int, ptr: int, stride: int, byteVal: int): (r: seq<EncCall>)
    ensures AllValid(r)
  {
    var loop := start + 10;
    [EncCall(MOV, Some(byteVal)), EncCall(MOVP, Some(ptr)), EncCall(STOREI, None),
     EncCall(ADDP, Some(stride)), EncCall(JMP, Some(loop))]
  }

  /** `max(1, writes_per_loop)` */
  function FlooderCopies(writesPerLoop: int): nat {
    if writesPerLoop < 1 then 1 else writesPerLoop
  }

  /** MOV byte; MOVP ptr; then max(1, writes) unrolled copies of STOREI;
      ADDP 1; then JMP start+10. */
  function FlooderCalls(start: int, ptr: int, byteVal: int, writesPerLoop: int): seq<EncCall> {
    [EncCall(MOV, Some(byteVal)), EncCall(MOVP, Some(ptr))]
    + Repeat(FlooderCopies(writesPerLoop), [EncCall(STOREI, None), EncCall(ADDP, Some(1))])
    + [EncCall(JMP, Some(start + 10))]
  }

  /** Twelve instructions; the loop starts at start+15, after three 5-byte
      ones. */
  function SpiralCalls(start: int, ptr: int, step: int, delta: int, byteVal: int): (r: seq<EncCall>)
    ensures AllValid(r)
  {
    var loop := start + 15;
    [EncCall(MOV, Some(byteVal)), EncCall(MOVP, Some(ptr)), EncCall(ADD, Some(step)),
     EncCall(STOREI, None), EncCall(MOV, Some(byteVal)), EncCall(STOREI, None),
     EncCall(ADD, Some(step)), EncCall(ADDP, Some(step)), EncCall(MOV, Some(step)),
     EncCall(ADD, Some(delta)), EncCall(ADD, Some(0)), EncCall(JMP, Some(loop))]
  }

  /** The seeker scans from `ptrStart` for `targetByte` (compared by adding its
      negation, masked to 32 bits) and jumps to start+10 and start+20, as
      written. */
  function SeekerCalls(start: int, ptrStart: int, targetByte: int, attackStride: int,
                       byteVal: int): (r: seq<EncCall>)
    ensures AllValid(r)
  {
    var lblLoop := start + 10;
    var lblFound := lblLoop + 10;
    [EncCall(MOVP, Some(ptrStart)), EncCall(LOADI, None),
     EncCall(ADD, Some(Mask32(-targetByte))), EncCall(JZ, Some(lblFound)),
     EncCall(ADDP, Some(1)), EncCall(JMP, Some(lblLoop)), EncCall(MOV, Some(byteVal)),
     EncCall(STOREI, None), EncCall(ADDP, Some(attackStride)), EncCall(JMP, Some(lblLoop))]
  }

  function AssembleRunner(start: int): seq<byte> {
    Assemble(RunnerCalls(start))
  }

  function AssembleWriter(start: int, offset: int, byteVal: int): seq<byte> {
    Assemble(WriterCalls(start, offset, byteVal))
  }

  function AssembleBomber(start: int, ptr: int, stride: int, byteVal: int): seq<byte> {
    Assemble(BomberCalls(start, ptr, stride, byteVal))
  }

  function AssembleFlooder(start: int, ptr: int, byteVal: int, writesPerLoop: int): seq<byte> {
    Assemble(FlooderCalls(start, ptr, byteVal, writesPerLoop))
  }

  function AssembleSpiral(start: int, ptr: int, step: int, delta: int, byteVal: int): seq<byte> {
    Assemble(SpiralCalls(start, ptr, step, delta, byteVal))
  }

  function AssembleSeeker(start: int, ptrStart: int, targetByte: int, attackStride: int,
                          byteVal: int): seq<byte> {
    Assemble(SeekerCalls(start, ptrStart, targetByte, attackStride, byteVal))
  }

  // ---------------------------------------------------------------------------
  // Decoding the programs

  predicate AllValid(calls: seq<EncCall>) {
    forall k :: 0 <= k < |calls| ==> ValidCall(calls[k])
  }

  /** Decoding with the width table consumes `code` exactly, and every opcode
      it meets is in 0..11. */
  predicate DecodesCleanly(code: seq<byte>) {
    Decode(code).Ok?
    && (forall k :: 0 <= k < |Decode(code).value| ==> IsOpcode(Decode(code).value[k].op))
    && Footprint(Decode(code).value) == |code|
  }

  /** A program made of valid `enc` calls decodes back to the instructions
      those calls stand for, and so decodes cleanly. */
  lemma AssembleDecodes(calls: seq<EncCall>)
    requires AllValid(calls)
    ensures Decode(Assemble(calls)) == Ok(InstrsOf(calls))
    ensures |Assemble(calls)| == Footprint(InstrsOf(calls))
    ensures DecodesCleanly(Assemble(calls))
  {
    JoinEncEach(calls);
  }

  /** Where each instruction of `prog` starts. */
  predicate IsBoundary(prog: seq<Instr>, offset: int) {
    exists k :: 0 <= k < |prog| && Footprint(prog[..k]) == offset
  }

  /** The runner decodes to NOP; ADD 1; JZ start; JMP start+1, is 16 bytes
      long, and its JMP goes back to the ADD, at offset 1 (modulo 2^32). */
  lemma RunnerLayout(start: int)
    ensures var prog := InstrsOf(RunnerCalls(start));
            Decode(AssembleRunner(start)) == Ok(prog)
            && |AssembleRunner(start)| == 16
            && prog[1] == Instr(ADD, Some(1)) && prog[3].op == JMP
            && prog[3].imm == Some(Mask32(start + Footprint(prog[..1])))
  {
    var prog := InstrsOf(RunnerCalls(start));
    AssembleDecodes(RunnerCalls(start));
    RunningOffsets(prog, [0, 1, 6, 11, 16], 4);
    RunningOffsets(prog, [0, 1, 6, 11, 16], 1);
    assert prog[..4] == prog;
  }

  /** The writer decodes to MOV byte; STORE start+offset; JMP start, is 15
      bytes long, and jumps back to its own first byte. */
  lemma WriterLayout(start: int, offset: int, byteVal: int)
    ensures var prog := InstrsOf(WriterCalls(start, offset, byteVal));
            Decode(AssembleWriter(start, offset, byteVal)) == Ok(prog)
            && |AssembleWriter(start, offset, byteVal)| == 15
            && prog[0] == Instr(MOV, Some(Mask32(byteVal)))
            && prog[1] == Instr(STORE, Some(Mask32(start + offset)))
            && prog[2] == Instr(JMP, Some(Mask32(start)))
  {
    var prog := InstrsOf(WriterCalls(start, offset, byteVal));
    AssembleDecodes(WriterCalls(start, offset, byteVal));
    RunningOffsets(prog, [0, 5, 10, 15], 3);
    assert prog[..3] == prog;
  }

  /** The bomber decodes cleanly, is 21 bytes long, and its JMP goes to
      start+10, where its STOREI sits. */
  lemma BomberLayout(start: int, ptr: int, stride: int, byteVal: int)
    ensures var prog := InstrsOf(BomberCalls(start, ptr, stride, byteVal));
            Decode(AssembleBomber(start, ptr, stride, byteVal)) == Ok(prog)
            && |AssembleBomber(start, ptr, stride, byteVal)| == 21
            && prog[2].op == STOREI && Footprint(prog[..2]) == 10
            && prog[4].op == JMP && prog[4].imm == Some(Mask32(start + Footprint(prog[..2])))
  {
    var prog := InstrsOf(BomberCalls(start, ptr, stride, byteVal));
    AssembleDecodes(BomberCalls(start, ptr, stride, byteVal));
    RunningOffsets(prog, [0, 5, 10, 11, 16, 21], 5);
    RunningOffsets(prog, [0, 5, 10, 11, 16, 21], 2);
    assert prog[..5] == prog;
  }

  lemma {:induction false} RepeatBlock(n: nat, block: seq<EncCall>)
    requires AllValid(block)
    requires Footprint(InstrsOf(block)) == 6
    ensures AllValid(Repeat(n, block))
    ensures Footprint(InstrsOf(Repeat(n, block))) == 6 * n
  {
    if n > 0 {
      RepeatBlock(n - 1, block);
      EncEachAppend(block, Repeat(n - 1, block));
      EncAllAppend(InstrsOf(block), InstrsOf(Repeat(n - 1, block)));
    }
  }

  lemma {:induction false} RepeatLength<T>(n: nat, block: seq<T>)
    requires |block| == 2
    ensures |Repeat(n, block)| == 2 * n
  {
    if n > 0 {
      RepeatLength(n - 1, block);
    }
  }

  /** STOREI; ADDP 1 is valid and takes 6 bytes. */
  lemma FloodBlock(block: seq<EncCall>)
    requires block == [EncCall(STOREI, None), EncCall(ADDP, Some(1))]
    ensures AllValid(block) && Footprint(InstrsOf(block)) == 6
  {
    RunningOffsets(InstrsOf(block), [0, 1, 6], 2);
    assert InstrsOf(block)[..2] == InstrsOf(block);
  }

  /** Every `enc` call of the flooder passes an immediate exactly when its
      opcode takes one. */
  lemma FlooderValid(start: int, ptr: int, byteVal: int, writesPerLoop: int)
    ensures AllValid(FlooderCalls(start, ptr, byteVal, writesPerLoop))
  {
    var copies := FlooderCopies(writesPerLoop);
    var block := [EncCall(STOREI, None), EncCall(ADDP, Some(1))];
    var calls := FlooderCalls(start, ptr, byteVal, writesPerLoop);
    FloodBlock(block);
    RepeatBlock(copies, block);
    forall k | 0 <= k < |calls| ensures ValidCall(calls[k]) {
      if 2 <= k < |calls| - 1 {
        assert calls[k] == Repeat(copies, block)[k - 2];
      }
    }
  }

  /** The flooder's instructions: 3 + 2 * max(1, writes) of them, taking
      10 + 6 * max(1, writes) + 5 bytes, with a STOREI at offset 10 and a
      JMP to start+10 last. */
  lemma FlooderShape(start: int, ptr: int, byteVal: int, writesPerLoop: int)
    ensures var prog := InstrsOf(FlooderCalls(start, ptr, byteVal, writesPerLoop));
            Footprint(prog) == 10 + 6 * FlooderCopies(writesPerLoop) + 5
            && |prog| == 3 + 2 * FlooderCopies(writesPerLoop)
            && prog[2].op == STOREI && Footprint(prog[..2]) == 10
            && prog[|prog| - 1] == Instr(JMP, Some(Mask32(start + 10)))
  {
    var copies := FlooderCopies(writesPerLoop);
    var head := [EncCall(MOV, Some(byteVal)), EncCall(MOVP, Some(ptr))];
    var block := [EncCall(STOREI, None), EncCall(ADDP, Some(1))];
    var tail := [EncCall(JMP, Some(start + 10))];
    var calls := FlooderCalls(start, ptr, byteVal, writesPerLoop);
    var prog := InstrsOf(calls);
    assert Footprint(InstrsOf(head)) == 10 by {
      RunningOffsets(InstrsOf(head), [0, 5, 10], 2);
      assert InstrsOf(head)[..2] == InstrsOf(head);
    }
    FloodBlock(block);
    assert Footprint(InstrsOf(tail)) == 5 by {
      RunningOffsets(InstrsOf(tail), [0, 5], 1);
      assert InstrsOf(tail)[..1] == InstrsOf(tail);
    }
    RepeatBlock(copies, block);
    RepeatLength(copies, block);
    EncEachAppend(head, Repeat(copies, block));
    EncEachAppend(head + Repeat(copies, block), tail);
    EncAllAppend(InstrsOf(head), InstrsOf(Repeat(copies, block)));
    EncAllAppend(InstrsOf(head + Repeat(copies, block)), InstrsOf(tail));
    assert prog[..2] == InstrsOf(head);
    assert calls[2] == Repeat(copies, block)[0] == block[0];
  }

  /** The flooder decodes cleanly to MOV; MOVP; max(1, writes) copies of
      STOREI; ADDP 1; JMP start+10. It is 10 + 6 * max(1, writes) + 5 bytes
      long, and start+10 is where its first STOREI sits. */
  lemma FlooderLayout(start: int, ptr: int, byteVal: int, writesPerLoop: int)
    ensures var prog := InstrsOf(FlooderCalls(start, ptr, byteVal, writesPerLoop));
            AllValid(FlooderCalls(start, ptr, byteVal, writesPerLoop))
            && Decode(AssembleFlooder(start, ptr, byteVal, writesPerLoop)) == Ok(prog)
            && |AssembleFlooder(start, ptr, byteVal, writesPerLoop)| == 10 + 6 * FlooderCopies(writesPerLoop) + 5
            && |prog| == 3 + 2 * FlooderCopies(writesPerLoop)
            && prog[2].op == STOREI && Footprint(prog[..2]) == 10
            && prog[|prog| - 1].op == JMP
            && prog[|prog| - 1].imm == Some(Mask32(start + Footprint(prog[..2])))
  {
    FlooderValid(start, ptr, byteVal, writesPerLoop);
    FlooderShape(start, ptr, byteVal, writesPerLoop);
    AssembleDecodes(FlooderCalls(start, ptr, byteVal, writesPerLoop));
  }

  /** The spiral's instructions take 52 bytes, the first three 15. */
  lemma SpiralOffsets(prog: seq<Instr>)
    requires |prog| == 12
    requires forall j :: 0 <= j < 12 ==> prog[j].op == [MOV, MOVP, ADD, STOREI, MOV, STOREI, ADD, ADDP, MOV, ADD, ADD, JMP][j]
    ensures Footprint(prog) == 52 && Footprint(prog[..3]) == 15
  {
    var offs := [0, 5, 10, 15, 16, 21, 22, 27, 32, 37, 42, 47, 52];
    RunningOffsets(prog, offs, 12);
    RunningOffsets(prog, offs, 3);
    assert prog[..12] == prog;
  }

  /** The spiral decodes cleanly, is 52 bytes long, and its JMP goes to
      start+15, where its first STOREI sits after three 5-byte instructions. */
  lemma SpiralLayout(start: int, ptr: int, step: int, delta: int, byteVal: int)
    ensures var prog := InstrsOf(SpiralCalls(start, ptr, step, delta, byteVal));
            Decode(AssembleSpiral(start, ptr, step, delta, byteVal)) == Ok(prog)
            && |AssembleSpiral(start, ptr, step, delta, byteVal)| == 52
            && prog[3].op == STOREI && Footprint(prog[..3]) == 15
            && prog[11].op == JMP && prog[11].imm == Some(Mask32(start + Footprint(prog[..3])))
  {
    var calls := SpiralCalls(start, ptr, step, delta, byteVal);
    AssembleDecodes(calls);
    SpiralOffsets(InstrsOf(calls));
  }

  /** Where the seeker's instructions start: its LOADI is 1 byte wide, so
      every later offset is 1 more than a multiple of 5. */
  lemma SeekerOffsets(prog: seq<Instr>)
    requires |prog| == 10
    requires forall j :: 0 <= j < 10 ==> prog[j].op == [MOVP, LOADI, ADD, JZ, ADDP, JMP, MOV, STOREI, ADDP, JMP][j]
    ensures Footprint(prog) == 42 && Footprint(prog[..1]) == 5
    ensures !IsBoundary(prog, 10) && !IsBoundary(prog, 20)
  {
    var offs := [0, 5, 6, 11, 16, 21, 26, 31, 32, 37, 42];
    forall k | 0 <= k <= |prog| ensures Footprint(prog[..k]) == offs[k] {
      RunningOffsets(prog, offs, k);
    }
    assert prog[..10] == prog;
  }

  /** The seeker decodes cleanly and is 42 bytes long, but the two addresses it
      jumps to, start+10 and start+20, are not instruction boundaries: both
      fall inside 5-byte immediates, because its LOADI sits at offset 5. */
  lemma SeekerLayout(start: int, ptrStart: int, targetByte: int, attackStride: int, byteVal: int)
    ensures var prog := InstrsOf(SeekerCalls(start, ptrStart, targetByte, attackStride, byteVal));
            Decode(AssembleSeeker(start, ptrStart, targetByte, attackStride, byteVal)) == Ok(prog)
            && |AssembleSeeker(start, ptrStart, targetByte, attackStride, byteVal)| == 42
            && prog[1].op == LOADI && Footprint(prog[..1]) == 5
            && prog[3].imm == Some(Mask32(start + 20)) && prog[5].imm == Some(Mask32(start + 10))
            && !IsBoundary(prog, 10) && !IsBoundary(prog, 20)
  {
    var calls := SeekerCalls(start, ptrStart, targetByte, attackStride, byteVal);
    AssembleDecodes(calls);
    SeekerOffsets(InstrsOf(calls));
  }

  // ---------------------------------------------------------------------------
  // build_agent

  datatype BuildError = UnknownAgentType(agentType: string)

  /** `kwargs.get(key, default)`, with values already converted by `int()`. */
  function Arg(kwargs: map<string, int>, key: string, default: int): int {
    if key in kwargs then kwargs[key] else default
  }

  /** The `enc` calls `build_agent(agent_type, start, **kwargs)` joins, or the
      error it raises. */
  function BuildCalls(agentType: string, start: int, kwargs: map<string, int>): (r: Result<seq<EncCall>, BuildError>)
    ensures r.Err? ==> r.error == UnknownAgentType(agentType)
  {
    var t := Text.Lower(agentType);
    if t == "runner" then Ok(RunnerCalls(start))
    else if t == "writer" then
      Ok(WriterCalls(start, Arg(kwargs, "offset", 128), Arg(kwargs, "byte", 0x41)))
    else if t == "bomber" then
      Ok(BomberCalls(start, Arg(kwargs, "ptr", start + 256), Arg(kwargs, "stride", 64),
                     Arg(kwargs, "byte", 0x99)))
    else if t == "flooder" then
      Ok(FlooderCalls(start, Arg(kwargs, "ptr", start + 256), Arg(kwargs, "byte", 0x00),
                      Arg(kwargs, "writes", 8)))
    else if t == "spiral" then
      Ok(SpiralCalls(start, Arg(kwargs, "ptr", start + 256), Arg(kwargs, "step", 7),
                     Arg(kwargs, "delta", 3), Arg(kwargs, "byte", 0xA5)))
    else if t == "seeker" then
      Ok(SeekerCalls(start, Arg(kwargs, "ptr", start + 256), Arg(kwargs, "target", 0x00),
                     Arg(kwargs, "stride", 17), Arg(kwargs, "byte", 0xFF)))
    else Err(UnknownAgentType(agentType))
  }

  /** `build_agent(agent_type, start, **kwargs)` */
  function BuildAgent(agentType: string, start: int, kwargs: map<string, int>): (r: Result<seq<byte>, BuildError>)
    ensures r.Err? ==> r.error == UnknownAgentType(agentType)
  {
    var calls :- BuildCalls(agentType, start, kwargs);
    Ok(Assemble(calls))
  }

  /** `build_agent` accepts exactly the six supported names, in any case. */
  lemma BuildAgentAccepts(agentType: string, start: int, kwargs: map<string, int>)
    ensures BuildAgent(agentType, start, kwargs).Ok? <==> Text.Lower(agentType) in Supported
  {
    var t := Text.Lower(agentType);
    if t == "runner" {
      assert t == Supported[0];
    } else if t == "writer" {
      assert t == Supported[1];
    } else if t == "bomber" {
      assert t == Supported[2];
    } else if t == "flooder" {
      assert t == Supported[3];
    } else if t == "spiral" {
      assert t == Supported[4];
    } else if t == "seeker" {
      assert t == Supported[5];
    } else {
      assert forall i :: 0 <= i < |Supported| ==> Supported[i] != t;
    }
  }

  /** Every program `build_agent` accepts is made of valid `enc` calls. */
  lemma BuildCallsValid(agentType: string, start: int, kwargs: map<string, int>)
    requires BuildCalls(agentType, start, kwargs).Ok?
    ensures AllValid(BuildCalls(agentType, start, kwargs).value)
  {
    var calls := BuildCalls(agentType, start, kwargs).value;
    var t := Text.Lower(agentType);
    var p := Arg(kwargs, "ptr", start + 256);
    if t == "flooder" {
      assert calls == FlooderCalls(start, p, Arg(kwargs, "byte", 0x00), Arg(kwargs, "writes", 8));
      FlooderValid(start, p, Arg(kwargs, "byte", 0x00), Arg(kwargs, "writes", 8));
    }
  }

  /** Whatever `build_agent` returns decodes cleanly under the width table:
      every opcode is in 0..11 and the last instruction ends at the last
      byte. */
  lemma BuildAgentDecodes(agentType: string, start: int, kwargs: map<string, int>)
    requires BuildAgent(agentType, start, kwargs).Ok?
    ensures DecodesCleanly(BuildAgent(agentType, start, kwargs).value)
  {
    BuildCallsValid(agentType, start, kwargs);
    AssembleDecodes(BuildCalls(agentType, start, kwargs).value);
  }

  /** With no keyword arguments the agents that take a `ptr` start writing 256 bytes past
      their own start, whatever the case of the name. */
  lemma BuildAgentDefaults(agentType: string, start: int)
    ensures Text.Lower(agentType) == "bomber" ==>
            BuildAgent(agentType, start, map[]) == Ok(AssembleBomber(start, start + 256, 64, 0x99))
    ensures Text.Lower(agentType) == "flooder" ==>
            BuildAgent(agentType, start, map[]) == Ok(AssembleFlooder(start, start + 256, 0x00, 8))
    ensures Text.Lower(agentType) == "spiral" ==>
            BuildAgent(agentType, start, map[]) == Ok(AssembleSpiral(start, start + 256, 7, 3, 0xA5))
    ensures Text.Lower(agentType) == "seeker" ==>
            BuildAgent(agentType, start, map[]) == Ok(AssembleSeeker(start, start + 256, 0x00, 17, 0xFF))
  {
    var kw: map<string, int> := map[];
    var t := Text.Lower(agentType);
    assert Arg(kw, "ptr", start + 256) == start + 256;
    if t == "bomber" {
      assert Arg(kw, "stride", 64) == 64 && Arg(kw, "byte", 0x99) == 0x99;
      assert BuildCalls(agentType, start, kw) == Ok(BomberCalls(start, start + 256, 64, 0x99));
    } else if t == "flooder" {
      assert Arg(kw, "byte", 0x00) == 0x00 && Arg(kw, "writes", 8) == 8;
      assert BuildCalls(agentType, start, kw) == Ok(FlooderCalls(start, start + 256, 0x00, 8));
    } else if t == "spiral" {
      assert Arg(kw, "step", 7) == 7 && Arg(kw, "delta", 3) == 3 && Arg(kw, "byte", 0xA5) == 0xA5;
      assert BuildCalls(agentType, start, kw) == Ok(SpiralCalls(start, start + 256, 7, 3, 0xA5));
    } else if t == "seeker" {
      assert Arg(kw, "target", 0x00) == 0x00 && Arg(kw, "stride", 17) == 17 && Arg(kw, "byte", 0xFF) == 0xFF;
      assert BuildCalls(agentType, start, kw) == Ok(SeekerCalls(start, start + 256, 0x00, 17, 0xFF));
    }
  }
}
