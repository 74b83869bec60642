/** The match VM's instruction set: the twelve opcodes, the width table (five
    bytes for an opcode that carries a 32-bit immediate, one byte otherwise),
    the encoder `enc`, and a decoder by the width table that lets the VM, the
    assembler and the built-in agents be related to one another. */
module Isa {
  import opened Wrappers

  type byte = x: int | 0 <= x < 256

  const NOP: byte := 0
  const MOV: byte := 1
  const ADD: byte := 2
  const LOAD: byte := 3
  const STORE: byte := 4
  const JMP: byte := 5
  const JZ: byte := 6
  const HALT: byte := 7
  const MOVP: byte := 8
  const ADDP: byte := 9
  const LOADI: byte := 10
  const STOREI: byte := 11

  /** 2^32: immediates and registers are taken modulo this. */
  const U32: int := 0x1_0000_0000

  predicate IsOpcode(op: int) {
    0 <= op <= 11
  }

  /** The opcodes whose instruction carries a 32-bit immediate. */
  predicate IsImmOp(op: int) {
    op == MOV || op == ADD || op == LOAD || op == STORE || op == JMP || op == JZ
    || op == MOVP || op == ADDP
  }

  /** The width table: bytes taken by an instruction with opcode `op`. */
  function Width(op: int): (w: nat)
    ensures w == 1 || w == 5
  {
    if IsImmOp(op) then 5 else 1
  }

  /** `v & 0xFFFFFFFF` on a Python integer (two's complement, any sign). */
  function Mask32(v: int): (r: nat)
    ensures r < U32
    ensures 0 <= v < U32 ==> r == v
  {
    v % U32
  }

  /** The four little-endian bytes of a 32-bit value. */
  function Le32(v: nat): (b: seq<byte>)
    requires v < U32
    ensures |b| == 4
  {
    [v % 256, (v / 256) % 256, (v / 65536) % 256, v / 16777216]
  }

  /** The value of four little-endian bytes, as `_rd32` combines them. */
  function LeValue(b0: byte, b1: byte, b2: byte, b3: byte): (v: nat)
    ensures v < U32
  {
    b0 + 256 * b1 + 65536 * b2 + 16777216 * b3
  }

  /** Reading back the bytes `Le32` wrote gives the value. */
  lemma LeRoundTrip(v: nat)
    requires v < U32
    ensures var b := Le32(v); LeValue(b[0], b[1], b[2], b[3]) == v
  {
    var q1, q2, q3 := v / 256, v / 65536, v / 16777216;
    assert v == v % 256 + 256 * q1;
    assert q2 == q1 / 256 && q1 == q1 % 256 + 256 * q2;
    assert q3 == q2 / 256 && q2 == q2 % 256 + 256 * q3;
  }

  /** `enc(op)` is the single opcode byte; `enc(op, imm)` is the opcode
      followed by `imm & 0xFFFFFFFF` in little-endian order. */
  function Enc(op: byte, imm: Option<int>): (code: seq<byte>)
    ensures |code| == (if imm.Some? then 5 else 1) && code[0] == op
    ensures imm.Some? ==> LeValue(code[1], code[2], code[3], code[4]) == Mask32(imm.value)
  {
    match imm
    case None => [op]
    case Some(v) => LeRoundTrip(Mask32(v)); [op] + Le32(Mask32(v))
  }

  // ---------------------------------------------------------------------------
  // Decoding by the width table

  /** A decoded instruction; `imm` is present exactly for the immediate ops. */
  datatype Instr = Instr(op: byte, imm: Option<nat>)

  predicate WellFormed(ins: Instr) {
    IsOpcode(ins.op) && (ins.imm.Some? <==> IsImmOp(ins.op))
    && (ins.imm.Some? ==> ins.imm.value < U32)
  }

  datatype DecodeError = InvalidOpcode(offset: nat, op: byte) | Truncated(offset: nat)

  function ShiftError(e: DecodeError, delta: nat): DecodeError {
    match e
    case InvalidOpcode(o, op) => InvalidOpcode(o + delta, op)
    case Truncated(o) => Truncated(o + delta)
  }

  /** Scan from offset 0: an opcode outside 0..11 is rejected, an immediate op
      takes five bytes and any other one byte, and the stream must end exactly
      on an instruction boundary. */
  function Decode(code: seq<byte>): (r: Result<seq<Instr>, DecodeError>)
    ensures r.Ok? ==> forall k :: 0 <= k < |r.value| ==> WellFormed(r.value[k])
    decreases |code|
  {
    if code == [] then Ok([])
    else
      var op := code[0];
      if !IsOpcode(op) then Err(InvalidOpcode(0, op))
      else if IsImmOp(op) && |code| < 5 then Err(Truncated(0))
      else
        var ins := if IsImmOp(op) then Instr(op, Some(LeValue(code[1], code[2], code[3], code[4])))
                   else Instr(op, None);
        match Decode(code[Width(op)..])
        case Ok(rest) => Ok([ins] + rest)
        case Err(e) => Err(ShiftError(e, Width(op)))
  }

  /** The bytes of one instruction. */
  function EncInstr(ins: Instr): (code: seq<byte>)
    ensures |code| == Width(ins.op) || !WellFormed(ins)
  {
    Enc(ins.op, if ins.imm.Some? then Some(ins.imm.value) else None)
  }

  /** The concatenated bytes of a list of instructions. */
  function EncAll(prog: seq<Instr>): seq<byte> {
    if prog == [] then [] else EncInstr(prog[0]) + EncAll(prog[1..])
  }

  /** The total width of a list of instructions. */
  function Footprint(prog: seq<Instr>): nat {
    if prog == [] then 0 else Width(prog[0].op) + Footprint(prog[1..])
  }

  /** Decoding one well-formed instruction in front of more code. */
  lemma DecodeCons(ins: Instr, rest: seq<byte>)
    requires WellFormed(ins)
    ensures Decode(EncInstr(ins) + rest) ==
            match Decode(rest)
            case Ok(prog) => Ok([ins] + prog)
            case Err(e) => Err(ShiftError(e, Width(ins.op)))
  {
    var code := EncInstr(ins) + rest;
    assert code[Width(ins.op)..] == rest;
    if ins.imm.Some? {
      LeRoundTrip(ins.imm.value);
    }
  }

  /** Code built from well-formed instructions decodes cleanly under the width
      table, back to exactly those instructions. */
  lemma {:induction false} DecodeEncAll(prog: seq<Instr>)
    requires forall k :: 0 <= k < |prog| ==> WellFormed(prog[k])
    ensures Decode(EncAll(prog)) == Ok(prog)
    ensures |EncAll(prog)| == Footprint(prog)
  {
    if prog != [] {
      DecodeEncAll(prog[1..]);
      DecodeCons(prog[0], EncAll(prog[1..]));
      assert [prog[0]] + prog[1..] == prog;
    }
  }

  lemma {:induction false} EncAllAppend(p: seq<Instr>, q: seq<Instr>)
    ensures EncAll(p + q) == EncAll(p) + EncAll(q)
    ensures Footprint(p + q) == Footprint(p) + Footprint(q)
  {
    if p != [] {
      assert (p + q)[1..] == p[1..] + q;
      EncAllAppend(p[1..], q);
    } else {
      assert p + q == q;
    }
  }

  /** `b"".join(parts)` */
  function JoinBytes(parts: seq<seq<byte>>): seq<byte> {
    if parts == [] then [] else parts[0] + JoinBytes(parts[1..])
  }

  lemma {:induction false} JoinBytesAppend(p: seq<seq<byte>>, q: seq<seq<byte>>)
    ensures JoinBytes(p + q) == JoinBytes(p) + JoinBytes(q)
  {
    if p != [] {
      assert (p + q)[1..] == p[1..] + q;
      JoinBytesAppend(p[1..], q);
    } else {
      assert p + q == q;
    }
  }

  /** The arguments of one call `enc(op, imm)`. */
  datatype EncCall = EncCall(op: byte, imm: Option<int>)

  /** `[enc(op, imm) for each call]` */
  function EncEach(calls: seq<EncCall>): (parts: seq<seq<byte>>)
    ensures |parts| == |calls|
  {
    seq(|calls|, k requires 0 <= k < |calls| => Enc(calls[k].op, calls[k].imm))
  }

  /** The instruction that `enc(op, imm)` encodes: the immediate is taken
      modulo 2^32. */
  function InstrOf(call: EncCall): Instr {
    Instr(call.op, if call.imm.Some? then Some(Mask32(call.imm.value)) else None)
  }

  function InstrsOf(calls: seq<EncCall>): (prog: seq<Instr>)
    ensures |prog| == |calls|
  {
    seq(|calls|, k requires 0 <= k < |calls| => InstrOf(calls[k]))
  }

  /** A call passes an immediate exactly when its opcode takes one. */
  predicate ValidCall(call: EncCall) {
    IsOpcode(call.op) && (call.imm.Some? <==> IsImmOp(call.op))
  }

  lemma {:induction false} EncEachAppend(p: seq<EncCall>, q: seq<EncCall>)
    ensures EncEach(p + q) == EncEach(p) + EncEach(q)
    ensures InstrsOf(p + q) == InstrsOf(p) + InstrsOf(q)
  {
  }

  /** Joining the encodings of a list of calls is encoding the instructions
      they stand for; when every call is valid, those instructions are
      well-formed, so the joined bytes decode back to them. */
  lemma {:induction false} JoinEncEach(calls: seq<EncCall>)
    ensures JoinBytes(EncEach(calls)) == EncAll(InstrsOf(calls))
    ensures (forall k :: 0 <= k < |calls| ==> ValidCall(calls[k])) ==>
            Decode(JoinBytes(EncEach(calls))) == Ok(InstrsOf(calls))
            && |JoinBytes(EncEach(calls))| == Footprint(InstrsOf(calls))
  {
    if calls != [] {
      JoinEncEach(calls[1..]);
      assert EncEach(calls)[1..] == EncEach(calls[1..]);
      assert InstrsOf(calls)[1..] == InstrsOf(calls[1..]);
    }
    if forall k :: 0 <= k < |calls| ==> ValidCall(calls[k]) {
      DecodeEncAll(InstrsOf(calls));
    }
  }

  /** `n` copies of `block`, one after the other. */
  function Repeat<T>(n: nat, block: seq<T>): seq<T> {
    if n == 0 then [] else block + Repeat(n - 1, block)
  }

  /** The width of a prefix one instruction longer. */
  lemma FootprintSnoc(prog: seq<Instr>, k: nat)
    requires 0 < k <= |prog|
    ensures Footprint(prog[..k]) == Footprint(prog[..k - 1]) + Width(prog[k - 1].op)
  {
    assert prog[..k] == prog[..k - 1] + [prog[k - 1]];
    EncAllAppend(prog[..k - 1], [prog[k - 1]]);
  }

  /** `offs` lists where each instruction of `prog` starts, and where the last
      one ends: the running sum of the widths. */
  lemma {:induction false} RunningOffsets(prog: seq<Instr>, offs: seq<int>, k: nat)
    requires |offs| == |prog| + 1 && offs[0] == 0 && k <= |prog|
    requires forall j :: 0 <= j < |prog| ==> offs[j + 1] == offs[j] + Width(prog[j].op)
    ensures Footprint(prog[..k]) == offs[k]
  {
    if k > 0 {
      RunningOffsets(prog, offs, k - 1);
      assert prog[..k] == prog[..k - 1] + [prog[k - 1]];
      EncAllAppend(prog[..k - 1], [prog[k - 1]]);
    }
  }

  /** In the bytes of a well-formed program, instruction `k`'s opcode sits at
      its offset, the sum of the widths of the instructions before it. */
  lemma OpcodeAtOffset(prog: seq<Instr>, k: nat)
    requires forall j :: 0 <= j < |prog| ==> WellFormed(prog[j])
    requires k < |prog|
    ensures Footprint(prog[..k]) + Width(prog[k].op) <= |EncAll(prog)|
    ensures EncAll(prog)[Footprint(prog[..k])] == prog[k].op
  {
    assert prog == prog[..k] + prog[k..];
    EncAllAppend(prog[..k], prog[k..]);
    DecodeEncAll(prog);
    DecodeEncAll(prog[..k]);
    DecodeEncAll(prog[k..]);
    assert prog[k..][0] == prog[k];
  }

  /** In the bytes of a well-formed program, the four bytes after an
      immediate instruction's opcode read back, little-endian, as its
      immediate. */
  lemma ImmAtOffset(prog: seq<Instr>, k: nat)
    requires forall j :: 0 <= j < |prog| ==> WellFormed(prog[j])
    requires k < |prog| && prog[k].imm.Some?
    ensures Footprint(prog[..k]) + 5 <= |EncAll(prog)|
    ensures var f := Footprint(prog[..k]);
            var code := EncAll(prog);
            LeValue(code[f + 1], code[f + 2], code[f + 3], code[f + 4]) == prog[k].imm.value
  {
    assert prog == prog[..k] + prog[k..];
    EncAllAppend(prog[..k], prog[k..]);
    DecodeEncAll(prog[..k]);
    assert prog[k..][0] == prog[k];
    var code := EncAll(prog);
    var f := Footprint(prog[..k]);
    var e := EncInstr(prog[k]);
    assert EncAll(prog[k..]) == e + EncAll(prog[k..][1..]);
    assert code[f..f + 5] == e;
    assert code[f + 1] == e[1] && code[f + 2] == e[2] && code[f + 3] == e[3] && code[f + 4] == e[4];
  }
}
