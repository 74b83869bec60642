/** The match VM: a byte arena of fixed size with a per-cell writer, the
    run-length log of this tick's writes, and the interpreter `step`.

    The semantics is given first on values (`Mem`, `Regs`, `Exec`), where its
    properties are proved; the classes `VM` and `Agent` then update the arena
    and the agent in place and are proved to do what `Exec` says. */
module Machine {
  import opened Wrappers
  import opened Isa

  // ---------------------------------------------------------------------------
  // Values

  /** One entry of `tick_diffs`: `len` consecutive cells from `addr`, written
      one after the other by `owner`. */
  datatype Diff = Diff(addr: nat, len: nat, owner: Option<string>)

  /** The arena bytes, the writer of each cell, and this tick's write log. */
  datatype Mem = Mem(bytes: seq<byte>, owners: seq<Option<string>>, diffs: seq<Diff>)

  /** An arena `step` can run on: `% m` needs at least one cell. */
  predicate Sized(mem: Mem) {
    |mem.bytes| > 0 && |mem.owners| == |mem.bytes|
  }

  /** An agent's program counter, liveness, registers A, Z, P and write count. */
  datatype Regs = Regs(pc: int, alive: bool, a: int, z: int, p: int, memWrites: int)

  /** `_rd32`: four bytes from `pos`, little-endian, every index modulo the
      arena length. */
  function Rd32(bytes: seq<byte>, pos: int): (v: nat)
    requires |bytes| > 0
    ensures v < U32
  {
    var m := |bytes|;
    var p := pos % m;
    LeValue(bytes[p], bytes[(p + 1) % m], bytes[(p + 2) % m], bytes[(p + 3) % m])
  }

  /** Number of cell writes a write log stands for. */
  function Written(diffs: seq<Diff>): nat {
    if diffs == [] then 0 else Written(diffs[..|diffs| - 1]) + diffs[|diffs| - 1].len
  }

  /** Logging a write of cell `i` by `owner`: the last run grows when the cell
      follows it and has the same writer, otherwise a new run of one starts. */
  function RecordDiff(diffs: seq<Diff>, i: nat, owner: Option<string>): (r: seq<Diff>)
    ensures Written(r) == Written(diffs) + 1
    ensures |r| == |diffs| || r == diffs + [Diff(i, 1, owner)]
  {
    if |diffs| > 0 && diffs[|diffs| - 1].addr + diffs[|diffs| - 1].len == i
       && diffs[|diffs| - 1].owner == owner
    then
      var last := diffs[|diffs| - 1];
      var r := diffs[..|diffs| - 1] + [Diff(last.addr, last.len + 1, last.owner)];
      assert r[..|r| - 1] == diffs[..|diffs| - 1];
      r
    else
      var r := diffs + [Diff(i, 1, owner)];
      assert r[..|r| - 1] == diffs;
      r
  }

  /** Every run of the log is non-empty and lies inside an arena of `m` cells. */
  predicate RunsInArena(diffs: seq<Diff>, m: nat) {
    forall k :: 0 <= k < |diffs| ==> 1 <= diffs[k].len && diffs[k].addr + diffs[k].len <= m
  }

  /** Logging a write of a cell of the arena keeps every run inside it. */
  lemma RecordDiffInArena(diffs: seq<Diff>, i: nat, owner: Option<string>, m: nat)
    requires RunsInArena(diffs, m) && i < m
    ensures RunsInArena(RecordDiff(diffs, i, owner), m)
  {
  }

  /** `_wr8`: cell `pos mod m` takes `val & 0xFF` and `owner`, and the write
      is logged. */
  function WriteCell(mem: Mem, pos: int, val: int, owner: Option<string>): (r: Mem)
    requires Sized(mem)
    ensures Sized(r) && |r.bytes| == |mem.bytes|
  {
    var i := pos % |mem.bytes|;
    Mem(mem.bytes[i := val % 256], mem.owners[i := owner], RecordDiff(mem.diffs, i, owner))
  }

  /** `_wr8` changes exactly one cell, the one at `pos mod m`, records its
      writer, and adds exactly one write to the log. */
  lemma WriteCellOneCell(mem: Mem, pos: int, val: int, owner: Option<string>)
    requires Sized(mem)
    ensures var r := WriteCell(mem, pos, val, owner);
            var i := pos % |mem.bytes|;
            |r.bytes| == |mem.bytes|
            && r.bytes[i] == val % 256 && r.owners[i] == owner
            && (forall j :: 0 <= j < |mem.bytes| && j != i ==>
                  r.bytes[j] == mem.bytes[j] && r.owners[j] == mem.owners[j])
            && Written(r.diffs) == Written(mem.diffs) + 1
  {
  }

  function ZeroFlag(a: int): int {
    if a == 0 then 1 else 0
  }

  /** `step`: one instruction of a live agent at `pc mod m`; a dead agent is
      left as it is. */
  function Exec(mem: Mem, id: string, r: Regs): (res: (Mem, Regs))
    requires Sized(mem)
    ensures Sized(res.0) && |res.0.bytes| == |mem.bytes|
  {
    if !r.alive then (mem, r)
    else
      var ip := r.pc % |mem.bytes|;
      var op := mem.bytes[ip];
      if op == STORE || op == STOREI then (ExecStore(mem, id, r, ip, op))
      else if IsImmOp(op) then (mem, ExecImm(mem, r, ip, op))
      else (mem, ExecShort(mem, r, ip, op))
  }

  /** STORE writes A to the cell its immediate names, STOREI to cell P; both
      as the agent, and both count one more write. */
  function ExecStore(mem: Mem, id: string, r: Regs, ip: nat, op: byte): (res: (Mem, Regs))
    requires Sized(mem) && ip < |mem.bytes| && (op == STORE || op == STOREI)
    ensures Sized(res.0) && |res.0.bytes| == |mem.bytes|
  {
    var m := |mem.bytes|;
    var addr := if op == STORE then Rd32(mem.bytes, ip + 1) % m else r.p % m;
    var next := if op == STORE then (ip + 5) % m else (ip + 1) % m;
    (WriteCell(mem, addr, r.a, Some(id)), r.(memWrites := r.memWrites + 1, pc := next))
  }

  /** The other immediate ops, which read `_rd32(ip + 1)` and change only the
      agent. */
  function ExecImm(mem: Mem, r: Regs, ip: nat, op: byte): Regs
    requires Sized(mem) && ip < |mem.bytes| && IsImmOp(op) && op != STORE
  {
    var m := |mem.bytes|;
    var imm := Rd32(mem.bytes, ip + 1);
    ImmRegs(r, op, imm, mem.bytes[imm % m], imm % m, (ip + 5) % m)
  }

  /** The registers after an immediate op, given its immediate, the byte at
      the cell it names, that cell, and the address after the instruction. */
  function ImmRegs(r: Regs, op: byte, imm: nat, loaded: byte, target: nat, next: nat): Regs {
    if op == MOV then r.(a := Mask32(imm), pc := next)
    else if op == ADD then
      var a := Mask32(r.a + Mask32(imm));
      r.(a := a, z := ZeroFlag(a), pc := next)
    else if op == LOAD then r.(a := loaded, z := ZeroFlag(loaded), pc := next)
    else if op == JMP then r.(pc := target)
    else if op == JZ then r.(pc := if r.z == 1 then target else next)
    else if op == MOVP then r.(p := Mask32(imm), pc := next)
    else r.(p := Mask32(r.p + Mask32(imm)), pc := next)
  }

  /** NOP, HALT, LOADI, and bytes that are no opcode. */
  function ExecShort(mem: Mem, r: Regs, ip: nat, op: byte): Regs
    requires Sized(mem) && ip < |mem.bytes| && !IsImmOp(op) && op != STOREI
  {
    var m := |mem.bytes|;
    if op == NOP then r.(pc := (ip + 1) % m)
    else if op == HALT then r.(alive := false)
    else if op == LOADI then
      var a := mem.bytes[r.p % m];
      r.(a := a, z := ZeroFlag(a), pc := (ip + 1) % m)
    else r.(alive := false)
  }

  /** The opcode a live agent executes next. */
  function OpAt(mem: Mem, r: Regs): byte
    requires Sized(mem)
  {
    mem.bytes[r.pc % |mem.bytes|]
  }

  /** A dead agent's step changes nothing. */
  lemma ExecDead(mem: Mem, id: string, r: Regs)
    requires Sized(mem) && !r.alive
    ensures Exec(mem, id, r) == (mem, r)
  {
  }

  /** Every opcode other than a jump, HALT or an invalid byte moves `pc` on by
      its width in the assembler's width table: one byte for NOP, LOADI and
      STOREI, five for the immediate ops. */
  lemma ExecAdvancesByWidth(mem: Mem, id: string, r: Regs)
    requires Sized(mem) && r.alive
    requires var op := OpAt(mem, r); IsOpcode(op) && op != JMP && op != JZ && op != HALT
    ensures Exec(mem, id, r).1.alive
    ensures Exec(mem, id, r).1.pc == (r.pc % |mem.bytes| + Width(OpAt(mem, r))) % |mem.bytes|
  {
  }

  /** JMP goes to its immediate modulo m; JZ goes there exactly when Z is 1
      and otherwise moves on by five. */
  lemma ExecJumps(mem: Mem, id: string, r: Regs)
    requires Sized(mem) && r.alive && (OpAt(mem, r) == JMP || OpAt(mem, r) == JZ)
    ensures var m := |mem.bytes|;
            var ip := r.pc % m;
            var target := Rd32(mem.bytes, ip + 1) % m;
            var r' := Exec(mem, id, r).1;
            r'.alive && r'.a == r.a && r'.z == r.z && r'.p == r.p
            && (if OpAt(mem, r) == JMP || r.z == 1 then r'.pc == target
                else r'.pc == (ip + 5) % m)
  {
  }

  /** HALT and every byte above 11 kill the agent and change nothing else;
      every other opcode leaves it alive. */
  lemma ExecKills(mem: Mem, id: string, r: Regs)
    requires Sized(mem) && r.alive
    ensures var res := Exec(mem, id, r);
            !res.1.alive <==> (OpAt(mem, r) == HALT || !IsOpcode(OpAt(mem, r)))
    ensures var res := Exec(mem, id, r);
            !res.1.alive ==> res == (mem, r.(alive := false))
  {
  }

  /** A `pc` inside the arena stays inside it. */
  lemma ExecPcInArena(mem: Mem, id: string, r: Regs)
    requires Sized(mem) && 0 <= r.pc < |mem.bytes|
    ensures 0 <= Exec(mem, id, r).1.pc < |mem.bytes|
  {
  }

  /** Registers A and P stay below 2^32: every value they take is masked or a
      byte of the arena. */
  lemma ExecRegistersBounded(mem: Mem, id: string, r: Regs)
    requires Sized(mem) && 0 <= r.a < U32 && 0 <= r.p < U32
    ensures var r' := Exec(mem, id, r).1; 0 <= r'.a < U32 && 0 <= r'.p < U32
  {
  }

  /** Only ADD, LOAD and LOADI set Z, and they set it to "A is zero". */
  lemma ExecZeroFlag(mem: Mem, id: string, r: Regs)
    requires Sized(mem)
    ensures var op := OpAt(mem, r);
            var r' := Exec(mem, id, r).1;
            if r.alive && (op == ADD || op == LOAD || op == LOADI)
            then r'.z == (if r'.a == 0 then 1 else 0)
            else r'.z == r.z
  {
  }

  /** Only STORE and STOREI touch memory: each is one `_wr8` of A to its
      address, as the agent, and counts one more write for the agent (what
      `_wr8` does to the cells is `WriteCellOneCell`). Every other step leaves
      memory and the count alone. */
  lemma ExecWrites(mem: Mem, id: string, r: Regs)
    requires Sized(mem)
    ensures var op := OpAt(mem, r);
            var m := |mem.bytes|;
            var res := Exec(mem, id, r);
            if r.alive && (op == STORE || op == STOREI) then
              var addr := if op == STORE then Rd32(mem.bytes, r.pc % m + 1) % m else r.p % m;
              res.0 == WriteCell(mem, addr, r.a, Some(id))
              && res.1.memWrites == r.memWrites + 1
            else
              res.0 == mem && res.1.memWrites == r.memWrites
  {
  }

  /** The log and the agent's write count move together: a step adds to the
      log exactly the writes it adds to `mem_writes`. */
  lemma ExecLogsWrites(mem: Mem, id: string, r: Regs)
    requires Sized(mem)
    ensures var res := Exec(mem, id, r);
            Written(res.0.diffs) - Written(mem.diffs) == res.1.memWrites - r.memWrites
  {
    ExecWrites(mem, id, r);
    var m := |mem.bytes|;
    if r.alive && OpAt(mem, r) == STORE {
      WriteCellOneCell(mem, Rd32(mem.bytes, r.pc % m + 1) % m, r.a, Some(id));
    } else if r.alive && OpAt(mem, r) == STOREI {
      WriteCellOneCell(mem, r.p % m, r.a, Some(id));
    }
  }

  // ---------------------------------------------------------------------------
  // Loading code

  /** The cells after writing `code` from cell `s` onwards, one byte at a time
      and wrapping around the arena; a later byte overwrites an earlier one. */
  function Place<T>(cells: seq<T>, s: nat, code: seq<T>): (r: seq<T>)
    requires |cells| > 0
    ensures |r| == |cells|
    decreases |code|
  {
    if code == [] then cells
    else Place(cells, s, code[..|code| - 1])[(s + |code| - 1) % |cells| := code[|code| - 1]]
  }

  /** `n` copies of `x`: the writer `load_code` gives each byte it copies. */
  function Fill<T>(n: nat, x: T): (r: seq<T>)
    ensures |r| == n && forall k :: 0 <= k < n ==> r[k] == x
  {
    seq(n, _ => x)
  }

  /** Every cell ends up with its old content or a byte of the code. */
  lemma {:induction false} PlaceFrom<T>(cells: seq<T>, s: nat, code: seq<T>, c: nat)
    requires 0 < |cells| && c < |cells|
    ensures Place(cells, s, code)[c] == cells[c] || Place(cells, s, code)[c] in code
    decreases |code|
  {
    if code != [] {
      PlaceFrom(cells, s, code[..|code| - 1], c);
    }
  }

  /** `x mod m` for `0 <= x < 2m`. */
  lemma ModOnce(x: int, m: int)
    requires m > 0 && 0 <= x < 2 * m
    ensures x % m == if x < m then x else x - m
  {
    if x >= m {
      assert x == m * 1 + (x - m);
    }
  }

  /** Code no longer than the arena lands intact: byte `k` is at `(s+k) mod m`. */
  lemma {:induction false} PlaceWrites<T>(cells: seq<T>, s: nat, code: seq<T>, k: nat)
    requires 0 < |cells| && s < |cells| && |code| <= |cells| && k < |code|
    ensures Place(cells, s, code)[(s + k) % |cells|] == code[k]
    decreases |code|
  {
    var n := |code|;
    var m := |cells|;
    if k < n - 1 {
      PlaceWrites(cells, s, code[..n - 1], k);
      ModOnce(s + k, m);
      ModOnce(s + n - 1, m);
    }
  }

  /** A cell at least `|code|` cells on from `s`, counting forward around the
      arena, keeps its old content. */
  lemma {:induction false} PlaceKeeps<T>(cells: seq<T>, s: nat, code: seq<T>, j: nat)
    requires 0 < |cells| && s < |cells| && j < |cells|
    requires (j + |cells| - s) % |cells| >= |code|
    ensures Place(cells, s, code)[j] == cells[j]
    decreases |code|
  {
    var n := |code|;
    var m := |cells|;
    if n > 0 {
      PlaceKeeps(cells, s, code[..n - 1], j);
      ModOnce(s + n - 1, m);
      ModOnce(j + m - s, m);
    }
  }

  /** `_rd32(s + 1)` for a cell `s` of the arena reads cells `s+1` to `s+4`,
      wrapping around. */
  lemma Rd32After(bytes: seq<byte>, s: nat)
    requires 4 <= |bytes| && s < |bytes|
    ensures var m := |bytes|;
            Rd32(bytes, s + 1) ==
            LeValue(bytes[(s + 1) % m], bytes[(s + 2) % m], bytes[(s + 3) % m], bytes[(s + 4) % m])
  {
    var m := |bytes|;
    var p := (s + 1) % m;
    ModOnce(s + 1, m);
    ModOnce(s + 2, m);
    ModOnce(s + 3, m);
    ModOnce(s + 4, m);
    ModOnce(p + 1, m);
    ModOnce(p + 2, m);
    ModOnce(p + 3, m);
  }

  /** The four bytes after the opcode land on the four cells after `s`. */
  lemma PlacedImmediate(cells: seq<byte>, s: nat, code: seq<byte>)
    requires 5 <= |cells| && s < |cells| && |code| == 5
    ensures var m := |cells|;
            var placed := Place(cells, s, code);
            placed[(s + 1) % m] == code[1] && placed[(s + 2) % m] == code[2]
            && placed[(s + 3) % m] == code[3] && placed[(s + 4) % m] == code[4]
  {
    PlaceWrites(cells, s, code, 1);
    PlaceWrites(cells, s, code, 2);
    PlaceWrites(cells, s, code, 3);
    PlaceWrites(cells, s, code, 4);
  }

  /** After `load_code` places `enc(op, imm)` at `s`, `_rd32(s + 1)` reads
      back `imm & 0xFFFFFFFF`, in an arena of at least five cells. */
  lemma LoadThenRead(cells: seq<byte>, start: int, op: byte, imm: int)
    requires |cells| >= 5
    ensures Rd32(Place(cells, start % |cells|, Enc(op, Some(imm))), start % |cells| + 1) == Mask32(imm)
  {
    var m := |cells|;
    var s := start % m;
    var code := Enc(op, Some(imm));
    var placed := Place(cells, s, code);
    assert |code| == 5 && LeValue(code[1], code[2], code[3], code[4]) == Mask32(imm);
    PlacedImmediate(cells, s, code);
    Rd32After(placed, s);
  }

  /** The last cell of the region `load_code` reports. */
  function RegionEnd(s: nat, codeLength: nat, m: nat): nat
    requires m > 0
  {
    (s + (if codeLength > 1 then codeLength else 1) - 1) % m
  }

  /** The region's end cell holds the last byte of non-empty code: `Place`
      writes it last. */
  lemma RegionEndHoldsLastByte(cells: seq<byte>, s: nat, code: seq<byte>)
    requires 0 < |cells| && 0 < |code|
    ensures Place(cells, s, code)[RegionEnd(s, |code|, |cells|)] == code[|code| - 1]
  {
    var e := RegionEnd(s, |code|, |cells|);
    assert e == (s + |code| - 1) % |cells|;
    PlaceLast(cells, s, code, e);
  }

  /** The cell `Place` writes last holds the last byte. */
  lemma PlaceLast(cells: seq<byte>, s: nat, code: seq<byte>, e: int)
    requires 0 < |cells| && 0 < |code| && e == (s + |code| - 1) % |cells|
    ensures 0 <= e < |cells| && Place(cells, s, code)[e] == code[|code| - 1]
  {
  }

  // ---------------------------------------------------------------------------
  // Objects

  /** An agent: its id, program counter, liveness, registers, the steps it
      took this tick, its write count and its code region. */
  class Agent {
    const id: string
    var pc: int
    var alive: bool
    var a: int
    var z: int
    var p: int
    var cpuUsed: int
    var memWrites: int
    var region: (int, int)

    ghost function State(): Regs
      reads this
    {
      Regs(pc, alive, a, z, p, memWrites)
    }

    constructor(id: string, pc: int, region: (int, int))
      ensures this.id == id && this.region == region && cpuUsed == 0
      ensures State() == Regs(pc, true, 0, 0, 0, 0)
    {
      this.id := id;
      this.pc := pc;
      alive := true;
      a := 0;
      z := 0;
      p := 0;
      cpuUsed := 0;
      memWrites := 0;
      this.region := region;
    }
  }

  class VM {
    const arena: array<byte>
    const writer: array<Option<string>>
    var tickDiffs: seq<Diff>

    ghost predicate Valid()
      reads this
    {
      writer.Length == arena.Length
    }

    ghost function State(): Mem
      reads this, arena, writer
    {
      Mem(arena[..], writer[..], tickDiffs)
    }

    /** A zeroed arena (every cell NOP) with no writers and an empty log. */
    constructor(arenaSize: nat)
      ensures Valid() && fresh(arena) && fresh(writer) && arena.Length == arenaSize
      ensures State() == Mem(seq(arenaSize, _ => NOP), seq(arenaSize, _ => None), [])
    {
      arena := new byte[arenaSize](_ => NOP);
      writer := new Option<string>[arenaSize](_ => None);
      tickDiffs := [];
    }

    method ClearTickDiffs()
      modifies this
      ensures tickDiffs == []
    {
      tickDiffs := [];
    }

    /** `_wr8` in place. */
    method Wr8(pos: int, val: int, owner: Option<string>)
      requires Valid() && arena.Length > 0
      modifies this, arena, writer
      ensures Valid() && State() == WriteCell(old(State()), pos, val, owner)
    {
      var m := arena.Length;
      var i := pos % m;
      arena[i] := val % 256;
      writer[i] := owner;
      assert arena[..] == old(arena[..])[i := val % 256];
      assert writer[..] == old(writer[..])[i := owner];
      if |tickDiffs| > 0 && tickDiffs[|tickDiffs| - 1].addr + tickDiffs[|tickDiffs| - 1].len == i
         && tickDiffs[|tickDiffs| - 1].owner == owner
      {
        var last := tickDiffs[|tickDiffs| - 1];
        tickDiffs := tickDiffs[..|tickDiffs| - 1] + [Diff(last.addr, last.len + 1, last.owner)];
      } else {
        tickDiffs := tickDiffs + [Diff(i, 1, owner)];
      }
    }

    /** `load_code`: copies `code` in from `start mod m`, wrapping around, with
        `owner` as the writer of every cell it fills; returns the region's
        first and last cell. The write log is not touched. */
    method LoadCode(start: int, code: seq<byte>, owner: Option<string>) returns (s: nat, e: nat)
      requires Valid() && arena.Length > 0
      modifies arena, writer
      ensures s == start % arena.Length && e == RegionEnd(s, |code|, arena.Length)
      ensures arena[..] == Place(old(arena[..]), s, code)
      ensures writer[..] == Place(old(writer[..]), s, Fill(|code|, owner))
    {
      var m := arena.Length;
      s := start % m;
      ghost var cells := arena[..];
      ghost var owners := writer[..];
      for i := 0 to |code|
        invariant arena[..] == Place(cells, s, code[..i])
        invariant writer[..] == Place(owners, s, Fill(i, owner))
      {
        assert code[..i + 1][..i] == code[..i];
        assert Fill(i + 1, owner)[..i] == Fill(i, owner);
        arena[(s + i) % m] := code[i];
        writer[(s + i) % m] := owner;
      }
      assert code[..|code|] == code;
      e := RegionEnd(s, |code|, m);
    }

    /** `step` in place: the arena, the log and the agent end up as `Exec`
        says. */
    method Step(agent: Agent)
      requires Valid() && arena.Length > 0
      modifies this, arena, writer, agent
      ensures Valid()
      ensures (State(), agent.State()) == Exec(old(State()), agent.id, old(agent.State()))
      ensures agent.cpuUsed == old(agent.cpuUsed) && agent.region == old(agent.region)
    {
      if !agent.alive {
        return;
      }
      var m := arena.Length;
      var ip := agent.pc % m;
      var op := arena[ip];
      if op == STORE || op == STOREI {
        StepStore(agent, ip, op);
      } else if IsImmOp(op) {
        StepImm(agent, ip, op);
      } else {
        StepShort(agent, ip, op);
      }
    }

    method StepStore(agent: Agent, ip: nat, op: byte)
      requires Valid() && ip < arena.Length && (op == STORE || op == STOREI)
      modifies this, arena, writer, agent
      ensures Valid()
      ensures (State(), agent.State()) == ExecStore(old(State()), agent.id, old(agent.State()), ip, op)
      ensures agent.cpuUsed == old(agent.cpuUsed) && agent.region == old(agent.region)
    {
      var m := arena.Length;
      ghost var r := agent.State();
      var addr, next;
      if op == STORE {
        addr := Rd32(arena[..], ip + 1) % m;
        next := (ip + 5) % m;
      } else {
        addr := agent.p % m;
        next := (ip + 1) % m;
      }
      Wr8(addr, agent.a, Some(agent.id));
      agent.memWrites := agent.memWrites + 1;
      agent.pc := next;
      assert agent.State() == r.(memWrites := r.memWrites + 1, pc := next);
    }

    /** The immediate ops other than STORE: each reads `_rd32(ip + 1)`. */
    method StepImm(agent: Agent, ip: nat, op: byte)
      requires Valid() && ip < arena.Length && IsImmOp(op) && op != STORE
      modifies agent
      ensures agent.State() == ExecImm(State(), old(agent.State()), ip, op)
      ensures agent.cpuUsed == old(agent.cpuUsed) && agent.region == old(agent.region)
    {
      var m := arena.Length;
      var imm := Rd32(arena[..], ip + 1);
      var target := imm % m;
      var next := (ip + 5) % m;
      ghost var want := ImmRegs(agent.State(), op, imm, arena[target], target, next);
      if op == MOV {
        agent.a := Mask32(imm);
        agent.pc := next;
      } else if op == ADD {
        agent.a := Mask32(agent.a + Mask32(imm));
        agent.z := if agent.a == 0 then 1 else 0;
        agent.pc := next;
      } else if op == LOAD {
        agent.a := arena[target];
        agent.z := if agent.a == 0 then 1 else 0;
        agent.pc := next;
      } else if op == JMP {
        agent.pc := target;
      } else if op == JZ {
        agent.pc := if agent.z == 1 then target else next;
      } else if op == MOVP {
        agent.p := Mask32(imm);
        agent.pc := next;
      } else {
        agent.p := Mask32(agent.p + Mask32(imm));
        agent.pc := next;
      }
      assert agent.State() == want;
    }

    /** NOP, HALT, LOADI and invalid bytes. */
    method StepShort(agent: Agent, ip: nat, op: byte)
      requires Valid() && ip < arena.Length && !IsImmOp(op) && op != STOREI
      modifies agent
      ensures agent.State() == ExecShort(State(), old(agent.State()), ip, op)
      ensures agent.cpuUsed == old(agent.cpuUsed) && agent.region == old(agent.region)
    {
      var m := arena.Length;
      if op == NOP {
        agent.pc := (ip + 1) % m;
      } else if op == HALT {
        agent.alive := false;
      } else if op == LOADI {
        var addr := agent.p % m;
        agent.a := arena[addr];
        agent.z := if agent.a == 0 then 1 else 0;
        agent.pc := (ip + 1) % m;
      } else {
        agent.alive := false;
      }
    }
  }
}
