/** The match kernel: spawning agents into the VM, the tick loop (each live
    agent runs up to `instr_per_tick` instructions, then the statistics,
    alive and territory scoring and kill attribution), and the choice of the
    winner.

    Each phase of a tick is a method over the kernel's dictionaries, proved
    equal to a fold over the agents (`Body` is an agent's state as a value);
    the folds carry the properties. */
module Engine {
  import opened Wrappers
  import opened Isa
  import opened Machine
  import Text

  datatype Weights = Weights(alive: int, kill: int, territory: int, territoryBucket: int)

  /** The match configuration; the random seed is left out, as nothing draws
      from the generator it seeds. */
  datatype Config = Config(arenaSize: nat, instrPerTick: int, winMode: string, weights: Weights)

  /** `Config()` with every field at its default. */
  const DefaultConfig := Config(4096, 8, "score_fallback", Weights(1, 5, 1, 64))

  /** One agent's entry of `stats`. */
  datatype Stats = Stats(aliveTicks: int, totalCpu: int, totalMemWrites: int, kills: int,
                         deaths: int, territoryMax: int, territorySum: int, territoryLast: int)

  const FreshStats := Stats(0, 0, 0, 0, 0, 0, 0, 0)

  /** An agent as a value: its id, registers and the steps it took this tick. */
  datatype Body = Body(id: string, regs: Regs, cpuUsed: int)

  datatype Event = Kill(victim: string, killer: string) | Death(victim: string)

  /** `range(instr_per_tick)` is empty for a count below one. */
  function Quota(instrPerTick: int): nat {
    if instrPerTick > 0 then instrPerTick else 0
  }

  /** `score.get(k, 0)` */
  function Get(score: map<string, int>, k: string): int {
    if k in score then score[k] else 0
  }

  /** `score.get(k, 0) + w` stored back under `k`. */
  function Credit(score: map<string, int>, k: string, w: int): map<string, int> {
    score[k := Get(score, k) + w]
  }

  // ---------------------------------------------------------------------------
  // Stepping the agents

  /** One agent's turn: up to `quota` steps, stopping early once it is dead;
      also returns how many steps it took. */
  function Turn(mem: Mem, id: string, r: Regs, quota: nat): (res: (Mem, Regs, nat))
    requires Sized(mem)
    ensures Sized(res.0) && |res.0.bytes| == |mem.bytes|
    decreases quota
  {
    if quota == 0 || !r.alive then (mem, r, 0)
    else
      var next := Exec(mem, id, r);
      var rest := Turn(next.0, id, next.1, quota - 1);
      (rest.0, rest.1, rest.2 + 1)
  }

  /** An agent takes at most `quota` steps, and fewer only when it died. */
  lemma {:induction false} TurnQuota(mem: Mem, id: string, r: Regs, quota: nat)
    requires Sized(mem)
    ensures Turn(mem, id, r, quota).2 <= quota
    ensures Turn(mem, id, r, quota).2 < quota ==> !Turn(mem, id, r, quota).1.alive
    ensures r.alive && quota > 0 ==> Turn(mem, id, r, quota).2 >= 1
    decreases quota
  {
    if quota > 0 && r.alive {
      var next := Exec(mem, id, r);
      TurnQuota(next.0, id, next.1, quota - 1);
    }
  }

  /** Over a turn, the write log grows by exactly the writes the agent counts. */
  lemma {:induction false} TurnLogsWrites(mem: Mem, id: string, r: Regs, quota: nat)
    requires Sized(mem)
    ensures var res := Turn(mem, id, r, quota);
            Written(res.0.diffs) - Written(mem.diffs) == res.1.memWrites - r.memWrites
    decreases quota
  {
    if quota > 0 && r.alive {
      var next := Exec(mem, id, r);
      ExecLogsWrites(mem, id, r);
      TurnLogsWrites(next.0, id, next.1, quota - 1);
    }
  }

  /** Over a turn, each cell keeps its writer or gets the agent as writer. */
  lemma {:induction false} TurnOwners(mem: Mem, id: string, r: Regs, quota: nat)
    requires Sized(mem)
    ensures var res := Turn(mem, id, r, quota);
            forall c :: 0 <= c < |mem.owners| ==>
              res.0.owners[c] == mem.owners[c] || res.0.owners[c] == Some(id)
    decreases quota
  {
    if quota > 0 && r.alive {
      var next := Exec(mem, id, r);
      ExecOwners(mem, id, r);
      TurnOwners(next.0, id, next.1, quota - 1);
    }
  }

  /** A step's only change of writer is a cell taken by the stepping agent. */
  lemma ExecOwners(mem: Mem, id: string, r: Regs)
    requires Sized(mem)
    ensures var res := Exec(mem, id, r);
            forall c :: 0 <= c < |mem.owners| ==>
              res.0.owners[c] == mem.owners[c] || res.0.owners[c] == Some(id)
  {
    ExecWrites(mem, id, r);
    var m := |mem.bytes|;
    if r.alive && OpAt(mem, r) == STORE {
      WriteCellOneCell(mem, Rd32(mem.bytes, r.pc % m + 1) % m, r.a, Some(id));
    } else if r.alive && OpAt(mem, r) == STOREI {
      WriteCellOneCell(mem, r.p % m, r.a, Some(id));
    }
  }

  /** The step phase for one agent: a dead agent is skipped (and keeps its
      `cpu_used`); a live one has `cpu_used` reset and takes its turn. */
  function StepOne(mem: Mem, b: Body, quota: nat): (res: (Mem, Body))
    requires Sized(mem)
    ensures Sized(res.0) && |res.0.bytes| == |mem.bytes| && res.1.id == b.id
  {
    if !b.regs.alive then (mem, b)
    else
      var turn := Turn(mem, b.id, b.regs, quota);
      (turn.0, Body(b.id, turn.1, turn.2))
  }

  /** The step phase: the agents take their turns in order on the shared arena. */
  function StepAll(mem: Mem, bodies: seq<Body>, quota: nat): (res: (Mem, seq<Body>))
    requires Sized(mem) || bodies == []
    ensures |res.0.bytes| == |mem.bytes| && |res.0.owners| == |mem.owners| && |res.1| == |bodies|
    ensures Sized(mem) ==> Sized(res.0)
    ensures forall i :: 0 <= i < |bodies| ==> res.1[i].id == bodies[i].id
  {
    if bodies == [] then (mem, [])
    else
      var before := StepAll(mem, bodies[..|bodies| - 1], quota);
      var last := StepOne(before.0, bodies[|bodies| - 1], quota);
      (last.0, before.1 + [last.1])
  }

  /** In the step phase a dead agent is untouched, and a live one takes between
      one and `quota` steps, fewer than `quota` only if it died. */
  lemma {:induction false} StepAllQuota(mem: Mem, bodies: seq<Body>, quota: nat)
    requires Sized(mem) || bodies == []
    ensures var after := StepAll(mem, bodies, quota).1;
            forall i :: 0 <= i < |bodies| ==>
              if bodies[i].regs.alive then
                (quota > 0 ==> 1 <= after[i].cpuUsed) && after[i].cpuUsed <= quota
                && (after[i].cpuUsed < quota ==> !after[i].regs.alive)
              else after[i] == bodies[i]
  {
    if bodies != [] {
      var n := |bodies|;
      var before := StepAll(mem, bodies[..n - 1], quota);
      StepAllQuota(mem, bodies[..n - 1], quota);
      TurnQuota(before.0, bodies[n - 1].id, bodies[n - 1].regs, quota);
    }
  }

  // ---------------------------------------------------------------------------
  // Statistics and scoring

  /** `Counter(writer).get(id, 0)`: the cells whose writer is `id`. */
  function Owned(owners: seq<Option<string>>, id: string): (n: nat)
    ensures n <= |owners|
  {
    if owners == [] then 0
    else Owned(owners[..|owners| - 1], id) + (if owners[|owners| - 1] == Some(id) then 1 else 0)
  }

  /** The cells whose writer is `id`. */
  function OwnedSet(owners: seq<Option<string>>, id: string): set<nat> {
    set c: nat | c < |owners| && owners[c] == Some(id)
  }

  /** The count agrees with the set of cells written by `id`. */
  lemma {:induction false} OwnedCells(owners: seq<Option<string>>, id: string)
    ensures Owned(owners, id) == |OwnedSet(owners, id)|
  {
    if owners != [] {
      var n := |owners|;
      OwnedCells(owners[..n - 1], id);
      assert OwnedSet(owners[..n - 1], id) == set c: nat | c < n - 1 && owners[c] == Some(id);
      if owners[n - 1] == Some(id) {
        assert OwnedSet(owners, id) == OwnedSet(owners[..n - 1], id) + {n - 1};
      } else {
        assert OwnedSet(owners, id) == OwnedSet(owners[..n - 1], id);
      }
    }
  }

  predicate AllKnown(stats: map<string, Stats>, bodies: seq<Body>) {
    forall i :: 0 <= i < |bodies| ==> bodies[i].id in stats
  }

  /** `alive_ticks`, `total_cpu` and `total_mem_writes` after a tick. */
  function Activity(stats: map<string, Stats>, bodies: seq<Body>): (r: map<string, Stats>)
    requires AllKnown(stats, bodies)
    ensures r.Keys == stats.Keys
  {
    if bodies == [] then stats
    else
      var s := Activity(stats, bodies[..|bodies| - 1]);
      var b := bodies[|bodies| - 1];
      s[b.id := ActiveEntry(s[b.id], b)]
  }

  /** One agent's `alive_ticks`, `total_cpu` and `total_mem_writes` after a
      tick. */
  function ActiveEntry(st: Stats, b: Body): Stats {
    st.(aliveTicks := st.aliveTicks + (if b.regs.alive then 1 else 0),
        totalCpu := st.totalCpu + b.cpuUsed,
        totalMemWrites := b.regs.memWrites)
  }

  /** The territory statistics after a tick: last, running sum and maximum of
      the cells an agent owns. */
  function TerritoryStats(stats: map<string, Stats>, bodies: seq<Body>, owners: seq<Option<string>>): (r: map<string, Stats>)
    requires AllKnown(stats, bodies)
    ensures r.Keys == stats.Keys
  {
    if bodies == [] then stats
    else
      var s := TerritoryStats(stats, bodies[..|bodies| - 1], owners);
      var b := bodies[|bodies| - 1];
      s[b.id := TerritoryEntry(s[b.id], Owned(owners, b.id))]
  }

  /** One agent's territory statistics after a tick in which it owns `cells`
      cells. */
  function TerritoryEntry(st: Stats, cells: nat): Stats {
    st.(territoryLast := cells, territorySum := st.territorySum + cells,
        territoryMax := if cells > st.territoryMax then cells else st.territoryMax)
  }

  /** `Activity` over one more agent updates that agent's entry. */
  lemma ActivityStep(stats: map<string, Stats>, bodies: seq<Body>, i: nat)
    requires AllKnown(stats, bodies) && i < |bodies|
    ensures var s := Activity(stats, bodies[..i]);
            Activity(stats, bodies[..i + 1]) == s[bodies[i].id := ActiveEntry(s[bodies[i].id], bodies[i])]
  {
    assert bodies[..i + 1][..i] == bodies[..i];
  }

  /** `TerritoryStats` over one more agent updates that agent's entry. */
  lemma TerritoryStep(stats: map<string, Stats>, bodies: seq<Body>, owners: seq<Option<string>>, i: nat)
    requires AllKnown(stats, bodies) && i < |bodies|
    ensures var s := TerritoryStats(stats, bodies[..i], owners);
            TerritoryStats(stats, bodies[..i + 1], owners)
            == s[bodies[i].id := TerritoryEntry(s[bodies[i].id], Owned(owners, bodies[i].id))]
  {
    assert bodies[..i + 1][..i] == bodies[..i];
  }

  predicate DistinctIds(bodies: seq<Body>) {
    forall i, j :: 0 <= i < j < |bodies| ==> bodies[i].id != bodies[j].id
  }

  /** With distinct ids, each agent's counters move by its own tick: one more
      alive tick only if it is alive, its steps added to the CPU total, and its
      write count copied. */
  lemma {:induction false} ActivityPerAgent(stats: map<string, Stats>, bodies: seq<Body>, i: nat)
    requires AllKnown(stats, bodies) && DistinctIds(bodies) && i < |bodies|
    ensures var b := bodies[i];
            var before := stats[b.id];
            var after := Activity(stats, bodies)[b.id];
            after.aliveTicks == before.aliveTicks + (if b.regs.alive then 1 else 0)
            && after.totalCpu == before.totalCpu + b.cpuUsed
            && after.totalMemWrites == b.regs.memWrites
            && after.kills == before.kills && after.deaths == before.deaths
  {
    var n := |bodies|;
    if i < n - 1 {
      ActivityPerAgent(stats, bodies[..n - 1], i);
    } else {
      ActivityUntouched(stats, bodies[..n - 1], bodies[i].id);
    }
  }

  /** An id no agent of the list has keeps its entry. */
  lemma {:induction false} ActivityUntouched(stats: map<string, Stats>, bodies: seq<Body>, id: string)
    requires AllKnown(stats, bodies) && id in stats
    requires forall i :: 0 <= i < |bodies| ==> bodies[i].id != id
    ensures Activity(stats, bodies)[id] == stats[id]
  {
    if bodies != [] {
      ActivityUntouched(stats, bodies[..|bodies| - 1], id);
    }
  }

  /** Alive scoring: each live agent gains the alive weight. */
  function AliveScores(score: map<string, int>, bodies: seq<Body>, w: Weights): map<string, int> {
    if bodies == [] then score
    else
      var s := AliveScores(score, bodies[..|bodies| - 1], w);
      var b := bodies[|bodies| - 1];
      if b.regs.alive then Credit(s, b.id, w.alive) else s
  }

  /** The territory buckets an agent holds. */
  function Buckets(owners: seq<Option<string>>, id: string, w: Weights): nat {
    Owned(owners, id) / (if w.territoryBucket > 1 then w.territoryBucket else 1)
  }

  /** `_apply_territory_scoring`: nothing when the territory weight is not
      positive; otherwise each agent holding a bucket gains buckets times the
      weight. */
  function TerritoryScores(score: map<string, int>, bodies: seq<Body>, owners: seq<Option<string>>, w: Weights): map<string, int> {
    if w.territory <= 0 || bodies == [] then score
    else TerritoryOne(TerritoryScores(score, bodies[..|bodies| - 1], owners, w), bodies[|bodies| - 1], owners, w)
  }

  /** Territory scoring for one agent. */
  function TerritoryOne(score: map<string, int>, b: Body, owners: seq<Option<string>>, w: Weights): map<string, int> {
    var buckets := Buckets(owners, b.id, w);
    if buckets != 0 then Credit(score, b.id, buckets * w.territory) else score
  }

  lemma TerritoryOneEffect(score: map<string, int>, b: Body, owners: seq<Option<string>>, w: Weights, k: string)
    ensures Get(TerritoryOne(score, b, owners, w), k)
            == Get(score, k) + (if b.id == k then Buckets(owners, k, w) * w.territory else 0)
  {
  }

  lemma MulSucc(c: nat, g: int)
    ensures (c + 1) * g == c * g + g
  {
  }

  /** How many agents of the list have id `k`. */
  function IdCount(bodies: seq<Body>, k: string): nat {
    if bodies == [] then 0
    else IdCount(bodies[..|bodies| - 1], k) + (if bodies[|bodies| - 1].id == k then 1 else 0)
  }

  /** How many live agents of the list have id `k`. */
  function LiveIdCount(bodies: seq<Body>, k: string): nat {
    if bodies == [] then 0
    else
      var b := bodies[|bodies| - 1];
      LiveIdCount(bodies[..|bodies| - 1], k) + (if b.id == k && b.regs.alive then 1 else 0)
  }

  /** Alive scoring gives `k` the alive weight once per live agent named `k`
      (once, when ids are distinct). */
  lemma {:induction false} AliveScoresGain(score: map<string, int>, bodies: seq<Body>, w: Weights, k: string)
    ensures Get(AliveScores(score, bodies, w), k) == Get(score, k) + LiveIdCount(bodies, k) * w.alive
  {
    if bodies != [] {
      var n := |bodies|;
      AliveScoresGain(score, bodies[..n - 1], w, k);
      MulSucc(LiveIdCount(bodies[..n - 1], k), w.alive);
    }
  }

  /** Territory scoring gives nothing when the weight is not positive, and
      otherwise gives `k` its buckets times the weight once per agent named
      `k`. */
  lemma {:induction false} TerritoryScoresGain(score: map<string, int>, bodies: seq<Body>, owners: seq<Option<string>>, w: Weights, k: string)
    ensures Get(TerritoryScores(score, bodies, owners, w), k)
            == Get(score, k) + (if w.territory > 0 then IdCount(bodies, k) * (Buckets(owners, k, w) * w.territory) else 0)
  {
    if bodies != [] && w.territory > 0 {
      var n := |bodies|;
      TerritoryScoresGain(score, bodies[..n - 1], owners, w, k);
      TerritoryOneEffect(TerritoryScores(score, bodies[..n - 1], owners, w), bodies[n - 1], owners, w, k);
      MulSucc(IdCount(bodies[..n - 1], k), Buckets(owners, k, w) * w.territory);
    }
  }

  // ---------------------------------------------------------------------------
  // Kill attribution

  /** Whether the agent was alive at the end of the previous tick and is dead
      now; an agent never seen counts as having been alive. */
  predicate Died(alivePrev: map<string, bool>, b: Body) {
    (if b.id in alivePrev then alivePrev[b.id] else true) && !b.regs.alive
  }

  /** The writer of the cell the dead agent's `pc` points at. */
  function KillerOf(owners: seq<Option<string>>, b: Body): Option<string>
    requires |owners| > 0
  {
    owners[b.regs.pc % |owners|]
  }

  /** A kill is credited to a non-empty writer other than the victim. */
  predicate Credits(killer: Option<string>, victim: string) {
    killer.Some? && killer.value != "" && killer.value != victim
  }

  datatype Tally = Tally(score: map<string, int>, stats: map<string, Stats>, events: seq<Event>)

  predicate OwnersKnown(stats: map<string, Stats>, owners: seq<Option<string>>) {
    forall c :: 0 <= c < |owners| && owners[c].Some? ==> owners[c].value in stats
  }

  /** Kill attribution for one agent. */
  function AttributeOne(t: Tally, alivePrev: map<string, bool>, owners: seq<Option<string>>, b: Body, w: Weights): (r: Tally)
    requires |owners| > 0 && b.id in t.stats && OwnersKnown(t.stats, owners)
    ensures r.stats.Keys == t.stats.Keys
  {
    if !Died(alivePrev, b) then t
    else
      var killer := KillerOf(owners, b);
      if Credits(killer, b.id) then
        var k := killer.value;
        var s1 := t.stats[k := t.stats[k].(kills := t.stats[k].kills + 1)];
        var s2 := s1[b.id := s1[b.id].(deaths := s1[b.id].deaths + 1)];
        Tally(Credit(t.score, k, w.kill), s2, t.events + [Kill(b.id, k)])
      else
        Tally(t.score, t.stats[b.id := t.stats[b.id].(deaths := t.stats[b.id].deaths + 1)],
              t.events + [Death(b.id)])
  }

  /** Kill attribution over the agents in order. */
  function Attribute(t: Tally, alivePrev: map<string, bool>, owners: seq<Option<string>>, bodies: seq<Body>, w: Weights): (r: Tally)
    requires (|owners| > 0 || bodies == []) && AllKnown(t.stats, bodies) && OwnersKnown(t.stats, owners)
    ensures r.stats.Keys == t.stats.Keys
  {
    if bodies == [] then t
    else
      var before := Attribute(t, alivePrev, owners, bodies[..|bodies| - 1], w);
      AttributeOne(before, alivePrev, owners, bodies[|bodies| - 1], w)
  }

  /** Agents that died this tick. */
  function DiedCount(alivePrev: map<string, bool>, bodies: seq<Body>): nat {
    if bodies == [] then 0
    else DiedCount(alivePrev, bodies[..|bodies| - 1]) + (if Died(alivePrev, bodies[|bodies| - 1]) then 1 else 0)
  }

  /** Agents that died this tick on a cell written by `k`, a kill for `k`. */
  function KillsBy(alivePrev: map<string, bool>, owners: seq<Option<string>>, bodies: seq<Body>, k: string): nat
    requires |owners| > 0 || bodies == []
  {
    if bodies == [] then 0
    else
      var b := bodies[|bodies| - 1];
      KillsBy(alivePrev, owners, bodies[..|bodies| - 1], k)
      + (if KilledBy(alivePrev, owners, b, k) then 1 else 0)
  }

  /** Whether agent `b` died this tick on a cell written by `k`. */
  predicate KilledBy(alivePrev: map<string, bool>, owners: seq<Option<string>>, b: Body, k: string)
    requires |owners| > 0
  {
    Died(alivePrev, b) && Credits(KillerOf(owners, b), b.id) && KillerOf(owners, b).value == k
  }

  /** Kill attribution over one more agent is kill attribution for that
      agent after the ones before it. */
  lemma AttributeSnoc(t: Tally, alivePrev: map<string, bool>, owners: seq<Option<string>>, bodies: seq<Body>, w: Weights, i: nat)
    requires (|owners| > 0 || bodies == []) && AllKnown(t.stats, bodies) && OwnersKnown(t.stats, owners)
    requires i < |bodies|
    ensures Attribute(t, alivePrev, owners, bodies[..i + 1], w)
            == AttributeOne(Attribute(t, alivePrev, owners, bodies[..i], w), alivePrev, owners, bodies[i], w)
  {
    assert bodies[..i + 1][..i] == bodies[..i];
  }

  /** Kill attribution for one agent: one event if it died, and the kill and
      its weight for the writer it died on. */
  lemma AttributeOneEffect(t: Tally, alivePrev: map<string, bool>, owners: seq<Option<string>>, b: Body, w: Weights, k: string)
    requires |owners| > 0 && b.id in t.stats && OwnersKnown(t.stats, owners)
    ensures var r := AttributeOne(t, alivePrev, owners, b, w);
            |r.events| == |t.events| + (if Died(alivePrev, b) then 1 else 0)
            && Get(r.score, k) == Get(t.score, k) + (if KilledBy(alivePrev, owners, b, k) then w.kill else 0)
            && (k in t.stats ==>
                  r.stats[k].kills == t.stats[k].kills + (if KilledBy(alivePrev, owners, b, k) then 1 else 0))
  {
  }

  /** One event per agent that died this tick. */
  lemma {:induction false} AttributeEvents(t: Tally, alivePrev: map<string, bool>, owners: seq<Option<string>>, bodies: seq<Body>, w: Weights)
    requires (|owners| > 0 || bodies == []) && AllKnown(t.stats, bodies) && OwnersKnown(t.stats, owners)
    ensures |Attribute(t, alivePrev, owners, bodies, w).events| == |t.events| + DiedCount(alivePrev, bodies)
  {
    if bodies != [] {
      var n := |bodies|;
      AttributeEvents(t, alivePrev, owners, bodies[..n - 1], w);
      AttributeOneEffect(Attribute(t, alivePrev, owners, bodies[..n - 1], w), alivePrev, owners, bodies[n - 1], w, "");
    }
  }

  /** Each writer is credited one kill for each agent that died this tick on a
      cell it wrote. */
  lemma {:induction false} AttributeKills(t: Tally, alivePrev: map<string, bool>, owners: seq<Option<string>>, bodies: seq<Body>, w: Weights, k: string)
    requires (|owners| > 0 || bodies == []) && AllKnown(t.stats, bodies) && OwnersKnown(t.stats, owners) && k in t.stats
    ensures Attribute(t, alivePrev, owners, bodies, w).stats[k].kills
            == t.stats[k].kills + KillsBy(alivePrev, owners, bodies, k)
  {
    if bodies != [] {
      var n := |bodies|;
      AttributeKills(t, alivePrev, owners, bodies[..n - 1], w, k);
      AttributeOneEffect(Attribute(t, alivePrev, owners, bodies[..n - 1], w), alivePrev, owners, bodies[n - 1], w, k);
    }
  }

  /** Each writer gains the kill weight for each of those kills. */
  lemma {:induction false} AttributeScores(t: Tally, alivePrev: map<string, bool>, owners: seq<Option<string>>, bodies: seq<Body>, w: Weights, k: string)
    requires (|owners| > 0 || bodies == []) && AllKnown(t.stats, bodies) && OwnersKnown(t.stats, owners)
    ensures Get(Attribute(t, alivePrev, owners, bodies, w).score, k)
            == Get(t.score, k) + KillsBy(alivePrev, owners, bodies, k) * w.kill
  {
    if bodies != [] {
      var n := |bodies|;
      AttributeScores(t, alivePrev, owners, bodies[..n - 1], w, k);
      AttributeOneEffect(Attribute(t, alivePrev, owners, bodies[..n - 1], w), alivePrev, owners, bodies[n - 1], w, k);
      MulSucc(KillsBy(alivePrev, owners, bodies[..n - 1], k), w.kill);
    }
  }

  /** Kill attribution for one agent adds a death to that agent alone, and
      only when it died this tick. */
  lemma AttributeOneDeaths(t: Tally, alivePrev: map<string, bool>, owners: seq<Option<string>>, b: Body, w: Weights, id: string)
    requires |owners| > 0 && b.id in t.stats && OwnersKnown(t.stats, owners) && id in t.stats
    ensures AttributeOne(t, alivePrev, owners, b, w).stats[id].deaths
            == t.stats[id].deaths + (if id == b.id && Died(alivePrev, b) then 1 else 0)
  {
  }

  /** With distinct ids, each agent's death count grows by one exactly when it
      died this tick. */
  lemma {:induction false} AttributeDeaths(t: Tally, alivePrev: map<string, bool>, owners: seq<Option<string>>, bodies: seq<Body>, w: Weights, i: nat)
    requires (|owners| > 0 || bodies == []) && AllKnown(t.stats, bodies) && OwnersKnown(t.stats, owners)
    requires DistinctIds(bodies) && i < |bodies|
    ensures var id := bodies[i].id;
            Attribute(t, alivePrev, owners, bodies, w).stats[id].deaths
            == t.stats[id].deaths + (if Died(alivePrev, bodies[i]) then 1 else 0)
  {
    var n := |bodies|;
    var id := bodies[i].id;
    var before := Attribute(t, alivePrev, owners, bodies[..n - 1], w);
    if i < n - 1 {
      assert bodies[..n - 1][i] == bodies[i];
      AttributeDeaths(t, alivePrev, owners, bodies[..n - 1], w, i);
      assert bodies[n - 1].id != id;
    } else {
      AttributeDeathsUntouched(t, alivePrev, owners, bodies[..n - 1], w, id);
    }
    AttributeOneDeaths(before, alivePrev, owners, bodies[n - 1], w, id);
  }

  /** An id no agent of the list has keeps its death count. */
  lemma {:induction false} AttributeDeathsUntouched(t: Tally, alivePrev: map<string, bool>, owners: seq<Option<string>>, bodies: seq<Body>, w: Weights, id: string)
    requires (|owners| > 0 || bodies == []) && AllKnown(t.stats, bodies) && OwnersKnown(t.stats, owners) && id in t.stats
    requires forall i :: 0 <= i < |bodies| ==> bodies[i].id != id
    ensures Attribute(t, alivePrev, owners, bodies, w).stats[id].deaths == t.stats[id].deaths
  {
    if bodies != [] {
      var n := |bodies|;
      AttributeDeathsUntouched(t, alivePrev, owners, bodies[..n - 1], w, id);
      AttributeOneDeaths(Attribute(t, alivePrev, owners, bodies[..n - 1], w), alivePrev, owners, bodies[n - 1], w, id);
    }
  }

  /** `_alive_prev` after a tick. */
  function Remember(alivePrev: map<string, bool>, bodies: seq<Body>): map<string, bool> {
    if bodies == [] then alivePrev
    else
      var b := bodies[|bodies| - 1];
      Remember(alivePrev, bodies[..|bodies| - 1])[b.id := b.regs.alive]
  }

  /** With distinct ids, `_alive_prev` records each agent's own liveness. */
  lemma {:induction false} RememberEach(alivePrev: map<string, bool>, bodies: seq<Body>, i: nat)
    requires DistinctIds(bodies) && i < |bodies|
    ensures var r := Remember(alivePrev, bodies);
            bodies[i].id in r && r[bodies[i].id] == bodies[i].regs.alive
  {
    var n := |bodies|;
    if i < n - 1 {
      RememberEach(alivePrev, bodies[..n - 1], i);
    }
  }

  /** An id no agent of the list has keeps its entry, or its absence. */
  lemma {:induction false} RememberUntouched(alivePrev: map<string, bool>, bodies: seq<Body>, id: string)
    requires forall i :: 0 <= i < |bodies| ==> bodies[i].id != id
    ensures var r := Remember(alivePrev, bodies);
            (id in r <==> id in alivePrev) && (id in r ==> r[id] == alivePrev[id])
  {
    if bodies != [] {
      RememberUntouched(alivePrev, bodies[..|bodies| - 1], id);
    }
  }

  /** The ids of the live agents, in agent order. */
  function AliveIds(bodies: seq<Body>): (ids: seq<string>)
    ensures |ids| <= |bodies|
  {
    if bodies == [] then []
    else
      var b := bodies[|bodies| - 1];
      AliveIds(bodies[..|bodies| - 1]) + (if b.regs.alive then [b.id] else [])
  }

  // ---------------------------------------------------------------------------
  // The winner

  /** `k` has the strictly highest score. */
  predicate Leads(score: map<string, int>, k: string) {
    k in score && forall j :: j in score && j != k ==> score[j] < score[k]
  }

  /** `(win_mode or "score_fallback").lower()` */
  function ModeOf(winMode: string): string {
    Text.Lower(if winMode == "" then "score_fallback" else winMode)
  }

  /** The winner: the sole survivor; otherwise none in survival mode;
      otherwise the agent with the strictly highest score, and none when the
      top score is shared or nobody scored. */
  predicate IsWinner(alive: seq<string>, mode: string, score: map<string, int>, winner: string) {
    if |alive| == 1 then winner == alive[0]
    else if mode == "survival" then winner == ""
    else if exists k :: k in score && Leads(score, k) then Leads(score, winner)
    else winner == ""
  }

  /** At most one agent leads, so the winner rule picks one name. */
  lemma WinnerUnique(alive: seq<string>, mode: string, score: map<string, int>, w1: string, w2: string)
    requires IsWinner(alive, mode, score, w1) && IsWinner(alive, mode, score, w2)
    ensures w1 == w2
  {
    if |alive| != 1 && mode != "survival" && exists k :: k in score && Leads(score, k) {
      if w1 != w2 {
        assert false;
      }
    }
  }

  /** Winner resolution. The source sorts the scores by (-score, id) and takes
      the first unless the second has the same score; scanning for the
      highest score and whether it is shared decides the same. */
  method ResolveWinner(alive: seq<string>, mode: string, score: map<string, int>) returns (winner: string)
    ensures IsWinner(alive, mode, score, winner)
  {
    if |alive| == 1 {
      return alive[0];
    }
    if mode == "survival" {
      return "";
    }
    winner := "";
    if score == map[] {
      return;
    }
    var rest := score.Keys;
    var top :| top in rest;
    rest := rest - {top};
    var tied := false;
    while rest != {}
      invariant rest <= score.Keys && top in score && top !in rest
      invariant forall j :: j in score && j !in rest ==> score[j] <= score[top]
      invariant tied <==> exists j :: j in score && j !in rest && j != top && score[j] == score[top]
      decreases rest
    {
      var k :| k in rest;
      if score[k] > score[top] {
        top := k;
        tied := false;
      } else if score[k] == score[top] {
        tied := true;
      }
      rest := rest - {k};
    }
    if !tied {
      winner := top;
    } else {
      forall x
        ensures !Leads(score, x)
      {
        if x != top && x in score {
          assert score[x] <= score[top];
        }
      }
    }
  }

  // ---------------------------------------------------------------------------
  // The kernel

  // ---------------------------------------------------------------------------
  // One tick and the tick loop, as values

  /** The kernel's state: the arena, the agents and the `score`,
      `_alive_prev` and `stats` tables, and the current tick. */
  datatype World = World(mem: Mem, bodies: seq<Body>, score: map<string, int>,
                         alivePrev: map<string, bool>, stats: map<string, Stats>, tick: int)

  /** What holds between ticks: the writer list is as long as the arena, which
      is non-empty once there are agents; every agent and every recorded
      writer has a stats entry. */
  predicate Coherent(w: World) {
    (Sized(w.mem) || (w.bodies == [] && |w.mem.owners| == |w.mem.bytes|))
    && AllKnown(w.stats, w.bodies) && OwnersKnown(w.stats, w.mem.owners)
  }

  /** After the step phase every cell's writer still has a stats entry. */
  lemma {:induction false} StepAllOwners(mem: Mem, bodies: seq<Body>, quota: nat, stats: map<string, Stats>)
    requires Sized(mem) || bodies == []
    requires AllKnown(stats, bodies) && OwnersKnown(stats, mem.owners)
    ensures OwnersKnown(stats, StepAll(mem, bodies, quota).0.owners)
  {
    if bodies != [] {
      var n := |bodies|;
      var before := StepAll(mem, bodies[..n - 1], quota);
      StepAllOwners(mem, bodies[..n - 1], quota, stats);
      if bodies[n - 1].regs.alive {
        TurnOwners(before.0, bodies[n - 1].id, bodies[n - 1].regs, quota);
      }
    }
  }

  /** The start of tick `t`: set the tick, clear the write log, and step the
      agents. */
  function Advanced(cfg: Config, w: World, t: int): (r: World)
    requires Coherent(w)
    ensures Coherent(r)
  {
    var stepped := StepAll(w.mem.(diffs := []), w.bodies, Quota(cfg.instrPerTick));
    StepAllOwners(w.mem.(diffs := []), w.bodies, Quota(cfg.instrPerTick), w.stats);
    w.(mem := stepped.0, bodies := stepped.1, tick := t)
  }

  lemma AdvancedIs(cfg: Config, w: World, t: int)
    requires Coherent(w)
    ensures Advanced(cfg, w, t)
            == w.(mem := StepAll(w.mem.(diffs := []), w.bodies, Quota(cfg.instrPerTick)).0,
                  bodies := StepAll(w.mem.(diffs := []), w.bodies, Quota(cfg.instrPerTick)).1, tick := t)
  {
  }

  /** Tables with the same keys know the same ids. */
  lemma SameKeysKnown(s1: map<string, Stats>, s2: map<string, Stats>, bodies: seq<Body>, owners: seq<Option<string>>)
    requires s1.Keys == s2.Keys && AllKnown(s1, bodies) && OwnersKnown(s1, owners)
    ensures AllKnown(s2, bodies) && OwnersKnown(s2, owners)
  {
  }

  /** The statistics update of a tick: activity, then territory. */
  function Counted(w: World): (r: World)
    requires Coherent(w)
    ensures Coherent(r)
  {
    var stats := TerritoryStats(Activity(w.stats, w.bodies), w.bodies, w.mem.owners);
    SameKeysKnown(w.stats, stats, w.bodies, w.mem.owners);
    w.(stats := stats)
  }

  /** The scoring of a tick: survival, then territory. */
  function Scored(cfg: Config, w: World): World {
    w.(score := TerritoryScores(AliveScores(w.score, w.bodies, cfg.weights), w.bodies, w.mem.owners, cfg.weights))
  }

  /** Kill attribution of a tick, with the tick's events. */
  function Attributed(cfg: Config, w: World): (res: (World, seq<Event>))
    requires Coherent(w)
    ensures Coherent(res.0)
  {
    var tally := Attribute(Tally(w.score, w.stats, []), w.alivePrev, w.mem.owners, w.bodies, cfg.weights);
    SameKeysKnown(w.stats, tally.stats, w.bodies, w.mem.owners);
    (w.(score := tally.score, stats := tally.stats), tally.events)
  }

  /** The end of a tick: `_alive_prev` takes each agent's liveness. */
  function Remembered(w: World): World {
    w.(alivePrev := Remember(w.alivePrev, w.bodies))
  }

  /** One pass of the body of `run`'s tick loop, for tick `t`: step the
      agents, update the statistics, score survival and territory, attribute
      kills, remember who is alive. Also returns the tick's events. */
  function TickWorld(cfg: Config, w: World, t: int): (res: (World, seq<Event>))
    requires Coherent(w)
  {
    var attributed := Attributed(cfg, Scored(cfg, Counted(Advanced(cfg, w, t))));
    (Remembered(attributed.0), attributed.1)
  }

  /** A tick keeps the kernel coherent, keeps the agents and their ids, leaves
      dead agents untouched, and sets the tick number. */
  lemma TickKeeps(cfg: Config, w: World, t: int)
    requires Coherent(w)
    ensures var next := TickWorld(cfg, w, t).0;
            Coherent(next) && next.tick == t && |next.bodies| == |w.bodies|
            && |next.mem.bytes| == |w.mem.bytes|
            && (forall i :: 0 <= i < |w.bodies| ==> next.bodies[i].id == w.bodies[i].id)
            && (forall i :: 0 <= i < |w.bodies| && !w.bodies[i].regs.alive ==> next.bodies[i] == w.bodies[i])
  {
    var q := Quota(cfg.instrPerTick);
    StepAllOwners(w.mem.(diffs := []), w.bodies, q, w.stats);
    StepAllQuota(w.mem.(diffs := []), w.bodies, q);
  }

  /** `run`'s tick loop from tick `t` on: stop after tick `maxTicks`, or after
      a tick that leaves at most one agent alive. */
  function RunWorld(cfg: Config, w: World, t: int, maxTicks: int): World
    requires Coherent(w)
    decreases maxTicks - t
  {
    if t > maxTicks then w
    else
      TickKeeps(cfg, w, t);
      var next := TickWorld(cfg, w, t).0;
      if |AliveIds(next.bodies)| <= 1 then next else RunWorld(cfg, next, t + 1, maxTicks)
  }

  /** Unfolding one tick of the loop. */
  lemma RunWorldStep(cfg: Config, w: World, t: int, maxTicks: int)
    requires Coherent(w) && t <= maxTicks
    ensures Coherent(TickWorld(cfg, w, t).0)
    ensures RunWorld(cfg, w, t, maxTicks)
            == if |AliveIds(TickWorld(cfg, w, t).0.bodies)| <= 1 then TickWorld(cfg, w, t).0
               else RunWorld(cfg, TickWorld(cfg, w, t).0, t + 1, maxTicks)
  {
    TickKeeps(cfg, w, t);
  }

  class Kernel {
    const cfg: Config
    const vm: VM
    const instrPerTick: int
    var agents: seq<Agent>
    var tick: int
    var score: map<string, int>
    var alivePrev: map<string, bool>
    var stats: map<string, Stats>

    /** The arena and the step quota match the configuration, and the agents
        are distinct objects. */
    ghost predicate Shape()
      reads this`agents, vm
    {
      vm.Valid() && vm.arena.Length == cfg.arenaSize && instrPerTick == cfg.instrPerTick
      && (forall i, j :: 0 <= i < j < |agents| ==> agents[i] != agents[j])
    }

    /** The shape holds and the state is coherent: every agent and every
        recorded writer has a stats entry. */
    ghost predicate Valid()
      reads this, vm, vm.arena, vm.writer, agents
    {
      Shape() && Coherent(Current())
    }

    /** The agents as values, in order. */
    ghost function Bodies(): (bs: seq<Body>)
      reads this`agents, agents
      ensures |bs| == |agents|
    {
      BodiesOf(agents)
    }

    static ghost function BodiesOf(objs: seq<Agent>): (bs: seq<Body>)
      reads objs
      ensures |bs| == |objs|
    {
      seq(|objs|, i reads objs requires 0 <= i < |objs| =>
        Body(objs[i].id, objs[i].State(), objs[i].cpuUsed))
    }

    /** The kernel's state as a value. */
    ghost function Current(): World
      reads this, vm, vm.arena, vm.writer, agents
    {
      World(vm.State(), Bodies(), score, alivePrev, stats, tick)
    }

    constructor(cfg: Config)
      ensures Valid() && this.cfg == cfg && instrPerTick == cfg.instrPerTick && fresh(vm)
      ensures agents == [] && tick == 0 && score == map[] && alivePrev == map[] && stats == map[]
      ensures vm.State() == Mem(seq(cfg.arenaSize, _ => NOP), seq(cfg.arenaSize, _ => None), [])
    {
      this.cfg := cfg;
      vm := new VM(cfg.arenaSize);
      instrPerTick := cfg.instrPerTick;
      agents := [];
      tick := 0;
      score := map[];
      alivePrev := map[];
      stats := map[];
    }

    /** `spawn`: load the code from `entry`, start a new agent at the region's
        first cell, and open its score (kept if present), liveness and stats. */
    method Spawn(agentId: string, entry: int, code: seq<byte>)
      requires Valid() && cfg.arenaSize > 0
      modifies this, vm.arena, vm.writer
      ensures Valid()
      ensures |agents| == |old(agents)| + 1 && agents[..|old(agents)|] == old(agents)
      ensures fresh(agents[|agents| - 1]) && agents[|agents| - 1].id == agentId
      ensures agents[|agents| - 1].State() == Regs(entry % cfg.arenaSize, true, 0, 0, 0, 0)
      ensures agents[|agents| - 1].cpuUsed == 0
      ensures agents[|agents| - 1].region
              == (entry % cfg.arenaSize, RegionEnd(entry % cfg.arenaSize, |code|, cfg.arenaSize))
      ensures vm.arena[..] == Place(old(vm.arena[..]), entry % cfg.arenaSize, code)
      ensures vm.writer[..] == Place(old(vm.writer[..]), entry % cfg.arenaSize, Fill(|code|, Some(agentId)))
      ensures vm.tickDiffs == old(vm.tickDiffs) && tick == old(tick)
      ensures score == (if agentId in old(score) then old(score) else old(score)[agentId := 0])
      ensures alivePrev == old(alivePrev)[agentId := true]
      ensures stats == old(stats)[agentId := FreshStats]
    {
      Register(agentId);
      var s, e := LoadFor(agentId, entry, code);
      var a := new Agent(agentId, s, (s, e));
      Enlist(a);
    }

    /** The table entries `spawn` opens for an agent: its score (kept if
        present), its liveness and fresh stats. */
    method Register(agentId: string)
      requires Valid()
      modifies this`score, this`alivePrev, this`stats
      ensures Valid()
      ensures score == (if agentId in old(score) then old(score) else old(score)[agentId := 0])
      ensures alivePrev == old(alivePrev)[agentId := true]
      ensures stats == old(stats)[agentId := FreshStats]
    {
      if agentId !in score {
        score := score[agentId := 0];
      }
      alivePrev := alivePrev[agentId := true];
      stats := stats[agentId := FreshStats];
    }

    /** `load_code` on behalf of an agent that has a stats entry: its cells
        name a known writer, so the kernel stays coherent. */
    method LoadFor(agentId: string, entry: int, code: seq<byte>) returns (s: nat, e: nat)
      requires Valid() && cfg.arenaSize > 0 && agentId in stats
      modifies vm.arena, vm.writer
      ensures Valid()
      ensures s == entry % cfg.arenaSize && e == RegionEnd(s, |code|, cfg.arenaSize)
      ensures vm.arena[..] == Place(old(vm.arena[..]), s, code)
      ensures vm.writer[..] == Place(old(vm.writer[..]), s, Fill(|code|, Some(agentId)))
    {
      ghost var owners := vm.writer[..];
      s, e := vm.LoadCode(entry, code, Some(agentId));
      forall c | 0 <= c < vm.writer.Length && vm.writer[..][c].Some?
        ensures vm.writer[..][c].value in stats
      {
        PlaceFrom(owners, s, Fill(|code|, Some(agentId)), c);
      }
    }

    /** Appends a new agent whose id has a stats entry. */
    method Enlist(a: Agent)
      requires Valid() && cfg.arenaSize > 0 && a !in agents && a.id in stats
      modifies this`agents
      ensures Valid()
      ensures agents == old(agents) + [a]
    {
      ghost var agents0 := agents;
      forall i | 0 <= i < |agents0|
        ensures agents0[i].id in stats
      {
        assert Bodies()[i].id == agents0[i].id;
      }
      agents := agents + [a];
      forall i | 0 <= i < |agents|
        ensures Bodies()[i].id in stats
      {
        assert Bodies()[i].id == agents[i].id;
        if i < |agents0| {
          assert agents[i] == agents0[i];
        }
      }
      assert Shape();
    }

    /** One agent's part of the step phase: skipped when dead; otherwise
        `cpu_used` is reset and the agent steps until it dies or has taken
        `instr_per_tick` steps. */
    method TakeTurn(a: Agent)
      requires vm.Valid() && vm.arena.Length > 0
      modifies vm, vm.arena, vm.writer, a
      ensures vm.Valid()
      ensures (vm.State(), Body(a.id, a.State(), a.cpuUsed))
              == StepOne(old(vm.State()), Body(a.id, old(a.State()), old(a.cpuUsed)), Quota(instrPerTick))
    {
      if !a.alive {
        return;
      }
      a.cpuUsed := 0;
      ghost var mem0 := vm.State();
      ghost var regs0 := a.State();
      var quota := Quota(instrPerTick);
      for k := 0 to quota
        invariant vm.Valid() && a.cpuUsed == k
        invariant Turn(mem0, a.id, regs0, quota)
                  == (Turn(vm.State(), a.id, a.State(), quota - k).0,
                      Turn(vm.State(), a.id, a.State(), quota - k).1,
                      Turn(vm.State(), a.id, a.State(), quota - k).2 + k)
      {
        if !a.alive {
          break;
        }
        vm.Step(a);
        a.cpuUsed := a.cpuUsed + 1;
      }
    }

    /** Taking one more agent, at the front or the back. */
    static lemma BodiesOfSplit(objs: seq<Agent>, i: nat)
      requires i < |objs|
      ensures BodiesOf(objs[..i + 1]) == BodiesOf(objs[..i]) + [BodiesOf(objs)[i]]
      ensures BodiesOf(objs[i..]) == [BodiesOf(objs)[i]] + BodiesOf(objs[i + 1..])
    {
    }

    /** Agent `i`'s turn extends the step phase over the agents before it by
        one, and leaves the agents after it alone. */
    method TurnAt(i: nat, ghost mem0: Mem, ghost bodies0: seq<Body>)
      requires vm.Valid() && vm.arena.Length > 0 && Sized(mem0) && i < |agents| == |bodies0|
      requires forall j, l :: 0 <= j < l < |agents| ==> agents[j] != agents[l]
      requires BodiesOf(agents[i..]) == bodies0[i..]
      requires (vm.State(), BodiesOf(agents[..i])) == StepAll(mem0, bodies0[..i], Quota(instrPerTick))
      modifies vm, vm.arena, vm.writer, agents[i]
      ensures vm.Valid()
      ensures BodiesOf(agents[i + 1..]) == bodies0[i + 1..]
      ensures (vm.State(), BodiesOf(agents[..i + 1])) == StepAll(mem0, bodies0[..i + 1], Quota(instrPerTick))
    {
      assert bodies0[..i + 1][..i] == bodies0[..i];
      assert bodies0[i..][0] == bodies0[i] && bodies0[i..][1..] == bodies0[i + 1..];
      BodiesOfSplit(agents, i);
      var a := agents[i];
      assert a !in agents[..i] && a !in agents[i + 1..];
      TakeTurn(a);
      BodiesOfSplit(agents, i);
    }

    /** The step phase in place: the agents take their turns in order. */
    method StepAgents()
      requires vm.Valid() && (|agents| > 0 ==> vm.arena.Length > 0)
      requires forall j, l :: 0 <= j < l < |agents| ==> agents[j] != agents[l]
      modifies vm, vm.arena, vm.writer, agents
      ensures vm.Valid()
      ensures (vm.State(), Bodies()) == StepAll(old(vm.State()), old(Bodies()), Quota(instrPerTick))
    {
      ghost var mem0 := vm.State();
      ghost var bodies0 := Bodies();
      assert agents[0..] == agents;
      for i := 0 to |agents|
        invariant vm.Valid()
        invariant BodiesOf(agents[i..]) == bodies0[i..]
        invariant (vm.State(), BodiesOf(agents[..i])) == StepAll(mem0, bodies0[..i], Quota(instrPerTick))
      {
        TurnAt(i, mem0, bodies0);
      }
      assert agents[..|agents|] == agents;
      assert bodies0[..|agents|] == bodies0;
    }

    /** The statistics' activity update: a tick alive, the steps taken, the
        writes so far. */
    method RecordActivity()
      requires AllKnown(stats, Bodies())
      modifies this`stats
      ensures stats == Activity(old(stats), Bodies())
    {
      ghost var bodies := Bodies();
      for i := 0 to |agents|
        invariant stats == Activity(old(stats), bodies[..i])
      {
        ActivityStep(old(stats), bodies, i);
        var a := agents[i];
        assert bodies[i] == Body(a.id, a.State(), a.cpuUsed);
        var st := stats[a.id];
        st := st.(aliveTicks := st.aliveTicks + (if a.alive then 1 else 0),
                  totalCpu := st.totalCpu + a.cpuUsed,
                  totalMemWrites := a.memWrites);
        assert st == ActiveEntry(stats[a.id], bodies[i]);
        stats := stats[a.id := st];
      }
      assert bodies[..|agents|] == bodies;
    }

    /** The territory statistics: each agent's count of written cells. */
    method RecordTerritory()
      requires AllKnown(stats, Bodies())
      modifies this`stats
      ensures stats == TerritoryStats(old(stats), Bodies(), vm.writer[..])
    {
      ghost var bodies := Bodies();
      var owners := vm.writer[..];
      for i := 0 to |agents|
        invariant stats == TerritoryStats(old(stats), bodies[..i], owners)
      {
        TerritoryStep(old(stats), bodies, owners, i);
        var a := agents[i];
        assert bodies[i].id == a.id;
        var cells := Owned(owners, a.id);
        var st := stats[a.id];
        st := st.(territoryLast := cells, territorySum := st.territorySum + cells);
        if cells > st.territoryMax {
          st := st.(territoryMax := cells);
        }
        assert st == TerritoryEntry(stats[a.id], cells);
        stats := stats[a.id := st];
      }
      assert bodies[..|agents|] == bodies;
    }

    /** Survival scoring: each live agent gains the alive weight. */
    method ScoreAlive()
      modifies this`score
      ensures score == AliveScores(old(score), Bodies(), cfg.weights)
    {
      ghost var bodies := Bodies();
      for i := 0 to |agents|
        invariant score == AliveScores(old(score), bodies[..i], cfg.weights)
      {
        assert bodies[..i + 1][..i] == bodies[..i];
        var a := agents[i];
        assert bodies[i] == Body(a.id, a.State(), a.cpuUsed);
        if a.alive {
          score := score[a.id := Get(score, a.id) + cfg.weights.alive];
        }
      }
      assert bodies[..|agents|] == bodies;
    }

    /** `_apply_territory_scoring` */
    method ApplyTerritoryScoring()
      modifies this`score
      ensures score == TerritoryScores(old(score), Bodies(), vm.writer[..], cfg.weights)
    {
      if cfg.weights.territory <= 0 {
        return;
      }
      ghost var bodies := Bodies();
      var own := vm.writer[..];
      for i := 0 to |agents|
        invariant score == TerritoryScores(old(score), bodies[..i], own, cfg.weights)
      {
        assert bodies[..i + 1][..i] == bodies[..i];
        var a := agents[i];
        assert bodies[i] == Body(a.id, a.State(), a.cpuUsed);
        var cells := Owned(own, a.id);
        var buckets := cells / (if cfg.weights.territoryBucket > 1 then cfg.weights.territoryBucket else 1);
        if buckets != 0 {
          score := score[a.id := Get(score, a.id) + buckets * cfg.weights.territory];
        }
      }
      assert bodies[..|agents|] == bodies;
    }

    /** Kill attribution for agent `a`: if it was alive before the tick and is
        dead now, it gets a death, and the writer of the cell at its `pc`, when
        another agent, a kill and the kill weight; the event is logged. */
    method AttributeAgent(a: Agent, owners: seq<Option<string>>, events: seq<Event>) returns (logged: seq<Event>)
      requires |owners| > 0 && a.id in stats && OwnersKnown(stats, owners)
      modifies this`score, this`stats
      ensures Tally(score, stats, logged)
              == AttributeOne(Tally(old(score), old(stats), events), alivePrev, owners,
                              Body(a.id, a.State(), a.cpuUsed), cfg.weights)
    {
      logged := events;
      var wasAlive := if a.id in alivePrev then alivePrev[a.id] else true;
      if wasAlive && !a.alive {
        var killer := owners[a.pc % |owners|];
        if killer.Some? && killer.value != "" && killer.value != a.id {
          var k := killer.value;
          score := score[k := Get(score, k) + cfg.weights.kill];
          stats := stats[k := stats[k].(kills := stats[k].kills + 1)];
          stats := stats[a.id := stats[a.id].(deaths := stats[a.id].deaths + 1)];
          logged := logged + [Kill(a.id, k)];
        } else {
          stats := stats[a.id := stats[a.id].(deaths := stats[a.id].deaths + 1)];
          logged := logged + [Death(a.id)];
        }
      }
    }

    /** Kill attribution over the agents in order; returns the tick's events. */
    method Attribution() returns (events: seq<Event>)
      requires Valid()
      modifies this`score, this`stats
      ensures Valid()
      ensures (Current(), events) == Attributed(cfg, old(Current()))
    {
      var owners := vm.writer[..];
      events := AttributeAll(owners);
    }

    /** The loop of kill attribution, against the writers `owners`. */
    method AttributeAll(owners: seq<Option<string>>) returns (events: seq<Event>)
      requires |owners| > 0 || agents == []
      requires AllKnown(stats, Bodies()) && OwnersKnown(stats, owners)
      modifies this`score, this`stats
      ensures Tally(score, stats, events)
              == Attribute(Tally(old(score), old(stats), []), alivePrev, owners, Bodies(), cfg.weights)
    {
      ghost var bodies := Bodies();
      events := [];
      for i := 0 to |agents|
        invariant stats.Keys == old(stats).Keys
        invariant Tally(score, stats, events)
                  == Attribute(Tally(old(score), old(stats), []), alivePrev, owners, bodies[..i], cfg.weights)
      {
        AttributeSnoc(Tally(old(score), old(stats), []), alivePrev, owners, bodies, cfg.weights, i);
        assert bodies[i] == Body(agents[i].id, agents[i].State(), agents[i].cpuUsed);
        events := AttributeAgent(agents[i], owners, events);
      }
      assert bodies[..|agents|] == bodies;
    }

    /** `_alive_prev` takes each agent's liveness. */
    method RememberAlive()
      requires Valid()
      modifies this`alivePrev
      ensures Valid()
      ensures Current() == Remembered(old(Current()))
    {
      ghost var bodies := Bodies();
      for i := 0 to |agents|
        invariant alivePrev == Remember(old(alivePrev), bodies[..i])
      {
        assert bodies[..i + 1][..i] == bodies[..i];
        alivePrev := alivePrev[agents[i].id := agents[i].alive];
      }
      assert bodies[..|agents|] == bodies;
    }

    /** The ids of the live agents, in order. */
    method AliveList() returns (ids: seq<string>)
      ensures ids == AliveIds(Bodies())
    {
      ghost var bodies := Bodies();
      ids := [];
      for i := 0 to |agents|
        invariant ids == AliveIds(bodies[..i])
      {
        assert bodies[..i + 1][..i] == bodies[..i];
        if agents[i].alive {
          ids := ids + [agents[i].id];
        }
      }
      assert bodies[..|agents|] == bodies;
    }

    /** How many of the agents are alive. */
    static function LiveAmong(objs: seq<Agent>): (n: nat)
      reads objs
      ensures n == |AliveIds(BodiesOf(objs))|
    {
      if objs == [] then 0
      else
        var k := |objs| - 1;
        assert BodiesOf(objs)[..k] == BodiesOf(objs[..k]);
        LiveAmong(objs[..k]) + (if objs[k].alive then 1 else 0)
    }

    /** The start of tick `t`: the step phase. */
    method Advance(t: int)
      requires Valid()
      modifies this`tick, vm, vm.arena, vm.writer, agents
      ensures Valid()
      ensures Current() == Advanced(cfg, old(Current()), t)
    {
      ghost var w := Current();
      tick := t;
      vm.ClearTickDiffs();
      assert vm.State() == w.mem.(diffs := []);
      assert Bodies() == w.bodies;
      StepAgents();
      AdvancedIs(cfg, w, t);
      assert Current() == w.(mem := vm.State(), bodies := Bodies(), tick := t);
    }

    /** The statistics update of a tick. */
    method RecordStats()
      requires Valid()
      modifies this`stats
      ensures Valid()
      ensures Current() == Counted(old(Current()))
    {
      ghost var w := Current();
      RecordActivity();
      assert Bodies() == w.bodies;
      ghost var s1 := stats;
      RecordTerritory();
      assert Bodies() == w.bodies && vm.writer[..] == w.mem.owners;
      assert stats == TerritoryStats(s1, w.bodies, w.mem.owners);
      assert Current() == w.(stats := stats);
    }

    /** The scoring of a tick. */
    method ScoreTick()
      requires Valid()
      modifies this`score
      ensures Valid()
      ensures Current() == Scored(cfg, old(Current()))
    {
      ScoreAlive();
      ApplyTerritoryScoring();
    }

    /** `run`: ticks from 1 until `max_ticks` have run or at most one agent
        is left alive, then the winner is chosen among the survivors and the
        scores. */
    method Run(maxTicks: int) returns (winner: string)
      requires Valid()
      modifies this`tick, this`score, this`alivePrev, this`stats, vm, vm.arena, vm.writer, agents
      ensures Valid()
      ensures Current() == RunWorld(cfg, old(Current()), 1, maxTicks)
      ensures IsWinner(AliveIds(Bodies()), ModeOf(cfg.winMode), score, winner)
    {
      Play(maxTicks);
      var alive := AliveList();
      winner := ResolveWinner(alive, ModeOf(cfg.winMode), score);
    }

    /** `run`'s tick loop. */
    method Play(maxTicks: int)
      requires Valid()
      modifies this`tick, this`score, this`alivePrev, this`stats, vm, vm.arena, vm.writer, agents
      ensures Valid()
      ensures Current() == RunWorld(cfg, old(Current()), 1, maxTicks)
    {
      ghost var goal := RunWorld(cfg, Current(), 1, maxTicks);
      var t := 1;
      while t <= maxTicks
        invariant Valid()
        invariant goal == RunWorld(cfg, Current(), t, maxTicks)
        decreases maxTicks - t
      {
        PlayTick(t, maxTicks, goal);
        if LiveAmong(agents) <= 1 {
          break;
        }
        t := t + 1;
      }
    }

    /** One pass of `run`'s loop: tick `t`; the loop ends after it when at
        most one agent is left alive. */
    method PlayTick(t: int, maxTicks: int, ghost goal: World)
      requires Valid() && t <= maxTicks && goal == RunWorld(cfg, Current(), t, maxTicks)
      modifies this`tick, this`score, this`alivePrev, this`stats, vm, vm.arena, vm.writer, agents
      ensures Valid()
      ensures if |AliveIds(Bodies())| <= 1 then goal == Current()
              else goal == RunWorld(cfg, Current(), t + 1, maxTicks)
    {
      ghost var w := Current();
      var events := Tick(t);
      RunWorldStep(cfg, w, t, maxTicks);
    }

    /** One pass of the body of `run`'s tick loop, telemetry aside. */
    method Tick(t: int) returns (events: seq<Event>)
      requires Valid()
      modifies this`tick, this`score, this`alivePrev, this`stats, vm, vm.arena, vm.writer, agents
      ensures Valid()
      ensures (Current(), events) == TickWorld(cfg, old(Current()), t)
    {
      Advance(t);
      RecordStats();
      ScoreTick();
      events := Attribution();
      RememberAlive();
    }
}
}
