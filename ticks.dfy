/** What a tick and the tick loop of `run` promise, stated over the kernel's
    state as a value (`World`): how the score of an agent moves in a tick,
    one event per death, `_alive_prev` tracking liveness so that a death is
    attributed once, dead agents staying as they are, and when the loop
    stops. */
module Ticks {
  import opened Machine
  import opened Engine

  /** The phases after stepping change the tables only: the arena and the
      agents of the next world are those of the step phase. */
  lemma TickParts(cfg: Config, w: World, t: int)
    requires Coherent(w)
    ensures TickWorld(cfg, w, t).0.mem == Advanced(cfg, w, t).mem
    ensures TickWorld(cfg, w, t).0.bodies == Advanced(cfg, w, t).bodies
    ensures TickWorld(cfg, w, t).0.alivePrev == Remember(w.alivePrev, Advanced(cfg, w, t).bodies)
  {
  }

  /** In a tick an agent's score moves by the alive weight for each live
      agent with its id, by its territory buckets times the territory
      weight for each agent with its id (when that weight is positive), and
      by the kill weight for each agent that died this tick on a cell it
      wrote. */
  lemma TickScore(cfg: Config, w: World, t: int, k: string)
    requires Coherent(w)
    ensures Get(TickWorld(cfg, w, t).0.score, k)
            == Get(w.score, k)
               + LiveIdCount(Advanced(cfg, w, t).bodies, k) * cfg.weights.alive
               + (if cfg.weights.territory > 0
                  then IdCount(Advanced(cfg, w, t).bodies, k)
                       * (Buckets(Advanced(cfg, w, t).mem.owners, k, cfg.weights) * cfg.weights.territory)
                  else 0)
               + KillsBy(w.alivePrev, Advanced(cfg, w, t).mem.owners, Advanced(cfg, w, t).bodies, k) * cfg.weights.kill
  {
    var mid := Advanced(cfg, w, t);
    var counted := Counted(mid);
    var alive := AliveScores(mid.score, mid.bodies, cfg.weights);
    var scored := Scored(cfg, counted);
    AliveScoresGain(mid.score, mid.bodies, cfg.weights, k);
    TerritoryScoresGain(alive, mid.bodies, mid.mem.owners, cfg.weights, k);
    AttributeScores(Tally(scored.score, scored.stats, []), mid.alivePrev, mid.mem.owners, mid.bodies, cfg.weights, k);
  }

  /** A tick logs one event for each agent that was alive before it and is
      dead after its step phase. */
  lemma TickEvents(cfg: Config, w: World, t: int)
    requires Coherent(w)
    ensures |TickWorld(cfg, w, t).1| == DiedCount(w.alivePrev, Advanced(cfg, w, t).bodies)
  {
    var mid := Advanced(cfg, w, t);
    var scored := Scored(cfg, Counted(mid));
    AttributeEvents(Tally(scored.score, scored.stats, []), mid.alivePrev, mid.mem.owners, mid.bodies, cfg.weights);
  }

  /** A tick keeps the agents' ids, so distinct ids stay distinct. */
  lemma TickDistinct(cfg: Config, w: World, t: int)
    requires Coherent(w) && DistinctIds(w.bodies)
    ensures DistinctIds(TickWorld(cfg, w, t).0.bodies)
  {
    TickKeeps(cfg, w, t);
  }

  /** With distinct ids, after a tick `_alive_prev` holds each agent's
      liveness. */
  lemma TickRemembers(cfg: Config, w: World, t: int, i: nat)
    requires Coherent(w) && DistinctIds(w.bodies) && i < |w.bodies|
    ensures var next := TickWorld(cfg, w, t).0;
            next.bodies[i].id in next.alivePrev
            && next.alivePrev[next.bodies[i].id] == next.bodies[i].regs.alive
  {
    TickDistinct(cfg, w, t);
    TickKeeps(cfg, w, t);
    TickParts(cfg, w, t);
    RememberEach(w.alivePrev, Advanced(cfg, w, t).bodies, i);
  }

  /** A death is attributed once: an agent that is dead after a tick stays
      dead through the next tick's step phase and, as `_alive_prev` has
      recorded it dead, is not counted as dying again. */
  lemma DiesOnce(cfg: Config, w: World, t: int, t2: int, i: nat)
    requires Coherent(w) && DistinctIds(w.bodies) && i < |w.bodies|
    requires !TickWorld(cfg, w, t).0.bodies[i].regs.alive
    ensures var next := TickWorld(cfg, w, t).0;
            Coherent(next) && !Died(next.alivePrev, TickWorld(cfg, next, t2).0.bodies[i])
  {
    var next := TickWorld(cfg, w, t).0;
    TickRemembers(cfg, w, t, i);
    TickKeeps(cfg, w, t);
    TickKeeps(cfg, next, t2);
  }

  /** The tick loop keeps the kernel coherent, keeps the agents and their
      ids and the arena's size, and leaves dead agents untouched. */
  lemma {:induction false} RunKeeps(cfg: Config, w: World, t: int, maxTicks: int)
    requires Coherent(w)
    ensures var r := RunWorld(cfg, w, t, maxTicks);
            Coherent(r) && |r.bodies| == |w.bodies| && |r.mem.bytes| == |w.mem.bytes|
            && (forall i :: 0 <= i < |w.bodies| ==> r.bodies[i].id == w.bodies[i].id)
            && (forall i :: 0 <= i < |w.bodies| && !w.bodies[i].regs.alive ==> r.bodies[i] == w.bodies[i])
    decreases maxTicks - t
  {
    if t <= maxTicks {
      TickKeeps(cfg, w, t);
      var next := TickWorld(cfg, w, t).0;
      if |AliveIds(next.bodies)| > 1 {
        RunKeeps(cfg, next, t + 1, maxTicks);
      }
    }
  }

  /** The loop from tick `t` runs at least that tick and at most up to
      `max_ticks`; it stops early only once at most one agent is alive. */
  lemma {:induction false} RunStops(cfg: Config, w: World, t: int, maxTicks: int)
    requires Coherent(w) && t <= maxTicks
    ensures var r := RunWorld(cfg, w, t, maxTicks);
            t <= r.tick <= maxTicks && (r.tick == maxTicks || |AliveIds(r.bodies)| <= 1)
    decreases maxTicks - t
  {
    TickKeeps(cfg, w, t);
    var next := TickWorld(cfg, w, t).0;
    if |AliveIds(next.bodies)| > 1 && t + 1 <= maxTicks {
      RunStops(cfg, next, t + 1, maxTicks);
    }
  }
}
