/** The controller's reports (`tournament/scripts/btctl.py`): how
    `parse_summary` reads a game's `summary.json`, the rows `write_match_csv`
    writes, and the integer part of `aggregate_leaderboard`, which credits
    each game to the two agents named in its run tag.  A summary is given
    as what `json.loads` made of the file; the rate and average columns and
    their sort are floating point and are not modelled. */
module Leaderboard {
  import opened Wrappers
  import opened Text
  import opened Schedule

  // ---------------------------------------------------------------------------
  // Summaries

  /** A value of a summary field: the JSON integers, strings and `null` the
      engine writes. */
  datatype Json = JInt(n: int) | JStr(s: string) | JNull

  /** A `summary.json` as `json.loads` saw it: a file it could not read or
      decode, a JSON value that is not an object, or an object. */
  datatype Loaded = Unreadable | NotObject | Object(fields: map<string, Json>)

  /** The exceptions that end a report, and `NoSummaries` for the early
      return of `aggregate_leaderboard` when no summary exists. */
  datatype Failure = AttributeError | IndexError | KeyError | TypeError | ZeroDivisionError | NoSummaries

  /** The dictionary `parse_summary` returns for a readable file. */
  datatype Summary = Summary(winner: Json, ticks: Json, aScore: Json, bScore: Json,
                             aAlive: Json, bAlive: Json, aTerr: Json, bTerr: Json, seed: Json)

  /** `data.get(key, default)` */
  function Get(fields: map<string, Json>, key: string, default: Json): Json {
    if key in fields then fields[key] else default
  }

  /** `parse_summary`: `Ok(None)` is the empty dictionary returned for a
      file that cannot be read or decoded; a decoded value that is not an
      object has no `get` (`AttributeError`). */
  function ParseSummary(file: Loaded): (r: Result<Option<Summary>, Failure>)
    ensures r.Err? <==> file.NotObject?
    ensures r.Ok? && r.value.None? <==> file.Unreadable?
  {
    match file
    case Unreadable => Ok(None)
    case NotObject => Err(AttributeError)
    case Object(d) =>
      Ok(Some(Summary(Get(d, "winner", JStr("")), Get(d, "ticks", JInt(0)),
                      Get(d, "A_score", JInt(0)), Get(d, "B_score", JInt(0)),
                      Get(d, "A_alive_ticks", Get(d, "A_alive", JInt(0))),
                      Get(d, "B_alive_ticks", Get(d, "B_alive", JInt(0))),
                      Get(d, "A_territory", JInt(0)), Get(d, "B_territory", JInt(0)),
                      Get(d, "seed", JNull))))
  }

  /** The summary object the engine writes for a result. */
  function Written(s: Summary): map<string, Json> {
    map["winner" := s.winner, "ticks" := s.ticks, "A_score" := s.aScore, "B_score" := s.bScore,
        "A_alive_ticks" := s.aAlive, "B_alive_ticks" := s.bAlive,
        "A_territory" := s.aTerr, "B_territory" := s.bTerr, "seed" := s.seed]
  }

  /** Reading back a summary the engine wrote gives the same fields. */
  lemma SummaryRoundTrip(s: Summary)
    ensures ParseSummary(Object(Written(s))) == Ok(Some(s))
  {
  }

  /** Every field missing from an object reads as its default: no winner,
      zero counts and scores, no seed. */
  lemma SummaryDefaults()
    ensures ParseSummary(Object(map[]))
            == Ok(Some(Summary(JStr(""), JInt(0), JInt(0), JInt(0), JInt(0), JInt(0), JInt(0), JInt(0), JNull)))
  {
  }

  /** The survival counts fall back to the older keys `A_alive` and
      `B_alive` when the `_ticks` keys are absent, and to 0 when both are. */
  lemma AliveFallback(d: map<string, Json>)
    ensures var s := ParseSummary(Object(d)).value.value;
            s.aAlive == (if "A_alive_ticks" in d then d["A_alive_ticks"]
                         else if "A_alive" in d then d["A_alive"] else JInt(0))
            && s.bAlive == (if "B_alive_ticks" in d then d["B_alive_ticks"]
                            else if "B_alive" in d then d["B_alive"] else JInt(0))
  {
  }

  // ---------------------------------------------------------------------------
  // The match table

  /** A run directory: its name (the run tag) and its summary. */
  datatype Run = Run(tag: string, file: Loaded)

  /** A row of the match table, in the header's column order. */
  datatype Row = Row(seed: string, side: string, winner: Json, ticks: Json, aScore: Json, bScore: Json,
                     aAlive: Json, bAlive: Json, aTerr: Json, bTerr: Json)

  /** How an f-string renders a field. */
  function Show(j: Json): string {
    match j
    case JInt(n) => ShowInt(n)
    case JStr(s) => s
    case JNull => "None"
  }

  /** The row of a readable summary in the run directory named `tag`. */
  function RowOf(tag: string, s: Summary): Row {
    Row("seed-" + Show(s.seed), if EndsWith(tag, "BA") then "B" else "A",
        s.winner, s.ticks, s.aScore, s.bScore, s.aAlive, s.bAlive, s.aTerr, s.bTerr)
  }

  /** The rows `write_match_csv` writes after its header, in the order of
      the runs; an unreadable summary is skipped. */
  function MatchRows(runs: seq<Run>): Result<seq<Row>, Failure> {
    if runs == [] then Ok([])
    else
      var n := |runs| - 1;
      var rows :- MatchRows(runs[..n]);
      var s :- ParseSummary(runs[n].file);
      if s.None? then Ok(rows) else Ok(rows + [RowOf(runs[n].tag, s.value)])
  }

  /** The number of runs whose summary decoded to an object. */
  function Readable(runs: seq<Run>): nat {
    if runs == [] then 0
    else Readable(runs[..|runs| - 1]) + (if runs[|runs| - 1].file.Object? then 1 else 0)
  }

  /** `write_match_csv` */
  method WriteMatchCsv(runs: seq<Run>) returns (r: Result<seq<Row>, Failure>)
    ensures r.Ok? == MatchRows(runs).Ok?
    ensures r.Ok? ==> r.value == MatchRows(runs).value
    ensures r.Err? ==> r.error == MatchRows(runs).error
  {
    var rows: seq<Row> := [];
    for i := 0 to |runs|
      invariant MatchRows(runs[..i]).Ok? && MatchRows(runs[..i]).value == rows
    {
      assert runs[..i + 1][..i] == runs[..i];
      var s := ParseSummary(runs[i].file);
      if s.Err? {
        MatchRowsStop(runs, i + 1);
        return Err(s.error);
      }
      if s.value.Some? {
        var side := if EndsWith(runs[i].tag, "BA") then "B" else "A";
        var d := s.value.value;
        rows := rows + [Row("seed-" + Show(d.seed), side, d.winner, d.ticks, d.aScore, d.bScore,
                            d.aAlive, d.bAlive, d.aTerr, d.bTerr)];
      }
    }
    assert runs[..|runs|] == runs;
    return Ok(rows);
  }

  /** Once a summary is not an object the table fails there, whatever
      follows. */
  lemma {:induction false} MatchRowsStop(runs: seq<Run>, i: nat)
    requires 0 < i <= |runs| && MatchRows(runs[..i]).Err?
    ensures MatchRows(runs).Err? && MatchRows(runs).error == MatchRows(runs[..i]).error
    decreases |runs|
  {
    if i < |runs| {
      var n := |runs| - 1;
      assert runs[..n][..i] == runs[..i];
      MatchRowsStop(runs[..n], i);
    } else {
      assert runs[..i] == runs;
    }
  }

  /** The table is written exactly when every summary is readable or
      unreadable (none is a JSON value other than an object), and then it
      has one row per readable summary. */
  lemma {:induction false} MatchRowsCount(runs: seq<Run>)
    ensures MatchRows(runs).Ok? <==> forall i | 0 <= i < |runs| :: !runs[i].file.NotObject?
    ensures MatchRows(runs).Ok? ==> |MatchRows(runs).value| == Readable(runs)
  {
    if runs != [] {
      var n := |runs| - 1;
      MatchRowsCount(runs[..n]);
      assert forall i | 0 <= i < n :: runs[..n][i] == runs[i];
    }
  }

  /** A game's row is on side "B" exactly when it is the swapped game of
      its pair, and carries the seed the summary recorded. */
  lemma RowSide(t: Task, s: Summary)
    ensures RowOf(Tag(t), s).side == (if t.swap then "B" else "A")
    ensures RowOf(Tag(t), s).seed == "seed-" + Show(s.seed)
  {
    SideOfTag(t);
  }

  // ---------------------------------------------------------------------------
  // The leaderboard

  /** One agent's counters in `stats`. */
  datatype Standing = Standing(wins: int, losses: int, ties: int, games: int,
                               scoreDiff: int, terrDiff: int, surviveTicks: int)

  /** The `defaultdict`'s fresh entry. */
  const Zero := Standing(0, 0, 0, 0, 0, 0, 0)

  function Plus(x: Standing, y: Standing): Standing {
    Standing(x.wins + y.wins, x.losses + y.losses, x.ties + y.ties, x.games + y.games,
             x.scoreDiff + y.scoreDiff, x.terrDiff + y.terrDiff, x.surviveTicks + y.surviveTicks)
  }

  /** How a game ended for the leaderboard: `winner == "A"`,
      `winner == "B"`, or anything else. */
  datatype Verdict = AWon | BWon | Drawn

  function VerdictOf(winner: Json): Verdict {
    if winner == JStr("A") then AWon else if winner == JStr("B") then BWon else Drawn
  }

  /** A game as the leaderboard reads it: the two names from its tag and
      the integer fields of its summary. */
  datatype Game = Game(a: string, b: string, verdict: Verdict, aScore: int, bScore: int,
                       aTerr: int, bTerr: int, aAlive: int, bAlive: int)

  /** The game of one summary, or the exception its lines raise:
      `AttributeError` for a non-object, `IndexError` for a tag without
      "__vs__", `KeyError` for the empty dictionary of an unreadable file,
      and `TypeError` for a field the arithmetic cannot take. */
  function GameOf(r: Run): Result<Game, Failure> {
    var data :- ParseSummary(r.file);
    match TagNames(r.tag)
    case None => Err(IndexError)
    case Some(names) =>
      if data.None? then Err(KeyError)
      else
        var s := data.value;
        if s.aScore.JInt? && s.bScore.JInt? && s.aTerr.JInt? && s.bTerr.JInt? && s.aAlive.JInt? && s.bAlive.JInt?
        then Ok(Game(names.0, names.1, VerdictOf(s.winner), s.aScore.n, s.bScore.n, s.aTerr.n, s.bTerr.n, s.aAlive.n, s.bAlive.n))
        else Err(TypeError)
  }

  /** What a game adds to the counters of the agent in slot A. */
  function SideA(g: Game): Standing {
    Standing(if g.verdict == AWon then 1 else 0,
             if g.verdict == BWon then 1 else 0,
             if g.verdict == Drawn then 1 else 0,
             1, g.aScore - g.bScore, g.aTerr - g.bTerr, g.aAlive)
  }

  /** What a game adds to the counters of the agent in slot B. */
  function SideB(g: Game): Standing {
    Standing(if g.verdict == BWon then 1 else 0,
             if g.verdict == AWon then 1 else 0,
             if g.verdict == Drawn then 1 else 0,
             1, g.bScore - g.aScore, g.bTerr - g.aTerr, g.bAlive)
  }

  /** `stats` with its insertion order. */
  datatype Board = Board(order: seq<string>, stats: map<string, Standing>)

  /** The order lists each agent of `stats` once. */
  ghost predicate WellFormed(b: Board) {
    (forall i, j | 0 <= i < j < |b.order| :: b.order[i] != b.order[j])
    && (forall n :: n in b.stats <==> n in b.order)
  }

  /** `stats[name] += d` on the `defaultdict`: a new name starts from zero
      and joins the end of the order. */
  function Credit(b: Board, name: string, d: Standing): (r: Board)
    requires WellFormed(b)
    ensures WellFormed(r)
  {
    if name in b.stats then Board(b.order, b.stats[name := Plus(b.stats[name], d)])
    else Board(b.order + [name], b.stats[name := Plus(Zero, d)])
  }

  /** One pass of the loop: slot A's agent first, then slot B's. */
  function Record(b: Board, g: Game): (r: Board)
    requires WellFormed(b)
    ensures WellFormed(r)
  {
    Credit(Credit(b, g.a, SideA(g)), g.b, SideB(g))
  }

  /** The board after the games in order. */
  function Fold(games: seq<Game>): (r: Board)
    ensures WellFormed(r)
  {
    if games == [] then Board([], map[])
    else Record(Fold(games[..|games| - 1]), games[|games| - 1])
  }

  /** What each summary gives, in order. */
  function Results(runs: seq<Run>): (rs: seq<Result<Game, Failure>>)
    ensures |rs| == |runs|
    ensures forall i | 0 <= i < |runs| :: rs[i] == GameOf(runs[i])
  {
    if runs == [] then [] else Results(runs[..|runs| - 1]) + [GameOf(runs[|runs| - 1])]
  }

  /** The games in order, or the first exception. */
  function Collect(rs: seq<Result<Game, Failure>>): (r: Result<seq<Game>, Failure>)
    ensures r.Ok? ==> |r.value| == |rs|
  {
    if rs == [] then Ok([])
    else
      var n := |rs| - 1;
      var games :- Collect(rs[..n]);
      var g :- rs[n];
      Ok(games + [g])
  }

  /** The games of the summaries in order, or the first exception. */
  function Games(runs: seq<Run>): Result<seq<Game>, Failure> {
    Collect(Results(runs))
  }

  /** `aggregate_leaderboard`'s counters: no summaries at all is the early
      return. */
  function Aggregate(runs: seq<Run>): Result<Board, Failure> {
    if runs == [] then Err(NoSummaries)
    else
      var games :- Games(runs);
      Ok(Fold(games))
  }

  /** Once a summary fails, the tally fails there, whatever follows. */
  lemma {:induction false} CollectStop(rs: seq<Result<Game, Failure>>, i: nat)
    requires 0 < i <= |rs| && Collect(rs[..i]).Err?
    ensures Collect(rs).Err? && Collect(rs).error == Collect(rs[..i]).error
    decreases |rs|
  {
    if i < |rs| {
      var n := |rs| - 1;
      assert rs[..n][..i] == rs[..i];
      CollectStop(rs[..n], i);
    } else {
      assert rs[..i] == rs;
    }
  }

  /** `stats[name][...] += ...` for each counter of `d`. */
  method Add(order: seq<string>, stats: map<string, Standing>, name: string, d: Standing)
    returns (order': seq<string>, stats': map<string, Standing>)
    requires WellFormed(Board(order, stats))
    ensures Board(order', stats') == Credit(Board(order, stats), name, d)
  {
    order', stats' := order, stats;
    if name !in stats' {
      order' := order' + [name];
      stats' := stats'[name := Zero];
    }
    stats' := stats'[name := Plus(stats'[name], d)];
  }

  /** The counting loop of `aggregate_leaderboard`. */
  method AggregateLeaderboard(runs: seq<Run>) returns (r: Result<Board, Failure>)
    ensures r.Ok? == Aggregate(runs).Ok?
    ensures r.Ok? ==> r.value == Aggregate(runs).value
    ensures r.Err? ==> r.error == Aggregate(runs).error
  {
    if |runs| == 0 {
      return Err(NoSummaries);
    }
    var order: seq<string> := [];
    var stats: map<string, Standing> := map[];
    ghost var rs := Results(runs);
    ghost var games: seq<Game> := [];
    for i := 0 to |runs|
      invariant Collect(rs[..i]).Ok? && Collect(rs[..i]).value == games
      invariant order == Fold(games).order && stats == Fold(games).stats
    {
      assert rs[..i + 1][..i] == rs[..i];
      var g := GameOf(runs[i]);
      if g.Err? {
        CollectStop(rs, i + 1);
        return Err(g.error);
      }
      ghost var before := Board(order, stats);
      order, stats := Add(order, stats, g.value.a, SideA(g.value));
      order, stats := Add(order, stats, g.value.b, SideB(g.value));
      assert Board(order, stats) == Record(before, g.value);
      games := games + [g.value];
      assert games[..|games| - 1] == games[..i];
    }
    assert rs[..|runs|] == rs;
    return Ok(Board(order, stats));
  }

  // ---------------------------------------------------------------------------
  // What the board says about each agent

  /** `stats[name]` read from the `defaultdict`. */
  function StatsOf(b: Board, name: string): Standing {
    if name in b.stats then b.stats[name] else Zero
  }

  /** What one game credits to `name`: its slot A share if it played in
      slot A, and its slot B share if it played in slot B. */
  function Share(g: Game, name: string): Standing {
    Plus(if g.a == name then SideA(g) else Zero, if g.b == name then SideB(g) else Zero)
  }

  function Shares(games: seq<Game>, name: string): Standing {
    if games == [] then Zero
    else Plus(Shares(games[..|games| - 1], name), Share(games[|games| - 1], name))
  }

  /** The number of slots `name` played. */
  function Appearances(games: seq<Game>, name: string): nat {
    if games == [] then 0 else Appearances(games[..|games| - 1], name) + Slots(games[|games| - 1], name)
  }

  /** The number of slots of one game `name` played. */
  function Slots(g: Game, name: string): nat {
    (if g.a == name then 1 else 0) + (if g.b == name then 1 else 0)
  }

  /** Each agent's counters are the sum over the games of its shares. */
  lemma {:induction false} FoldShares(games: seq<Game>, name: string)
    ensures StatsOf(Fold(games), name) == Shares(games, name)
  {
    if games != [] {
      var n := |games| - 1;
      var g := games[n];
      var b := Fold(games[..n]);
      FoldShares(games[..n], name);
      CreditStats(b, g.a, SideA(g), name);
      CreditStats(Credit(b, g.a, SideA(g)), g.b, SideB(g), name);
      PlusShare(Shares(games[..n], name), g, name);
    }
  }

  /** Adding a game's share is adding its slot A part and then its slot B
      part. */
  lemma PlusShare(x: Standing, g: Game, name: string)
    ensures Plus(x, Share(g, name))
            == (if g.b == name then Plus(if g.a == name then Plus(x, SideA(g)) else x, SideB(g))
                else if g.a == name then Plus(x, SideA(g)) else x)
  {
  }

  lemma PlusAssoc(x: Standing, y: Standing, z: Standing)
    ensures Plus(Plus(x, y), z) == Plus(x, Plus(y, z))
  {
  }

  /** Crediting `n` adds to its counters and leaves every other agent's. */
  lemma CreditStats(b: Board, n: string, d: Standing, name: string)
    requires WellFormed(b)
    ensures StatsOf(Credit(b, n, d), name) == if n == name then Plus(StatsOf(b, name), d) else StatsOf(b, name)
  {
  }

  /** Every game an agent played counts once as a win, a loss or a tie, and
      it counts one game per slot it played. */
  lemma {:induction false} StandingBalanced(games: seq<Game>, name: string)
    ensures StatsOf(Fold(games), name).wins + StatsOf(Fold(games), name).losses + StatsOf(Fold(games), name).ties
            == StatsOf(Fold(games), name).games
    ensures StatsOf(Fold(games), name).games == Appearances(games, name)
  {
    FoldShares(games, name);
    SharesBalanced(games, name);
  }

  lemma {:induction false} SharesBalanced(games: seq<Game>, name: string)
    ensures Shares(games, name).wins + Shares(games, name).losses + Shares(games, name).ties == Shares(games, name).games
    ensures Shares(games, name).games == Appearances(games, name)
  {
    if games != [] {
      var n := |games| - 1;
      var x, y := Shares(games[..n], name), Share(games[n], name);
      assert Shares(games, name) == Plus(x, y);
      SharesBalanced(games[..n], name);
      ShareBalanced(games[n], name);
    }
  }

  /** A game credits `name` a win, a loss or a tie for each slot it
      played. */
  lemma ShareBalanced(g: Game, name: string)
    ensures Share(g, name).wins + Share(g, name).losses + Share(g, name).ties == Share(g, name).games
    ensures Share(g, name).games == Slots(g, name)
  {
  }

  /** The sum of the counters over the agents on the board. */
  function Total(order: seq<string>, stats: map<string, Standing>): Standing
    requires forall n | n in order :: n in stats
  {
    if order == [] then Zero
    else Plus(Total(order[..|order| - 1], stats), stats[order[|order| - 1]])
  }

  /** What a game adds to all counters together. */
  function Both(games: seq<Game>): Standing {
    if games == [] then Zero
    else Plus(Both(games[..|games| - 1]), Plus(SideA(games[|games| - 1]), SideB(games[|games| - 1])))
  }

  /** An entry not on the list does not take part in the sum. */
  lemma {:induction false} TotalIgnores(order: seq<string>, stats: map<string, Standing>, name: string, v: Standing)
    requires forall n | n in order :: n in stats
    requires name !in order
    ensures Total(order, stats[name := v]) == Total(order, stats)
  {
    if order != [] {
      TotalIgnores(order[..|order| - 1], stats, name, v);
    }
  }

  /** Adding to the entry of a listed name adds to the sum. */
  lemma {:induction false} TotalUpdate(order: seq<string>, stats: map<string, Standing>, name: string, d: Standing)
    requires forall n | n in order :: n in stats
    requires forall i, j | 0 <= i < j < |order| :: order[i] != order[j]
    requires name in order
    ensures Total(order, stats[name := Plus(stats[name], d)]) == Plus(Total(order, stats), d)
  {
    var n := |order| - 1;
    var init := order[..n];
    if order[n] == name {
      assert name !in init by {
        forall i | 0 <= i < n
          ensures init[i] != name
        {
          assert init[i] == order[i];
        }
      }
      TotalIgnores(init, stats, name, Plus(stats[name], d));
    } else {
      assert name in init by {
        var i :| 0 <= i < |order| && order[i] == name;
        assert init[i] == name;
      }
      TotalUpdate(init, stats, name, d);
    }
  }

  /** Crediting an agent adds the credit to the sum over the board. */
  lemma CreditTotal(b: Board, name: string, d: Standing)
    requires WellFormed(b)
    ensures Total(Credit(b, name, d).order, Credit(b, name, d).stats) == Plus(Total(b.order, b.stats), d)
  {
    if name in b.stats {
      TotalUpdate(b.order, b.stats, name, d);
    } else {
      TotalSnoc(b.order, b.stats, name, Plus(Zero, d));
    }
  }

  /** A new name adds its entry to the sum. */
  lemma TotalSnoc(order: seq<string>, stats: map<string, Standing>, name: string, v: Standing)
    requires forall n | n in order :: n in stats
    requires name !in order
    ensures Total(order + [name], stats[name := v]) == Plus(Total(order, stats), v)
  {
    var longer := order + [name];
    assert longer[..|longer| - 1] == order;
    TotalIgnores(order, stats, name, v);
  }

  /** The sum over the board is what the games added. */
  lemma {:induction false} FoldTotal(games: seq<Game>)
    ensures Total(Fold(games).order, Fold(games).stats) == Both(games)
  {
    if games != [] {
      var n := |games| - 1;
      var b := Fold(games[..n]);
      FoldTotal(games[..n]);
      CreditTotal(b, games[n].a, SideA(games[n]));
      CreditTotal(Credit(b, games[n].a, SideA(games[n])), games[n].b, SideB(games[n]));
      PlusAssoc(Both(games[..n]), SideA(games[n]), SideB(games[n]));
    }
  }

  /** Each game is a win for one side and a loss for the other or a tie
      for both, and its score and territory differences cancel. */
  lemma {:induction false} BothBalanced(games: seq<Game>)
    ensures Both(games).wins == Both(games).losses && Both(games).games == 2 * |games|
    ensures Both(games).scoreDiff == 0 && Both(games).terrDiff == 0
  {
    if games != [] {
      BothBalanced(games[..|games| - 1]);
    }
  }

  /** Over the whole board the wins equal the losses, the score and
      territory differences sum to zero, and there are two agent-games per
      summary. */
  lemma LeaderboardZeroSum(runs: seq<Run>)
    requires Aggregate(runs).Ok?
    ensures var b := Aggregate(runs).value;
            var s := Total(b.order, b.stats);
            s.wins == s.losses && s.scoreDiff == 0 && s.terrDiff == 0 && s.games == 2 * |runs|
  {
    var games := Games(runs).value;
    FoldTotal(games);
    BothBalanced(games);
  }

  /** A game of the schedule whose names read back from its tag is
      credited to the players of its `Task`: slot A's share to the player in
      slot A of that record, so for the swapped game of a pair a win by the
      engine's side A counts for the pair's second player. */
  lemma CreditsTaskPlayers(t: Task, d: map<string, Json>)
    requires Separable(t.a.name, t.b.name)
    requires GameOf(Run(Tag(t), Object(d))).Ok?
    ensures var g := GameOf(Run(Tag(t), Object(d))).value;
            g.a == t.a.name && g.b == t.b.name
            && (Get(d, "winner", JStr("")) == JStr("A") ==> SideA(g).wins == 1 && SideB(g).losses == 1)
  {
    TagRoundTrip(t);
  }

  /** With every summary an object holding integer fields and every tag
      naming two agents, the counters are computed for all runs. */
  lemma GamesComplete(runs: seq<Run>)
    requires forall i | 0 <= i < |runs| :: GameOf(runs[i]).Ok?
    ensures Games(runs).Ok?
  {
    CollectComplete(Results(runs));
  }

  lemma {:induction false} CollectComplete(rs: seq<Result<Game, Failure>>)
    requires forall i | 0 <= i < |rs| :: rs[i].Ok?
    ensures Collect(rs).Ok?
  {
    if rs != [] {
      var n := |rs| - 1;
      assert forall i | 0 <= i < n :: rs[..n][i] == rs[i];
      CollectComplete(rs[..n]);
    }
  }
}
