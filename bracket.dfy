/** The single-elimination bracket of the tournament controller
    (`single_elim` in `tournament/scripts/btctl.py`): players meet in pairs,
    each pair plays `best_of` balanced pairs of games, the series is decided
    from the summaries found in the series directory, and the winners meet
    in the next round until one player is left.  Running a game is the
    parameter `play`, which gives the `summary.json` the game leaves in its
    run directory (`None` when it leaves none). */
module Bracket {
  import opened Wrappers
  import opened Text
  import opened Schedule
  import opened Leaderboard

  // ---------------------------------------------------------------------------
  // The games of a series

  /** How many times `range(best_of)` runs. */
  function Pairs(bestOf: int): nat {
    if bestOf <= 0 then 0 else bestOf
  }

  /** The games of the first `k` pairs of a series: pair `j` is the
      balanced pair on `seeds[j % len(seeds)]`, which fails with
      `ZeroDivisionError` when there are no seeds. */
  function SeriesTasks(a: Player, b: Player, seeds: seq<int>, k: nat): (r: Result<seq<Task>, Failure>)
    ensures r.Err? <==> k > 0 && |seeds| == 0
    ensures r.Err? ==> r.error == ZeroDivisionError
    ensures r.Ok? ==> |r.value| == 2 * k
  {
    if k == 0 then Ok([])
    else if |seeds| == 0 then Err(ZeroDivisionError)
    else
      var before := SeriesTasks(a, b, seeds, k - 1).value;
      Ok(before + PairTasks(a, b, [seeds[(k - 1) % |seeds|]]))
  }

  /** Pair `j` of a series plays `a` in slot A and then `b` in slot A on
      the seed `seeds[j % len(seeds)]`. */
  lemma {:induction false} SeriesTasksAt(a: Player, b: Player, seeds: seq<int>, k: nat, j: nat)
    requires |seeds| > 0 && j < k
    ensures SeriesTasks(a, b, seeds, k).value[2 * j] == Task(a, b, seeds[j % |seeds|], false)
    ensures SeriesTasks(a, b, seeds, k).value[2 * j + 1] == Task(b, a, seeds[j % |seeds|], true)
  {
    var before := SeriesTasks(a, b, seeds, k - 1).value;
    var pair := PairTasks(a, b, [seeds[(k - 1) % |seeds|]]);
    PairTasksAt(a, b, [seeds[(k - 1) % |seeds|]], 0);
    if j < k - 1 {
      SeriesTasksAt(a, b, seeds, k - 1, j);
      assert (before + pair)[2 * j] == before[2 * j];
      assert (before + pair)[2 * j + 1] == before[2 * j + 1];
    } else {
      assert (before + pair)[2 * j] == pair[0];
      assert (before + pair)[2 * j + 1] == pair[1];
    }
  }

  /** The tags of some games. */
  function TagsOf(ts: seq<Task>): set<string> {
    if ts == [] then {} else TagsOf(ts[..|ts| - 1]) + {Tag(ts[|ts| - 1])}
  }

  /** The games whose summaries the series directory holds, each once and
      in the order first played: a game replayed on a repeated seed writes
      to the run directory of its first playing. */
  function Distinct(ts: seq<Task>): seq<Task> {
    if ts == [] then []
    else
      var n := |ts| - 1;
      var init := Distinct(ts[..n]);
      if Tag(ts[n]) in TagsOf(init) then init else init + [ts[n]]
  }

  lemma TagsOfSnoc(ts: seq<Task>, t: Task)
    ensures TagsOf(ts + [t]) == TagsOf(ts) + {Tag(t)}
  {
    assert (ts + [t])[..|ts|] == ts;
  }

  lemma {:induction false} InTagsOf(ts: seq<Task>, i: nat)
    requires i < |ts|
    ensures Tag(ts[i]) in TagsOf(ts)
  {
    var n := |ts| - 1;
    if i < n {
      InTagsOf(ts[..n], i);
    }
  }

  /** The series counts every tag it played exactly once. */
  lemma {:induction false} DistinctTags(ts: seq<Task>)
    ensures TagsOf(Distinct(ts)) == TagsOf(ts)
    ensures forall i, j | 0 <= i < j < |Distinct(ts)| :: Tag(Distinct(ts)[i]) != Tag(Distinct(ts)[j])
  {
    if ts != [] {
      var n := |ts| - 1;
      var init := Distinct(ts[..n]);
      DistinctTags(ts[..n]);
      if Tag(ts[n]) !in TagsOf(init) {
        TagsOfSnoc(init, ts[n]);
        var r := init + [ts[n]];
        forall i, j | 0 <= i < j < |r|
          ensures Tag(r[i]) != Tag(r[j])
        {
          assert r[i] == init[i];
          if j == |init| {
            InTagsOf(init, i);
          } else {
            assert r[j] == init[j];
          }
        }
      }
    }
  }

  // ---------------------------------------------------------------------------
  // The tally of a series

  /** `wins[A]`, `wins[B]`, `score_acc[A]` and `score_acc[B]`. */
  datatype Series = Series(winsA: int, winsB: int, scoreA: int, scoreB: int)

  const NoWins := Series(0, 0, 0, 0)

  function Add(x: Series, y: Series): Series {
    Series(x.winsA + y.winsA, x.winsB + y.winsB, x.scoreA + y.scoreA, x.scoreB + y.scoreB)
  }

  /** What a summary read for a game of the series adds: the result as
      seen from the series' `A` when `swapped` is false, and mirrored when
      the game had the series' `B` in slot A.  Indexing the empty
      dictionary of an unreadable file raises `KeyError`; adding a score
      that is not an integer raises `TypeError`. */
  function Counted(d: Option<Summary>, swapped: bool): Result<Series, Failure> {
    if d.None? then Err(KeyError)
    else
      var s := d.value;
      var v := VerdictOf(s.winner);
      if !s.aScore.JInt? || !s.bScore.JInt? then Err(TypeError)
      else if !swapped then Ok(Series(if v == AWon then 1 else 0, if v == BWon then 1 else 0, s.aScore.n, s.bScore.n))
      else Ok(Series(if v == BWon then 1 else 0, if v == AWon then 1 else 0, s.bScore.n, s.aScore.n))
  }

  /** What the run directory of game `t` adds to the series of `a`
      against `b`: nothing when it holds no summary or when its tag names
      other players. */
  function Delta(a: string, b: string, t: Task, file: Option<Loaded>): Result<Series, Failure> {
    match file
    case None => Ok(NoWins)
    case Some(f) =>
      var d :- ParseSummary(f);
      match TagNames(Tag(t))
      case None => Err(IndexError)
      case Some(names) =>
        if names.0 == a && names.1 == b then Counted(d, false)
        else if names.0 == b && names.1 == a then Counted(d, true)
        else Ok(NoWins)
  }

  function Deltas(a: string, b: string, ts: seq<Task>, play: Task -> Option<Loaded>): (ds: seq<Result<Series, Failure>>)
    ensures |ds| == |ts|
  {
    if ts == [] then [] else Deltas(a, b, ts[..|ts| - 1], play) + [Delta(a, b, ts[|ts| - 1], play(ts[|ts| - 1]))]
  }

  lemma {:induction false} DeltasAt(a: string, b: string, ts: seq<Task>, play: Task -> Option<Loaded>, i: nat)
    requires i < |ts|
    ensures Deltas(a, b, ts, play)[i] == Delta(a, b, ts[i], play(ts[i]))
  {
    var n := |ts| - 1;
    if i < n {
      DeltasAt(a, b, ts[..n], play, i);
    }
  }

  /** The sum of the contributions, or the first exception. */
  function Total(ds: seq<Result<Series, Failure>>): Result<Series, Failure> {
    if ds == [] then Ok(NoWins)
    else
      var n := |ds| - 1;
      var acc :- Total(ds[..n]);
      var d :- ds[n];
      Ok(Add(acc, d))
  }

  /** `max([A, B], key=lambda x: (wins[x], score_acc[x]))`: `b` only when
      its key is larger, since `max` keeps the first of equal keys. */
  function Winner(a: string, b: string, s: Series): string {
    if s.winsB > s.winsA || (s.winsB == s.winsA && s.scoreB > s.scoreA) then b else a
  }

  /** `(wins, score)` of `x` is at most that of `y`, compared as tuples. */
  predicate KeyAtMost(winsX: int, scoreX: int, winsY: int, scoreY: int) {
    winsX < winsY || (winsX == winsY && scoreX <= scoreY)
  }

  /** The series winner has the larger key, and of equal keys it is the
      first player. */
  lemma WinnerIsMax(a: string, b: string, s: Series)
    requires a != b
    ensures Winner(a, b, s) == a || Winner(a, b, s) == b
    ensures Winner(a, b, s) == a ==> KeyAtMost(s.winsB, s.scoreB, s.winsA, s.scoreA)
    ensures Winner(a, b, s) == b ==> KeyAtMost(s.winsA, s.scoreA, s.winsB, s.scoreB)
                                     && !KeyAtMost(s.winsB, s.scoreB, s.winsA, s.scoreA)
  {
  }

  /** The games and the winner of a series. */
  datatype Outcome = Outcome(runs: seq<Task>, winner: string)

  /** One series of `single_elim`: the games played, then the tally over
      the summaries in the series directory. */
  function SeriesOf(a: string, b: string, seeds: seq<int>, bestOf: int, built: map<string, string>,
                    play: Task -> Option<Loaded>): (r: Result<Outcome, Failure>)
    ensures r.Ok? ==> r.value.winner == a || r.value.winner == b
    ensures r.Ok? ==> |r.value.runs| == 2 * Pairs(bestOf)
  {
    var runs :- SeriesTasks(NormalizePlayer(a, built), NormalizePlayer(b, built), seeds, Pairs(bestOf));
    var acc :- Total(Deltas(a, b, Distinct(runs), play));
    Ok(Outcome(runs, Winner(a, b, acc)))
  }

  /** The series `single_elim` plays between two players. */
  function SeriesFn(seeds: seq<int>, bestOf: int, built: map<string, string>, play: Task -> Option<Loaded>)
    : (string, string) -> Result<Outcome, Failure>
  {
    (x: string, y: string) => SeriesOf(x, y, seeds, bestOf, built, play)
  }

  lemma SeriesFnApply(seeds: seq<int>, bestOf: int, built: map<string, string>, play: Task -> Option<Loaded>,
                      x: string, y: string)
    ensures SeriesFn(seeds, bestOf, built, play)(x, y) == SeriesOf(x, y, seeds, bestOf, built, play)
  {
  }

  /** Every series that finishes is won by one of its two players and
      plays `games` games. */
  ghost predicate Fair(series: (string, string) -> Result<Outcome, Failure>, games: nat) {
    forall x, y :: series(x, y).Ok? ==>
      (series(x, y).value.winner == x || series(x, y).value.winner == y) && |series(x, y).value.runs| == games
  }

  lemma SeriesFair(seeds: seq<int>, bestOf: int, built: map<string, string>, play: Task -> Option<Loaded>)
    ensures Fair(SeriesFn(seeds, bestOf, built, play), 2 * Pairs(bestOf))
  {
  }

  // ---------------------------------------------------------------------------
  // Rounds

  /** The games of a round and the players it sends on. */
  datatype Round = Round(runs: seq<Task>, next: seq<string>)

  /** One round of `single_elim`: players `2k` and `2k + 1` play a series
      and its winner goes on; an unpaired last player goes on unplayed. */
  function RoundOf(bracket: seq<string>, series: (string, string) -> Result<Outcome, Failure>): (r: Result<Round, Failure>)
    ensures r.Ok? ==> |r.value.next| == (|bracket| + 1) / 2
    decreases |bracket|
  {
    if |bracket| == 0 then Ok(Round([], []))
    else if |bracket| % 2 == 1 then
      var n := |bracket| - 1;
      var r :- RoundOf(bracket[..n], series);
      Ok(Round(r.runs, r.next + [bracket[n]]))
    else
      var n := |bracket| - 2;
      var r :- RoundOf(bracket[..n], series);
      var s :- series(bracket[n], bracket[n + 1]);
      Ok(Round(r.runs + s.runs, r.next + [s.winner]))
  }

  /** Each of the `len(bracket) // 2` series of a round plays its `games`
      games. */
  lemma {:induction false} RoundRuns(bracket: seq<string>, series: (string, string) -> Result<Outcome, Failure>, games: nat)
    requires Fair(series, games)
    requires RoundOf(bracket, series).Ok?
    ensures |RoundOf(bracket, series).value.runs| == Mul(|bracket| / 2, games)
    decreases |bracket|
  {
    if |bracket| > 0 {
      var n := if |bracket| % 2 == 1 then |bracket| - 1 else |bracket| - 2;
      RoundRuns(bracket[..n], series, games);
    }
  }

  /** The `k`-th player a round sends on is one of the `k`-th pair, or the
      unpaired last player when there is no partner. */
  lemma {:induction false} RoundMembers(bracket: seq<string>, series: (string, string) -> Result<Outcome, Failure>, games: nat)
    requires Fair(series, games)
    requires RoundOf(bracket, series).Ok?
    ensures forall k | 0 <= k < |RoundOf(bracket, series).value.next| ::
              RoundOf(bracket, series).value.next[k] == bracket[2 * k]
              || (2 * k + 1 < |bracket| && RoundOf(bracket, series).value.next[k] == bracket[2 * k + 1])
    decreases |bracket|
  {
    if |bracket| > 0 {
      var n := if |bracket| % 2 == 1 then |bracket| - 1 else |bracket| - 2;
      var prev := RoundOf(bracket[..n], series).value;
      RoundMembers(bracket[..n], series, games);
      var next := RoundOf(bracket, series).value.next;
      forall k | 0 <= k < |next|
        ensures next[k] == bracket[2 * k] || (2 * k + 1 < |bracket| && next[k] == bracket[2 * k + 1])
      {
        if k < |prev.next| {
          assert next[k] == prev.next[k];
          assert bracket[..n][2 * k] == bracket[2 * k];
          if 2 * k + 1 < n {
            assert bracket[..n][2 * k + 1] == bracket[2 * k + 1];
          }
        }
      }
    }
  }

  /** The games of the whole bracket and the players left at the end. */
  datatype Final = Final(runs: seq<Task>, left: seq<string>)

  /** The rounds of `single_elim` until at most one player is left. */
  function Elim(bracket: seq<string>, series: (string, string) -> Result<Outcome, Failure>): Result<Final, Failure>
    decreases |bracket|
  {
    if |bracket| <= 1 then Ok(Final([], bracket))
    else
      var r :- RoundOf(bracket, series);
      var rest :- Elim(r.next, series);
      Ok(Final(r.runs + rest.runs, rest.left))
  }

  /** `single_elim` */
  function SingleElimOf(players: seq<string>, seeds: seq<int>, bestOf: int, built: map<string, string>,
                        play: Task -> Option<Loaded>): Result<Final, Failure>
  {
    Elim(players, SeriesFn(seeds, bestOf, built, play))
  }

  /** Once a series fails, the round fails with it, whatever follows. */
  lemma {:induction false} RoundStop(bracket: seq<string>, series: (string, string) -> Result<Outcome, Failure>, j: nat)
    requires j % 2 == 0 && 0 < j <= |bracket| && RoundOf(bracket[..j], series).Err?
    ensures RoundOf(bracket, series).Err? && RoundOf(bracket, series).error == RoundOf(bracket[..j], series).error
    decreases |bracket|
  {
    if j < |bracket| {
      var n := if |bracket| % 2 == 1 then |bracket| - 1 else |bracket| - 2;
      assert bracket[..n][..j] == bracket[..j];
      RoundStop(bracket[..n], series, j);
    } else {
      assert bracket[..j] == bracket;
    }
  }

  // ---------------------------------------------------------------------------
  // What the bracket promises

  /** A bracket of at least one player ends with exactly one player left,
      one of those who entered. */
  lemma {:induction false} ElimChampion(bracket: seq<string>, series: (string, string) -> Result<Outcome, Failure>, games: nat)
    requires Fair(series, games)
    requires Elim(bracket, series).Ok?
    ensures |Elim(bracket, series).value.left| == (if bracket == [] then 0 else 1)
    ensures forall x | x in Elim(bracket, series).value.left :: x in bracket
    decreases |bracket|
  {
    if |bracket| > 1 {
      var next := RoundOf(bracket, series).value.next;
      RoundMembers(bracket, series, games);
      ElimChampion(next, series, games);
      forall x | x in next
        ensures x in bracket
      {
        var k :| 0 <= k < |next| && next[k] == x;
      }
    }
  }

  /** Every series eliminates one player, so a bracket of `n >= 1`
      players plays `n - 1` series of `games` games each. */
  lemma {:induction false} ElimRuns(bracket: seq<string>, series: (string, string) -> Result<Outcome, Failure>, games: nat)
    requires Fair(series, games)
    requires Elim(bracket, series).Ok? && |bracket| >= 1
    ensures |Elim(bracket, series).value.runs| == Mul(|bracket| - 1, games)
    decreases |bracket|
  {
    if |bracket| > 1 {
      var next := RoundOf(bracket, series).value.next;
      RoundRuns(bracket, series, games);
      ElimRuns(next, series, games);
      Halves(|bracket|);
      MulAdd(|bracket| / 2, |next| - 1, games);
    }
  }

  /** A round of `n` players plays `n / 2` series and sends on
      `(n + 1) / 2` players. */
  lemma Halves(n: nat)
    ensures n / 2 + (n + 1) / 2 == n
  {
  }

  /** When every series fails with `e`, the first round fails with it. */
  lemma {:induction false} RoundFails(bracket: seq<string>, series: (string, string) -> Result<Outcome, Failure>, e: Failure)
    requires forall x, y :: series(x, y).Err? && series(x, y).error == e
    requires |bracket| >= 2
    ensures RoundOf(bracket, series).Err? && RoundOf(bracket, series).error == e
    decreases |bracket|
  {
    var n := if |bracket| % 2 == 1 then |bracket| - 1 else |bracket| - 2;
    if n >= 2 {
      RoundFails(bracket[..n], series, e);
    }
  }

  /** With no seeds and `best_of >= 1`, the first series of a bracket of
      two or more players raises `ZeroDivisionError` at `k % len(seeds)`. */
  lemma NoSeedsFails(players: seq<string>, seeds: seq<int>, bestOf: int, built: map<string, string>,
                     play: Task -> Option<Loaded>)
    requires |seeds| == 0 && bestOf > 0 && |players| >= 2
    ensures SingleElimOf(players, seeds, bestOf, built, play).Err?
    ensures SingleElimOf(players, seeds, bestOf, built, play).error == ZeroDivisionError
  {
    var series := SeriesFn(seeds, bestOf, built, play);
    forall x, y
      ensures series(x, y).Err? && series(x, y).error == ZeroDivisionError
    {
      assert series(x, y) == SeriesOf(x, y, seeds, bestOf, built, play);
    }
    RoundFails(players, series, ZeroDivisionError);
  }

  /** When every series finishes, so does the bracket. */
  lemma {:induction false} RoundCompletes(bracket: seq<string>, series: (string, string) -> Result<Outcome, Failure>)
    requires forall x, y :: series(x, y).Ok?
    ensures RoundOf(bracket, series).Ok?
    decreases |bracket|
  {
    if |bracket| > 0 {
      var n := if |bracket| % 2 == 1 then |bracket| - 1 else |bracket| - 2;
      RoundCompletes(bracket[..n], series);
    }
  }

  lemma {:induction false} ElimCompletes(bracket: seq<string>, series: (string, string) -> Result<Outcome, Failure>)
    requires forall x, y :: series(x, y).Ok?
    ensures Elim(bracket, series).Ok?
    decreases |bracket|
  {
    if |bracket| > 1 {
      RoundCompletes(bracket, series);
      ElimCompletes(RoundOf(bracket, series).value.next, series);
    }
  }

  /** A summary the tally can read: none at all, or an object whose scores
      are integers. */
  predicate Clean(file: Option<Loaded>) {
    file.None?
    || (file.value.Object? && Get(file.value.fields, "A_score", JInt(0)).JInt?
        && Get(file.value.fields, "B_score", JInt(0)).JInt?)
  }

  /** Every tag holds "__vs__" right after the first name. */
  lemma TagHasVs(t: Task)
    ensures TagNames(Tag(t)).Some?
  {
    var a := t.a.name;
    var tag := Tag(t);
    assert tag == a + (VS + (t.b.name + SEED + Suffix(t)));
    assert tag[|a|..|a| + |VS|] == VS;
    ContainsAt(tag, VS, |a|);
  }

  lemma CleanDelta(a: string, b: string, t: Task, file: Option<Loaded>)
    requires Clean(file)
    ensures Delta(a, b, t, file).Ok?
  {
    TagHasVs(t);
  }

  lemma {:induction false} TotalComplete(ds: seq<Result<Series, Failure>>)
    requires forall i | 0 <= i < |ds| :: ds[i].Ok?
    ensures Total(ds).Ok?
  {
    if ds != [] {
      var n := |ds| - 1;
      assert forall i | 0 <= i < n :: ds[..n][i] == ds[i];
      TotalComplete(ds[..n]);
    }
  }

  /** With seeds to play (or no games to play) and every summary readable
      by the tally, the bracket runs to the end. */
  lemma CleanElimCompletes(players: seq<string>, seeds: seq<int>, bestOf: int, built: map<string, string>,
                           play: Task -> Option<Loaded>)
    requires |seeds| > 0 || bestOf <= 0
    requires forall t :: Clean(play(t))
    ensures SingleElimOf(players, seeds, bestOf, built, play).Ok?
  {
    var series := SeriesFn(seeds, bestOf, built, play);
    forall x, y
      ensures series(x, y).Ok?
    {
      var runs := SeriesTasks(NormalizePlayer(x, built), NormalizePlayer(y, built), seeds, Pairs(bestOf)).value;
      var found := Distinct(runs);
      var ds := Deltas(x, y, found, play);
      forall i | 0 <= i < |ds|
        ensures ds[i].Ok?
      {
        DeltasAt(x, y, found, play, i);
        CleanDelta(x, y, found[i], play(found[i]));
      }
      TotalComplete(ds);
      assert series(x, y) == SeriesOf(x, y, seeds, bestOf, built, play);
    }
    ElimCompletes(players, series);
  }

  /** The engine's slot A in the swapped game of a pair is the series'
      `B`: when that game's summary says "A" won, the win and the slot A
      score go to `B`. */
  lemma SwappedGameCountsForB(a: string, b: string, t: Task, f: map<string, Json>)
    requires a != b && t.a.name == b && t.b.name == a && Separable(b, a)
    requires Get(f, "winner", JStr("")) == JStr("A")
    requires Get(f, "A_score", JInt(0)).JInt? && Get(f, "B_score", JInt(0)).JInt?
    ensures Delta(a, b, t, Some(Object(f))).Ok?
    ensures Delta(a, b, t, Some(Object(f))).value
            == Series(0, 1, Get(f, "B_score", JInt(0)).n, Get(f, "A_score", JInt(0)).n)
  {
    TagRoundTrip(t);
  }

  /** In the unswapped game the engine's slot A is the series' `A`. */
  lemma StraightGameCountsForA(a: string, b: string, t: Task, f: map<string, Json>)
    requires t.a.name == a && t.b.name == b && Separable(a, b)
    requires Get(f, "winner", JStr("")) == JStr("A")
    requires Get(f, "A_score", JInt(0)).JInt? && Get(f, "B_score", JInt(0)).JInt?
    ensures Delta(a, b, t, Some(Object(f))).Ok?
    ensures Delta(a, b, t, Some(Object(f))).value
            == Series(1, 0, Get(f, "A_score", JInt(0)).n, Get(f, "B_score", JInt(0)).n)
  {
    TagRoundTrip(t);
  }

  /** A game whose tag the series directory already holds adds nothing
      new. */
  lemma DistinctSnocKnown(ts: seq<Task>, t: Task)
    requires Tag(t) in TagsOf(ts)
    ensures Distinct(ts + [t]) == Distinct(ts)
  {
    DistinctTags(ts);
    assert (ts + [t])[..|ts|] == ts;
  }

  /** A game with a new tag joins the end. */
  lemma DistinctSnocNew(ts: seq<Task>, t: Task)
    requires Tag(t) !in TagsOf(ts)
    ensures Distinct(ts + [t]) == Distinct(ts) + [t]
  {
    DistinctTags(ts);
    assert (ts + [t])[..|ts|] == ts;
  }

  /** The two games of a pair have different tags. */
  lemma PairTagsDiffer(a: Player, b: Player, s: int)
    ensures Tag(Task(a, b, s, false)) != Tag(Task(b, a, s, true))
  {
    SideOfTag(Task(a, b, s, false));
    SideOfTag(Task(b, a, s, true));
  }

  /** With a single seed, a series of any length tallies just the two games
      of one balanced pair: the replays write to the same run directories. */
  lemma {:induction false} OneSeedOnePair(a: Player, b: Player, s: int, k: nat)
    requires k >= 1
    ensures Distinct(SeriesTasks(a, b, [s], k).value) == [Task(a, b, s, false), Task(b, a, s, true)]
  {
    var t1, t2 := Task(a, b, s, false), Task(b, a, s, true);
    PairTagsDiffer(a, b, s);
    assert PairTasks(a, b, [s]) == [t1, t2] by {
      PairTasksAt(a, b, [s], 0);
    }
    var prev := SeriesTasks(a, b, [s], k - 1).value;
    assert SeriesTasks(a, b, [s], k).value == prev + [t1] + [t2];
    TagsOfSnoc([], t1);
    TagsOfSnoc([t1], t2);
    assert [t1] + [t2] == [t1, t2];
    if k == 1 {
      assert prev == [];
      DistinctSnocNew([], t1);
      DistinctSnocNew([t1], t2);
    } else {
      OneSeedOnePair(a, b, s, k - 1);
      DistinctTags(prev);
      DistinctSnocKnown(prev, t1);
      TagsOfSnoc(prev, t1);
      DistinctSnocKnown(prev + [t1], t2);
    }
  }

  // ---------------------------------------------------------------------------
  // The loops of `single_elim`

  /** One series: the balanced pairs for `k` in `range(best_of)`, then the
      tally over the summaries in the series directory. */
  method PlaySeries(a: string, b: string, seeds: seq<int>, bestOf: int, built: map<string, string>,
                    play: Task -> Option<Loaded>) returns (r: Result<Outcome, Failure>)
    ensures r.Ok? == SeriesOf(a, b, seeds, bestOf, built, play).Ok?
    ensures r.Ok? ==> r.value == SeriesOf(a, b, seeds, bestOf, built, play).value
    ensures r.Err? ==> r.error == SeriesOf(a, b, seeds, bestOf, built, play).error
  {
    var played := PlayPairs(a, b, seeds, bestOf, built);
    if played.Err? {
      return Err(played.error);
    }
    var runs := played.value;
    var tally := Tally(a, b, Distinct(runs), play);
    if tally.Err? {
      return Err(tally.error);
    }
    return Ok(Outcome(runs, Winner(a, b, tally.value)));
  }

  /** The games of a series: `balanced_pair` on `seeds[k % len(seeds)]` for
      each `k` in `range(best_of)`. */
  method PlayPairs(a: string, b: string, seeds: seq<int>, bestOf: int, built: map<string, string>)
    returns (r: Result<seq<Task>, Failure>)
    ensures r.Ok? == SeriesTasks(NormalizePlayer(a, built), NormalizePlayer(b, built), seeds, Pairs(bestOf)).Ok?
    ensures r.Ok? ==> r.value == SeriesTasks(NormalizePlayer(a, built), NormalizePlayer(b, built), seeds, Pairs(bestOf)).value
    ensures r.Err? ==> r.error == SeriesTasks(NormalizePlayer(a, built), NormalizePlayer(b, built), seeds, Pairs(bestOf)).error
  {
    var aN := NormalizePlayer(a, built);
    var bN := NormalizePlayer(b, built);
    var runs: seq<Task> := [];
    for k := 0 to Pairs(bestOf)
      invariant SeriesTasks(aN, bN, seeds, k).Ok? && SeriesTasks(aN, bN, seeds, k).value == runs
    {
      if |seeds| == 0 {
        return Err(ZeroDivisionError);
      }
      var pairRuns := BalancedPair(a, b, [seeds[k % |seeds|]], built);
      runs := runs + pairRuns;
    }
    return Ok(runs);
  }

  /** The tally loop over the summaries of the games found. */
  method Tally(a: string, b: string, found: seq<Task>, play: Task -> Option<Loaded>) returns (r: Result<Series, Failure>)
    ensures r.Ok? == Total(Deltas(a, b, found, play)).Ok?
    ensures r.Ok? ==> r.value == Total(Deltas(a, b, found, play)).value
    ensures r.Err? ==> r.error == Total(Deltas(a, b, found, play)).error
  {
    ghost var ds := Deltas(a, b, found, play);
    var acc := NoWins;
    for i := 0 to |found|
      invariant Total(ds[..i]).Ok? && Total(ds[..i]).value == acc
    {
      assert ds[..i + 1][..i] == ds[..i];
      var d := Delta(a, b, found[i], play(found[i]));
      DeltasAt(a, b, found, play, i);
      if d.Err? {
        TotalStop(ds, i + 1);
        return Err(d.error);
      }
      acc := Add(acc, d.value);
    }
    assert ds[..|found|] == ds;
    return Ok(acc);
  }

  /** Once a summary fails, the tally fails there, whatever follows. */
  lemma {:induction false} TotalStop(ds: seq<Result<Series, Failure>>, i: nat)
    requires 0 < i <= |ds| && Total(ds[..i]).Err?
    ensures Total(ds).Err? && Total(ds).error == Total(ds[..i]).error
    decreases |ds|
  {
    if i < |ds| {
      var n := |ds| - 1;
      assert ds[..n][..i] == ds[..i];
      TotalStop(ds[..n], i);
    } else {
      assert ds[..i] == ds;
    }
  }

  lemma Parity(i: nat)
    requires i % 2 == 0
    ensures (i + 1) % 2 == 1 && (i + 2) % 2 == 0
  {
  }

  /** The round over the first `i + 2` players adds the series of
      players `i` and `i + 1`. */
  lemma RoundPairStep(bracket: seq<string>, series: (string, string) -> Result<Outcome, Failure>, i: nat)
    requires i % 2 == 0 && i + 2 <= |bracket| && RoundOf(bracket[..i], series).Ok?
    ensures RoundOf(bracket[..i + 2], series).Ok? == series(bracket[i], bracket[i + 1]).Ok?
    ensures RoundOf(bracket[..i + 2], series).Ok? ==>
              RoundOf(bracket[..i + 2], series).value.runs
                == RoundOf(bracket[..i], series).value.runs + series(bracket[i], bracket[i + 1]).value.runs
              && RoundOf(bracket[..i + 2], series).value.next
                == RoundOf(bracket[..i], series).value.next + [series(bracket[i], bracket[i + 1]).value.winner]
    ensures RoundOf(bracket[..i + 2], series).Err? ==>
              RoundOf(bracket[..i + 2], series).error == series(bracket[i], bracket[i + 1]).error
  {
    Parity(i);
    assert bracket[..i + 2][..i] == bracket[..i];
  }

  /** An odd player out goes on unplayed. */
  lemma RoundLastStep(bracket: seq<string>, series: (string, string) -> Result<Outcome, Failure>, i: nat)
    requires i % 2 == 0 && i + 1 == |bracket| && RoundOf(bracket[..i], series).Ok?
    ensures RoundOf(bracket, series).Ok?
    ensures RoundOf(bracket, series).value.runs == RoundOf(bracket[..i], series).value.runs
    ensures RoundOf(bracket, series).value.next == RoundOf(bracket[..i], series).value.next + [bracket[i]]
  {
    Parity(i);
  }

  /** One round: `for i in range(0, len(bracket), 2)`. */
  method PlayRound(bracket: seq<string>, seeds: seq<int>, bestOf: int, built: map<string, string>,
                   play: Task -> Option<Loaded>) returns (r: Result<Round, Failure>)
    ensures r.Ok? == RoundOf(bracket, SeriesFn(seeds, bestOf, built, play)).Ok?
    ensures r.Ok? ==> r.value.runs == RoundOf(bracket, SeriesFn(seeds, bestOf, built, play)).value.runs
    ensures r.Ok? ==> r.value.next == RoundOf(bracket, SeriesFn(seeds, bestOf, built, play)).value.next
    ensures r.Err? ==> r.error == RoundOf(bracket, SeriesFn(seeds, bestOf, built, play)).error
  {
    ghost var series := SeriesFn(seeds, bestOf, built, play);
    var runs: seq<Task> := [];
    var nxt: seq<string> := [];
    var i := 0;
    while i < |bracket|
      invariant i % 2 == 0 && i <= |bracket| + 1
      invariant i <= |bracket| ==> RoundOf(bracket[..i], series).Ok?
                                   && RoundOf(bracket[..i], series).value.runs == runs
                                   && RoundOf(bracket[..i], series).value.next == nxt
      invariant i > |bracket| ==> RoundOf(bracket, series).Ok?
                                  && RoundOf(bracket, series).value.runs == runs
                                  && RoundOf(bracket, series).value.next == nxt
      decreases |bracket| - i
    {
      Parity(i);
      if i + 1 >= |bracket| {
        RoundLastStep(bracket, series, i);
        nxt := nxt + [bracket[i]];
      } else {
        var s := PlaySeries(bracket[i], bracket[i + 1], seeds, bestOf, built, play);
        SeriesFnApply(seeds, bestOf, built, play, bracket[i], bracket[i + 1]);
        RoundPairStep(bracket, series, i);
        if s.Err? {
          RoundStop(bracket, series, i + 2);
          return Err(s.error);
        }
        runs := runs + s.value.runs;
        nxt := nxt + [s.value.winner];
      }
      i := i + 2;
    }
    if i == |bracket| {
      assert bracket[..i] == bracket;
    }
    return Ok(Round(runs, nxt));
  }

  /** `single_elim`: rounds while more than one player is left; the games
      played are returned. */
  method SingleElim(players: seq<string>, seeds: seq<int>, bestOf: int, built: map<string, string>,
                    play: Task -> Option<Loaded>) returns (r: Result<seq<Task>, Failure>)
    ensures r.Ok? == SingleElimOf(players, seeds, bestOf, built, play).Ok?
    ensures r.Ok? ==> r.value == SingleElimOf(players, seeds, bestOf, built, play).value.runs
    ensures r.Err? ==> r.error == SingleElimOf(players, seeds, bestOf, built, play).error
  {
    ghost var series := SeriesFn(seeds, bestOf, built, play);
    var bracket := players;
    var runs: seq<Task> := [];
    while |bracket| > 1
      invariant Elim(players, series).Ok? == Elim(bracket, series).Ok?
      invariant Elim(players, series).Ok? ==> Elim(players, series).value.runs == runs + Elim(bracket, series).value.runs
      invariant Elim(players, series).Err? ==> Elim(players, series).error == Elim(bracket, series).error
      decreases |bracket|
    {
      var round := PlayRound(bracket, seeds, bestOf, built, play);
      if round.Err? {
        return Err(round.error);
      }
      runs := runs + round.value.runs;
      bracket := round.value.next;
    }
    return Ok(runs);
  }
}
