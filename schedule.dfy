/** The tournament controller's schedules (`tournament/scripts/btctl.py`):
    the `--players` and `--seeds` parsers, how a player name becomes the
    engine's agent type and configuration, the position-balanced pair of
    games per seed and the round robin over all pairs, and the run tag
    `a__vs__b__seed-N__AB|BA` that names a game's directory and is later
    split back into the two names.  A game itself is the `Task` record of what
    `run_game` receives; launching the engine is not modelled. */
module Schedule {
  import opened Wrappers
  import opened Text

  // ---------------------------------------------------------------------------
  // Command-line lists

  /** `[x.strip() for x in parts if x.strip()]` */
  function Kept(parts: seq<string>): (names: seq<string>)
    ensures |names| <= |parts|
  {
    if parts == [] then []
    else
      var x := Strip(parts[0]);
      (if x == [] then [] else [x]) + Kept(parts[1..])
  }

  /** `_parse_players`: the comma-separated names, stripped, empty ones
      dropped. */
  function ParsePlayers(s: string): seq<string> {
    Kept(Split(s, ","))
  }

  /** A name as `_parse_players` can return it: not empty, no white space at
      either end, no comma. */
  predicate PlayerName(x: string) {
    x != [] && Strip(x) == x && ',' !in x
  }

  lemma StripKeepsOut(x: string, c: char)
    requires c !in x
    ensures c !in Strip(x)
  {
    var l := LeadingSpaces(x);
    var y := x[l..];
    assert forall k :: 0 <= k < |Strip(x)| ==> Strip(x)[k] == y[k] == x[l + k];
  }

  lemma StripTwice(x: string)
    ensures Strip(Strip(x)) == Strip(x)
  {
    StripEnds(x);
    StripEnds(Strip(x));
  }

  lemma {:induction false} KeptNames(parts: seq<string>)
    requires forall k :: 0 <= k < |parts| ==> ',' !in parts[k]
    ensures forall k :: 0 <= k < |Kept(parts)| ==> PlayerName(Kept(parts)[k])
  {
    if parts != [] {
      KeptNames(parts[1..]);
      StripKeepsOut(parts[0], ',');
      StripTwice(parts[0]);
    }
  }

  /** Every name `_parse_players` returns is non-empty, stripped and free of
      commas. */
  lemma ParsedPlayerNames(s: string)
    ensures forall k :: 0 <= k < |ParsePlayers(s)| ==> PlayerName(ParsePlayers(s)[k])
  {
    var parts := Split(s, ",");
    SplitPiecesLackSeparator(s, ",");
    forall k | 0 <= k < |parts|
      ensures ',' !in parts[k]
    {
      if ',' in parts[k] {
        var j :| 0 <= j < |parts[k]| && parts[k][j] == ',';
        CharContained(parts[k], ',', j);
      }
    }
    KeptNames(parts);
  }

  lemma {:induction false} KeptNamesIdentity(names: seq<string>)
    requires forall k :: 0 <= k < |names| ==> PlayerName(names[k])
    ensures Kept(names) == names
  {
    if names != [] {
      KeptNamesIdentity(names[1..]);
      assert names == [names[0]] + names[1..];
    }
  }

  /** `_parse_players` reads back the names a comma-joined list was made
      of, and drops nothing else: the list `--players` is parsed into is
      exactly the names written, in order. */
  lemma ParsePlayersJoin(names: seq<string>)
    requires forall k :: 0 <= k < |names| ==> PlayerName(names[k])
    ensures ParsePlayers(Join(names, ",")) == names
  {
    if names == [] {
      assert Split("", ",") == [""];
    } else {
      SplitJoin(names, ",");
      KeptNamesIdentity(names);
    }
  }

  /** `list(range(lo, hi))` */
  function Range(lo: int, hi: int): (r: seq<int>)
    ensures |r| == if hi <= lo then 0 else hi - lo
    ensures forall k :: 0 <= k < |r| ==> r[k] == lo + k
  {
    seq(if hi <= lo then 0 else hi - lo, k requires 0 <= k => lo + k)
  }

  /** `[int(x) for x in parts if x]`, `None` for the `ValueError` of a
      piece `int` refuses. */
  function Ints(parts: seq<string>): Option<seq<int>> {
    if parts == [] then Some([])
    else if parts[0] == [] then Ints(parts[1..])
    else
      match (PyInt(parts[0], 10), Ints(parts[1..]))
      case (Some(v), Some(rest)) => Some([v] + rest)
      case _ => None
  }

  /** `_parse_seeds`: "lo..hi" is the inclusive range, anything else a
      comma-separated list of integers; `None` is the `ValueError` of a
      malformed bound, a list item `int` refuses, or a range with more than
      one "..". */
  function ParseSeeds(s: string): Option<seq<int>> {
    if Contains(s, "..") then
      var parts := Split(s, "..");
      if |parts| != 2 then None
      else
        match (PyInt(parts[0], 10), PyInt(parts[1], 10))
        case (Some(lo), Some(hi)) => Some(Range(lo, hi + 1))
        case _ => None
    else Ints(Split(s, ","))
  }

  lemma ShowIntChars(n: int)
    ensures forall k :: 0 <= k < |ShowInt(n)| ==> IsDecDigit(ShowInt(n)[k]) || ShowInt(n)[k] == '-'
  {
  }

  /** `lo..hi` with both bounds written as `str` writes them is the
      ascending range from `lo` to `hi` inclusive, and empty when `hi` is
      below `lo`. */
  lemma SeedRange(lo: int, hi: int)
    ensures ParseSeeds(ShowInt(lo) + ".." + ShowInt(hi)) == Some(Range(lo, hi + 1))
    ensures hi < lo ==> Range(lo, hi + 1) == []
    ensures lo <= hi ==> |Range(lo, hi + 1)| == hi - lo + 1 && Range(lo, hi + 1)[0] == lo
                         && Range(lo, hi + 1)[hi - lo] == hi
  {
    ShowIntChars(lo);
    ShowIntChars(hi);
    SplitRange(ShowInt(lo), ShowInt(hi));
    PyIntShowInt(lo);
    PyIntShowInt(hi);
  }

  /** Two pieces without '.' joined by ".." split back into those two. */
  lemma SplitRange(x: string, y: string)
    requires '.' !in x && '.' !in y
    ensures Contains(x + ".." + y, "..") && Split(x + ".." + y, "..") == [x, y]
  {
    LacksHead(x, "..");
    LacksHead(y, "..");
    FindAtEnd(x, "..", y);
    var s := x + ".." + y;
    assert s[..|x|] == x && s[|x| + 2..] == y;
    SplitAt(s, "..", |x|);
    SplitAbsent(y, "..");
  }

  /** `str` of each seed, joined by commas. */
  function ShowSeeds(seeds: seq<int>): (r: seq<string>)
    ensures |r| == |seeds| && forall k :: 0 <= k < |seeds| ==> r[k] == ShowInt(seeds[k])
  {
    seq(|seeds|, k requires 0 <= k < |seeds| => ShowInt(seeds[k]))
  }

  lemma {:induction false} IntsShown(seeds: seq<int>)
    ensures Ints(ShowSeeds(seeds)) == Some(seeds)
  {
    if seeds != [] {
      var parts := ShowSeeds(seeds);
      assert parts[1..] == ShowSeeds(seeds[1..]);
      IntsShown(seeds[1..]);
      assert parts[0] == ShowInt(seeds[0]) != [];
      PyIntShowInt(seeds[0]);
      assert Ints(parts) == Some([seeds[0]] + seeds[1..]);
      assert [seeds[0]] + seeds[1..] == seeds;
    }
  }

  /** A comma-separated list of seeds as `str` writes them parses back to
      those seeds, in order. */
  lemma SeedList(seeds: seq<int>)
    ensures ParseSeeds(Join(ShowSeeds(seeds), ",")) == Some(seeds)
  {
    var parts := ShowSeeds(seeds);
    var s := Join(parts, ",");
    forall k | 0 <= k < |parts|
      ensures '.' !in parts[k] && ',' !in parts[k]
    {
      ShowIntChars(seeds[k]);
    }
    JoinLacks(parts, ",", '.');
    LacksHead(s, "..");
    if seeds == [] {
      assert Split(s, ",") == [""];
    } else {
      SplitJoin(parts, ",");
      IntsShown(seeds);
    }
  }

  // ---------------------------------------------------------------------------
  // Players and games

  /** What the engine is told to run for an agent: a built blob through the
      runner, or a built-in by its id. */
  datatype Config = Blob(path: string) | Builtin(id: string)

  datatype Player = Player(name: string, cli: string, cfg: Config)

  /** `normalize_player`: a custom agent that was built runs as its blob
      through the runner; any other name is a built-in of that name. */
  function NormalizePlayer(name: string, built: map<string, string>): (p: Player)
    ensures p.name == name
    ensures p.cfg.Blob? <==> name in built
    ensures name in built ==> p.cli == "runner" && p.cfg.path == built[name]
    ensures name !in built ==> p.cli == name && p.cfg.id == name
  {
    if name in built then Player(name, "runner", Blob(built[name]))
    else Player(name, name, Builtin(name))
  }

  /** A call `run_game(a, b, seed, swap=swap)`: `a` plays the engine's slot
      A. */
  datatype Task = Task(a: Player, b: Player, seed: int, swap: bool)

  const VS := "__vs__"
  const SEED := "__seed-"

  /** The name of a game's run directory. */
  function Tag(t: Task): string {
    t.a.name + VS + t.b.name + SEED + Suffix(t)
  }

  /** What follows `__seed-` in a tag: the seed, then "__AB" or, for the
      swapped game, "__BA". */
  function Suffix(t: Task): string {
    ShowInt(t.seed) + "__" + (if t.swap then "BA" else "AB")
  }

  /** `write_match_csv` puts a game on side "B" exactly when its tag ends in
      "BA", that is for the swapped game of a pair. */
  lemma SideOfTag(t: Task)
    ensures EndsWith(Tag(t), "BA") <==> t.swap
  {
    var s := Tag(t);
    assert s[|s| - 2..] == if t.swap then "BA" else "AB";
  }

  /** The two names the leaderboard and the bracket read out of a tag:
      `tag.split("__vs__")[0]` and
      `tag.split("__vs__")[1].split("__seed-")[0]`; `None` for the
      `IndexError` of a tag without "__vs__". */
  function TagNames(tag: string): Option<(string, string)> {
    match Find(tag, VS)
    case None => None
    case Some(i) => Some((tag[..i], Before(Before(tag[i + |VS|..], VS), SEED)))
  }

  /** `TagNames` is the `split` expression. */
  lemma TagNamesSplit(tag: string)
    ensures TagNames(tag).None? <==> |Split(tag, VS)| < 2
    ensures TagNames(tag).Some? ==>
              TagNames(tag).value == (Split(tag, VS)[0], Split(Split(tag, VS)[1], SEED)[0])
  {
  }

  /** The names a tag splits back to correctly: "__vs__" does not start
      inside the first name (not even running on into the "__vs__" after
      it), "__seed-" does not start inside the second, and "__vs__" does
      not occur in the second followed by "__seed-". */
  predicate Separable(a: string, b: string) {
    FirstAtEnd(a, VS) && FirstAtEnd(b, SEED) && !Contains(b + SEED, VS)
  }

  /** A tag's suffix holds no 'v', so no "__vs__" reaches into it. */
  lemma SuffixLacksV(t: Task)
    ensures 'v' !in Suffix(t)
  {
    ShowIntChars(t.seed);
    var x := ShowInt(t.seed);
    var y := "__" + (if t.swap then "BA" else "AB");
    assert Suffix(t) == x + y;
    assert 'v' !in x && 'v' !in y;
  }

  /** After the second name, "__vs__" occurs only where it occurs in
      `b + "__seed-"`, and then with its 'v' inside `b`. */
  lemma VsInRest(b: string, tail: string)
    requires 'v' !in tail
    ensures Contains(b + SEED + tail, VS) ==> Find(b + SEED + tail, VS).value + 2 < |b|
    ensures Contains(b + SEED + tail, VS) <==> Contains(b + SEED, VS)
  {
    var front := b + SEED;
    var rest := front + tail;
    if Contains(rest, VS) {
      var q := Find(rest, VS).value;
      assert rest[q..q + |VS|][2] == rest[q + 2] == 'v';
      assert forall k :: |front| <= k < |rest| ==> rest[k] == tail[k - |front|];
      assert forall k :: |b| <= k < |front| ==> rest[k] == SEED[k - |b|];
      FindPrefix(front, tail, VS, q);
    }
    if Contains(front, VS) {
      ContainsExtend(front, tail, VS);
    }
  }

  /** A first "__vs__" that starts no later than one character after `b`
      in `b + "__seed-" + ...` leaves less than `b` before it. */
  lemma CutShort(b: string, rest: string)
    requires |b| + |SEED| <= |rest| && rest[..|b| + |SEED|] == b + SEED
    requires Contains(rest, VS) && Find(rest, VS).value <= |b| + 1
    ensures Before(Before(rest, VS), SEED) != b
  {
    var q := Find(rest, VS).value;
    var r1 := rest[..q];
    assert Before(rest, VS) == r1;
    if Contains(r1, SEED) {
      var j := Find(r1, SEED).value;
      assert j + |SEED| <= q;
    }
    assert rest[q + 2] == 'v';
    assert rest[..|b| + |SEED|][|b| + 2] == 's';
  }

  /** The first "__vs__" of `a + "__vs__" + rest` is the one after `a`
      exactly when none starts inside `a`. */
  lemma FirstNameBack(a: string, rest: string)
    ensures Find(a + VS + rest, VS) == Some(|a|) <==> FirstAtEnd(a, VS)
  {
    if FirstAtEnd(a, VS) {
      FindAtEnd(a, VS, rest);
    }
    if Find(a + VS + rest, VS) == Some(|a|) {
      FindPrefix(a + VS, rest, VS, |a|);
    }
  }

  /** The second name comes back from the rest of a tag exactly when
      "__seed-" does not start inside it and "__vs__" occurs neither in it
      nor running on into the "__seed-" after it. */
  lemma SecondNameBack(b: string, tail: string)
    requires 'v' !in tail
    ensures Before(Before(b + SEED + tail, VS), SEED) == b
            <==> !Contains(b + SEED, VS) && FirstAtEnd(b, SEED)
  {
    var rest := b + SEED + tail;
    VsInRest(b, tail);
    if Contains(b + SEED, VS) {
      assert rest[..|b| + |SEED|] == b + SEED;
      CutShort(b, rest);
    } else {
      assert Before(rest, VS) == rest;
      if FirstAtEnd(b, SEED) {
        FindAtEnd(b, SEED, tail);
        assert rest[..|b|] == b;
      }
      assert IsAt(rest, SEED, |b|) by {
        assert rest[|b|..|b| + |SEED|] == SEED;
      }
      var j := Find(rest, SEED).value;
      if rest[..j] == b {
        FindPrefix(b + SEED, tail, SEED, j);
      }
    }
  }

  /** A tag made of `a`, `b` and a suffix without 'v' splits back into `a`
      and `b` exactly when they are `Separable`. */
  lemma TagNamesBack(a: string, b: string, tail: string)
    requires 'v' !in tail
    ensures TagNames(a + VS + b + SEED + tail) == Some((a, b)) <==> Separable(a, b)
  {
    var rest := b + SEED + tail;
    var tag := a + VS + rest;
    assert a + VS + b + SEED + tail == tag;
    FirstNameBack(a, rest);
    SecondNameBack(b, tail);
    assert tag[|a| + |VS|..] == rest;
    assert tag[..|a|] == a;
  }

  /** The tag of a game splits back into its two names exactly when the
      names are `Separable`. */
  lemma TagRoundTrip(t: Task)
    ensures TagNames(Tag(t)) == Some((t.a.name, t.b.name)) <==> Separable(t.a.name, t.b.name)
  {
    SuffixLacksV(t);
    TagNamesBack(t.a.name, t.b.name, Suffix(t));
  }

  /** A name free of "__vs__" and "__seed-" is not enough: with `x__vs`
      in slot A the tag `x__vs__vs__y__seed-1__AB` splits into "x" and
      "vs__y". */
  lemma MisreadTag()
    ensures var t := Task(Player("x__vs", "x__vs", Builtin("x__vs")), Player("y", "y", Builtin("y")), 1, false);
            !Contains(t.a.name, VS) && !Contains(t.a.name, SEED) && !Contains(t.b.name, VS) && !Contains(t.b.name, SEED)
            && TagNames(Tag(t)) == Some(("x", "vs__y"))
  {
    var t := Task(Player("x__vs", "x__vs", Builtin("x__vs")), Player("y", "y", Builtin("y")), 1, false);
    assert Suffix(t) == "1__AB" by {
      assert ShowInt(1) == "1";
    }
    Regrouped();
    MisreadSeparable();
    TagNamesBack("x", "vs__y", "1__AB");
    ShortNames();
  }

  /** The tag regrouped around its first "__vs__". */
  lemma Regrouped()
    ensures "x__vs" + VS + "y" + SEED + "1__AB" == "x" + VS + "vs__y" + SEED + "1__AB"
  {
  }

  lemma ShortNames()
    ensures !Contains("x__vs", VS) && !Contains("x__vs", SEED) && !Contains("y", VS) && !Contains("y", SEED)
  {
  }

  /** "x" and "vs__y" are names a tag gives back. */
  lemma MisreadSeparable()
    ensures Separable("x", "vs__y")
  {
    LacksHead("x", VS);
    var s := "vs__y" + SEED;
    forall k: nat | k <= |s|
      ensures !IsAt(s, VS, k)
    {
      if k + |VS| <= |s| {
        assert s[k..k + |VS|][2] == s[k + 2] != 'v';
      }
    }
    assert IsAt(s, SEED, 5) by {
      assert s[5..] == SEED;
    }
    forall k: nat | k < 5
      ensures !IsAt(s, SEED, k)
    {
      var w := s[k..k + |SEED|];
      assert w[0] == s[k] && w[1] == s[k + 1] && w[2] == s[k + 2];
    }
  }

  // ---------------------------------------------------------------------------
  // Schedules

  /** The games `balanced_pair` runs: for each seed in turn, `a` in slot A,
      then the swapped game with `b` in slot A. */
  function PairTasks(a: Player, b: Player, seeds: seq<int>): (r: seq<Task>)
    ensures |r| == 2 * |seeds|
  {
    if seeds == [] then []
    else
      var n := |seeds| - 1;
      PairTasks(a, b, seeds[..n]) + [Task(a, b, seeds[n], false), Task(b, a, seeds[n], true)]
  }

  /** For the `k`-th seed, the pair plays `a` in slot A and then the swapped
      game, one after the other. */
  lemma {:induction false} PairTasksAt(a: Player, b: Player, seeds: seq<int>, k: nat)
    requires k < |seeds|
    ensures PairTasks(a, b, seeds)[2 * k] == Task(a, b, seeds[k], false)
    ensures PairTasks(a, b, seeds)[2 * k + 1] == Task(b, a, seeds[k], true)
    decreases |seeds|
  {
    var n := |seeds| - 1;
    if k < n {
      PairTasksAt(a, b, seeds[..n], k);
    }
  }

  /** `balanced_pair` */
  method BalancedPair(a: string, b: string, seeds: seq<int>, built: map<string, string>)
    returns (runs: seq<Task>)
    ensures runs == PairTasks(NormalizePlayer(a, built), NormalizePlayer(b, built), seeds)
  {
    var aN := NormalizePlayer(a, built);
    var bN := NormalizePlayer(b, built);
    runs := [];
    for k := 0 to |seeds|
      invariant runs == PairTasks(aN, bN, seeds[..k])
    {
      assert seeds[..k + 1][..k] == seeds[..k];
      runs := runs + [Task(aN, bN, seeds[k], false)];
      runs := runs + [Task(bN, aN, seeds[k], true)];
    }
    assert seeds[..|seeds|] == seeds;
  }

  /** `a * b` as `a` blocks of `b`: positions in the round robin are
      counted in whole pair blocks. */
  function Mul(a: nat, b: nat): nat {
    if a == 0 then 0 else Mul(a - 1, b) + b
  }

  lemma {:induction false} MulAdd(a: nat, c: nat, b: nat)
    ensures Mul(a + c, b) == Mul(a, b) + Mul(c, b)
    decreases c
  {
    if c > 0 {
      MulAdd(a, c - 1, b);
    }
  }

  lemma {:induction false} MulIsProduct(a: nat, b: nat)
    ensures Mul(a, b) == a * b
  {
    if a > 0 {
      MulIsProduct(a - 1, b);
    }
  }

  /** The games of `players[i]` against `players[i + 1]`, ...,
      `players[j - 1]`. */
  function RowTasks(players: seq<string>, seeds: seq<int>, built: map<string, string>, i: nat, j: nat): (r: seq<Task>)
    requires i < |players| && j <= |players|
  {
    if j <= i + 1 then []
    else
      RowTasks(players, seeds, built, i, j - 1)
      + PairTasks(NormalizePlayer(players[i], built), NormalizePlayer(players[j - 1], built), seeds)
  }

  lemma {:induction false} RowLength(players: seq<string>, seeds: seq<int>, built: map<string, string>, i: nat, j: nat)
    requires i < |players| && j <= |players|
    ensures |RowTasks(players, seeds, built, i, j)| == Mul(if j <= i + 1 then 0 else j - i - 1, 2 * |seeds|)
    decreases j
  {
    if j > i + 1 {
      RowLength(players, seeds, built, i, j - 1);
    }
  }

  /** The games of the first `i` rows of the round robin. */
  function RoundRobinTasks(players: seq<string>, seeds: seq<int>, built: map<string, string>, i: nat): seq<Task>
    requires i <= |players|
  {
    if i == 0 then []
    else RoundRobinTasks(players, seeds, built, i - 1) + RowTasks(players, seeds, built, i - 1, |players|)
  }

  /** `round_robin`: every pair `i < j` in turn, each position-balanced over
      the seeds. */
  method RoundRobin(players: seq<string>, seeds: seq<int>, built: map<string, string>)
    returns (runs: seq<Task>)
    ensures runs == RoundRobinTasks(players, seeds, built, |players|)
  {
    runs := [];
    for i := 0 to |players|
      invariant runs == RoundRobinTasks(players, seeds, built, i)
    {
      for j := i + 1 to |players|
        invariant runs == RoundRobinTasks(players, seeds, built, i) + RowTasks(players, seeds, built, i, j)
      {
        var pair := BalancedPair(players[i], players[j], seeds, built);
        RowStep(players, seeds, built, i, j);
        AppendAssoc(RoundRobinTasks(players, seeds, built, i), RowTasks(players, seeds, built, i, j), pair);
        runs := runs + pair;
      }
    }
  }

  /** A row grows by the games of its next pair. */
  lemma RowStep(players: seq<string>, seeds: seq<int>, built: map<string, string>, i: nat, j: nat)
    requires i < j < |players|
    ensures RowTasks(players, seeds, built, i, j + 1)
            == RowTasks(players, seeds, built, i, j)
               + PairTasks(NormalizePlayer(players[i], built), NormalizePlayer(players[j], built), seeds)
  {
  }

  lemma AppendAssoc(xs: seq<Task>, ys: seq<Task>, zs: seq<Task>)
    ensures xs + ys + zs == xs + (ys + zs)
  {
  }

  /** The number of pairs in the first `i` rows over `n` players: row `r`
      pairs `r` with each of the `n - 1 - r` later players. */
  function PairsBefore(n: nat, i: nat): nat
    requires i <= n
  {
    if i == 0 then 0 else PairsBefore(n, i - 1) + (n - i)
  }

  /** The rank of the pair `(i, j)` in player order. */
  function PairIndex(n: nat, i: nat, j: nat): nat
    requires i < j <= n
  {
    PairsBefore(n, i) + (j - i - 1)
  }

  lemma {:induction false} PairsBeforeAll(n: nat, i: nat)
    requires i <= n
    ensures 2 * PairsBefore(n, i) == i * (2 * n - i - 1)
  {
    if i > 0 {
      PairsBeforeAll(n, i - 1);
    }
  }

  lemma {:induction false} PairsBeforeGrows(n: nat, i: nat, i2: nat)
    requires i < i2 <= n
    ensures PairsBefore(n, i) + (n - i - 1) <= PairsBefore(n, i2)
    decreases i2
  {
    if i2 > i + 1 {
      PairsBeforeGrows(n, i, i2 - 1);
    }
  }

  /** Pairs are ranked in player order: `(i, j)` before `(i2, j2)` when `i`
      is smaller, or `i` is equal and `j` smaller. */
  lemma PairIndexOrdered(n: nat, i: nat, j: nat, i2: nat, j2: nat)
    requires i < j < n && i2 < j2 < n
    requires i < i2 || (i == i2 && j < j2)
    ensures PairIndex(n, i, j) < PairIndex(n, i2, j2)
  {
    if i < i2 {
      PairsBeforeGrows(n, i, i2);
    }
  }

  lemma {:induction false} RowsLength(players: seq<string>, seeds: seq<int>, built: map<string, string>, i: nat)
    requires i <= |players|
    ensures |RoundRobinTasks(players, seeds, built, i)| == Mul(PairsBefore(|players|, i), 2 * |seeds|)
  {
    if i > 0 {
      RowsLength(players, seeds, built, i - 1);
      RowLength(players, seeds, built, i - 1, |players|);
      MulAdd(PairsBefore(|players|, i - 1), |players| - i, 2 * |seeds|);
    }
  }

  /** The round robin runs `2 * s * C(n, 2)` games: two per seed and pair. */
  lemma RoundRobinCount(players: seq<string>, seeds: seq<int>, built: map<string, string>)
    ensures |RoundRobinTasks(players, seeds, built, |players|)| == 2 * |seeds| * (|players| * (|players| - 1) / 2)
  {
    var n := |players|;
    RowsLength(players, seeds, built, n);
    PairsBeforeAll(n, n);
    MulIsProduct(PairsBefore(n, n), 2 * |seeds|);
    assert PairsBefore(n, n) == n * (n - 1) / 2;
  }

  lemma {:induction false} RowPrefix(players: seq<string>, seeds: seq<int>, built: map<string, string>,
                                     i: nat, j: nat, m: nat)
    requires i < |players| && j <= m <= |players|
    ensures RowTasks(players, seeds, built, i, j) <= RowTasks(players, seeds, built, i, m)
    decreases m
  {
    if j < m {
      RowPrefix(players, seeds, built, i, j, m - 1);
    }
  }

  lemma {:induction false} RowsPrefix(players: seq<string>, seeds: seq<int>, built: map<string, string>,
                                      i: nat, r: nat)
    requires i <= r <= |players|
    ensures RoundRobinTasks(players, seeds, built, i) <= RoundRobinTasks(players, seeds, built, r)
    decreases r
  {
    if i < r {
      RowsPrefix(players, seeds, built, i, r - 1);
    }
  }

  /** The games of the pairs before `(i, j)` in player order. */
  function Earlier(players: seq<string>, seeds: seq<int>, built: map<string, string>, i: nat, j: nat): seq<Task>
    requires i < j <= |players|
  {
    RoundRobinTasks(players, seeds, built, i) + RowTasks(players, seeds, built, i, j)
  }

  /** The round robin in full: the games of the pair `(i, j)`, `i < j`,
      come as one block right after the games of every pair before it in
      player order, `2s` games for each such pair; within the block each
      seed in turn has `players[i]` in slot A first and then the swapped
      game (`PairTasksAt`); and a pair earlier in player order has fewer
      pairs before it (`PairIndexOrdered`). */
  lemma RoundRobinOrder(players: seq<string>, seeds: seq<int>, built: map<string, string>, i: nat, j: nat)
    requires i < j < |players|
    ensures Earlier(players, seeds, built, i, j)
            + PairTasks(NormalizePlayer(players[i], built), NormalizePlayer(players[j], built), seeds)
            <= RoundRobinTasks(players, seeds, built, |players|)
  {
    var n := |players|;
    var done := RoundRobinTasks(players, seeds, built, i);
    var row := RowTasks(players, seeds, built, i, j);
    var pair := PairTasks(NormalizePlayer(players[i], built), NormalizePlayer(players[j], built), seeds);
    var row1 := RowTasks(players, seeds, built, i, j + 1);
    var rowN := RowTasks(players, seeds, built, i, n);
    var all := RoundRobinTasks(players, seeds, built, n);
    assert done + row1 <= done + rowN by {
      RowPrefix(players, seeds, built, i, j + 1, n);
      PrefixAfter(done, row1, rowN);
    }
    assert done + rowN <= all by {
      RowsPrefix(players, seeds, built, i + 1, n);
    }
    assert done + row1 == done + row + pair by {
      assert row1 == row + pair;
    }
    PrefixChain(done + row1, done + rowN, all);
  }

  lemma PrefixAfter(xs: seq<Task>, ys: seq<Task>, zs: seq<Task>)
    requires ys <= zs
    ensures xs + ys <= xs + zs
  {
    assert (xs + zs)[..|xs + ys|] == xs + zs[..|ys|];
  }

  lemma PrefixChain(xs: seq<Task>, ys: seq<Task>, zs: seq<Task>)
    requires xs <= ys && ys <= zs
    ensures xs <= zs
  {
    assert zs[..|xs|] == ys[..|xs|];
  }

  lemma EarlierLength(players: seq<string>, seeds: seq<int>, built: map<string, string>, i: nat, j: nat)
    requires i < j < |players|
    ensures |Earlier(players, seeds, built, i, j)| == 2 * |seeds| * PairIndex(|players|, i, j)
  {
    var n, s := |players|, |seeds|;
    var p := PairIndex(n, i, j);
    var done := RoundRobinTasks(players, seeds, built, i);
    var row := RowTasks(players, seeds, built, i, j);
    assert |done| == Mul(PairsBefore(n, i), 2 * s) by {
      RowsLength(players, seeds, built, i);
    }
    assert |row| == Mul(j - i - 1, 2 * s) by {
      RowLength(players, seeds, built, i, j);
    }
    assert |Earlier(players, seeds, built, i, j)| == Mul(p, 2 * s) by {
      assert Earlier(players, seeds, built, i, j) == done + row;
      MulAdd(PairsBefore(n, i), j - i - 1, 2 * s);
    }
    assert Mul(p, 2 * s) == 2 * s * p by {
      MulIsProduct(p, 2 * s);
    }
  }
}
