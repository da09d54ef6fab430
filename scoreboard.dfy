/**
 * components/Scoreboard.tsx: the ranking table and the hole-by-hole grid. The
 * ranking is a stable sort of a copy of the roster by total (ascending), as
 * `Array.prototype.sort` is stable; everything else is computed per row.
 */
module Scoreboard {
  import opened Wrappers
  import opened Seqs
  import opened Atoms
  import opened GameLogic
  import opened PlayerManagement

  // ---------------------------------------------------------------- the ranking

  predicate SortedByTotal(s: seq<Player>) {
    forall i, j :: 0 <= i < j < |s| ==> s[i].totalStrokes <= s[j].totalStrokes
  }

  /** Places `x` before the first player whose total is at least `x`'s. */
  function Insert(x: Player, s: seq<Player>): (r: seq<Player>)
    ensures |r| == |s| + 1
    ensures multiset(r) == multiset(s) + multiset{x}
  {
    if |s| == 0 then [x]
    else if x.totalStrokes <= s[0].totalStrokes then [x] + s
    else
      assert s == [s[0]] + s[1..];
      [s[0]] + Insert(x, s[1..])
  }

  lemma {:induction false} InsertKeepsSorted(x: Player, s: seq<Player>)
    requires SortedByTotal(s)
    ensures SortedByTotal(Insert(x, s))
  {
    if |s| > 0 && x.totalStrokes > s[0].totalStrokes {
      var tail := s[1..];
      InsertKeepsSorted(x, tail);
      var rest := Insert(x, tail);
      forall k | 0 <= k < |rest| ensures s[0].totalStrokes <= rest[k].totalStrokes {
        assert rest[k] in multiset(rest);
        if rest[k] != x {
          assert rest[k] in multiset(tail);
          var m :| 0 <= m < |tail| && tail[m] == rest[k];
          assert s[m + 1] == rest[k];
        }
      }
      assert Insert(x, s) == [s[0]] + rest;
    }
  }

  /** `[...players].sort((a, b) => a.totalStrokes - b.totalStrokes)`. */
  function SortByTotal(players: seq<Player>): (r: seq<Player>)
    ensures |r| == |players|
    ensures multiset(r) == multiset(players)
    ensures SortedByTotal(r)
  {
    if |players| == 0 then []
    else
      assert players == [players[0]] + players[1..];
      InsertKeepsSorted(players[0], SortByTotal(players[1..]));
      Insert(players[0], SortByTotal(players[1..]))
  }

  lemma {:induction false} InsertKeepsEqualTotalsInOrder(x: Player, s: seq<Player>, t: int)
    ensures Filter(Insert(x, s), HasTotal(t)) ==
            (if x.totalStrokes == t then [x] + Filter(s, HasTotal(t)) else Filter(s, HasTotal(t)))
  {
    if |s| > 0 && x.totalStrokes > s[0].totalStrokes {
      InsertKeepsEqualTotalsInOrder(x, s[1..], t);
      assert Insert(x, s) == [s[0]] + Insert(x, s[1..]);
    }
  }

  /**
   * The sort is stable: players with equal totals keep their roster order, so
   * filtering the ranking by any total gives exactly the roster's filter.
   */
  lemma {:induction false} SortIsStable(players: seq<Player>, t: int)
    ensures Filter(SortByTotal(players), HasTotal(t)) == Filter(players, HasTotal(t))
  {
    if |players| > 0 {
      SortIsStable(players[1..], t);
      InsertKeepsEqualTotalsInOrder(players[0], SortByTotal(players[1..]), t);
    }
  }

  // ---------------------------------------------------------------- the rows

  /** One row of the ranking table. */
  datatype Row = Row(rank: nat, name: string, total: int, isLeader: bool, isTied: bool, holesPlayed: nat)

  /** The row for position `index` of the ranking. */
  function RowAt(ranked: seq<Player>, index: nat): Row
    requires index < |ranked|
  {
    var p := ranked[index];
    Row(index + 1, p.name, p.totalStrokes,
        index == 0 && p.totalStrokes > 0,
        |Filter(ranked, HasTotal(p.totalStrokes))| > 1,
        |p.scores|)
  }

  function Rows(players: seq<Player>): (rows: seq<Row>)
    ensures |rows| == |players|
  {
    var ranked := SortByTotal(players);
    seq(|ranked|, i requires 0 <= i < |ranked| => RowAt(ranked, i))
  }

  /** At least two entries share entry `i`'s total exactly when some other entry has it. */
  lemma SharedTotal(ranked: seq<Player>, i: nat)
    requires i < |ranked|
    ensures |Filter(ranked, HasTotal(ranked[i].totalStrokes))| > 1 <==>
            exists j :: 0 <= j < |ranked| && j != i && ranked[j].totalStrokes == ranked[i].totalStrokes
  {
    var keep := HasTotal(ranked[i].totalStrokes);
    FilterHasTwo(ranked, keep);
    if exists j :: 0 <= j < |ranked| && j != i && ranked[j].totalStrokes == ranked[i].totalStrokes {
      var j :| 0 <= j < |ranked| && j != i && ranked[j].totalStrokes == ranked[i].totalStrokes;
      if j < i {
        assert keep(ranked[j]) && keep(ranked[i]);
      } else {
        assert keep(ranked[i]) && keep(ranked[j]);
      }
    }
    if |Filter(ranked, keep)| > 1 {
      var a, b :| 0 <= a < b < |ranked| && keep(ranked[a]) && keep(ranked[b]);
      assert a != i || b != i;
    }
  }

  /**
   * Row `i` shows rank i + 1 and the holes played; only the first row can wear
   * the crown, and only with a positive total; a row is marked tied exactly
   * when another player has the same total.
   */
  lemma RowsSpec(players: seq<Player>, i: nat)
    requires i < |players|
    ensures var ranked := SortByTotal(players);
            var row := Rows(players)[i];
            && row.rank == i + 1
            && row.name == ranked[i].name && row.total == ranked[i].totalStrokes
            && row.holesPlayed == |ranked[i].scores|
            && (row.isLeader <==> i == 0 && ranked[i].totalStrokes > 0)
            && (row.isTied <==> exists j :: 0 <= j < |ranked| && j != i && ranked[j].totalStrokes == ranked[i].totalStrokes)
            && (row.isTied <==> |Filter(players, HasTotal(ranked[i].totalStrokes))| > 1)
  {
    var ranked := SortByTotal(players);
    assert Rows(players)[i] == RowAt(ranked, i);
    SharedTotal(ranked, i);
    SortIsStable(players, ranked[i].totalStrokes);
  }

  /** The first of the ranking is a roster member whose total no roster total undercuts. */
  lemma FirstIsLowest(players: seq<Player>)
    requires |players| > 0
    ensures SortByTotal(players)[0] in players
    ensures forall j :: 0 <= j < |players| ==> SortByTotal(players)[0].totalStrokes <= players[j].totalStrokes
  {
    var ranked := SortByTotal(players);
    assert ranked[0] in multiset(ranked);
    forall j | 0 <= j < |players| ensures ranked[0].totalStrokes <= players[j].totalStrokes {
      assert players[j] in multiset(ranked);
      var m :| 0 <= m < |ranked| && ranked[m] == players[j];
      assert m == 0 || ranked[0].totalStrokes <= ranked[m].totalStrokes;
    }
  }

  /**
   * The crown's condition (see `RowsSpec`): when the first of the ranking has a
   * positive total, that player is a leader in the sense of `determineLeaders`.
   */
  lemma CrownedRowLeads(players: seq<Player>)
    requires |players| > 0 && SortByTotal(players)[0].totalStrokes > 0
    ensures SortByTotal(players)[0] in DetermineLeaders(players)
  {
    var ranked := SortByTotal(players);
    FirstIsLowest(players);
    var first := ranked[0];
    assert first.totalStrokes > 0;
    var k :| 0 <= k < |players| && players[k] == first;
    assert IsLeader(players[k], players);
    LeadersMatchReference(players);
    assert LeaderIn(players)(players[k]);
  }

  // ---------------------------------------------------------------- the grid

  /** A grid cell: the count, or '-'. */
  datatype Cell = Strokes(n: int) | Dash

  /** `player.scores[i] || '-'`: a missing entry and 0 both show '-'. */
  function CellAt(scores: seq<Option<int>>, i: nat): (c: Cell)
    ensures c == Dash <==> ScoreAt(scores, i) == 0
    ensures c.Strokes? ==> c.n == ScoreAt(scores, i)
  {
    if i < |scores| && scores[i].Some? && scores[i].value != 0 then Strokes(scores[i].value) else Dash
  }

  /** `Array.from({ length: currentHole })`: a length below 0 gives no column. */
  function Columns(currentHole: int): nat {
    if currentHole > 0 then currentHole else 0
  }

  /** The hole-by-hole grid, one row per player in roster order, one column per hole so far. */
  function Grid(players: seq<Player>, currentHole: int): (grid: seq<seq<Cell>>)
    ensures |grid| == |players|
    ensures forall p :: 0 <= p < |players| ==> |grid[p]| == Columns(currentHole)
    ensures forall p, i :: 0 <= p < |players| && 0 <= i < Columns(currentHole) ==>
              grid[p][i] == CellAt(players[p].scores, i)
  {
    seq(|players|, p requires 0 <= p < |players| =>
      seq(Columns(currentHole), i requires 0 <= i < Columns(currentHole) => CellAt(players[p].scores, i)))
  }

  /** The scoreboard: the "no players" notice, or the table and the grid. */
  datatype View = NoPlayers | Table(rows: seq<Row>, totalHoles: int, grid: seq<seq<Cell>>)

  function Render(players: seq<Player>, gameState: GameState): (v: View)
    ensures v.NoPlayers? <==> |players| == 0
    ensures v.Table? ==> |v.rows| == |players| && |v.grid| == |players|
  {
    if |players| == 0 then NoPlayers
    else Table(Rows(players), gameState.totalHoles, Grid(players, gameState.currentHole))
  }

  /** The count a cell shows; a dash counts 0. */
  function CellCount(c: Cell): int {
    match c
    case Strokes(k) => k
    case Dash => 0
  }

  /** The sum of the counts shown across a grid row. */
  function RowSum(row: seq<Cell>): int {
    if |row| == 0 then 0 else RowSum(row[..|row| - 1]) + CellCount(row[|row| - 1])
  }

  /**
   * The grid agrees with the totals: when the grid has a column for every
   * recorded hole, the counts shown across a player's row add up to the sum of
   * the player's scores, which is the player's total when totals are consistent.
   */
  lemma GridSumsToTotal(players: seq<Player>, currentHole: int, p: nat)
    requires p < |players| && |players[p].scores| <= Columns(currentHole)
    ensures RowSum(Grid(players, currentHole)[p]) == SumScores(players[p].scores)
    ensures TotalsConsistent(players) ==> RowSum(Grid(players, currentHole)[p]) == players[p].totalStrokes
  {
    var row := Grid(players, currentHole)[p];
    RowSumOfCells(row, players[p].scores);
    SumCellsBeyond(players[p].scores, Columns(currentHole));
  }

  lemma {:induction false} RowSumOfCells(row: seq<Cell>, scores: seq<Option<int>>)
    requires forall i :: 0 <= i < |row| ==> row[i] == CellAt(scores, i)
    ensures RowSum(row) == SumCells(scores, |row|)
  {
    if |row| > 0 {
      RowSumOfCells(row[..|row| - 1], scores);
    }
  }

  /** Columns past the recorded holes show dashes and add nothing. */
  lemma {:induction false} SumCellsBeyond(scores: seq<Option<int>>, n: nat)
    requires |scores| <= n
    ensures SumCells(scores, n) == SumScores(scores)
  {
    if n > |scores| {
      SumCellsBeyond(scores, n - 1);
    } else {
      CellsSumToTotal(scores);
    }
  }

  lemma {:induction false} CellsSumToTotal(scores: seq<Option<int>>)
    ensures SumCells(scores, |scores|) == SumScores(scores)
  {
    if |scores| > 0 {
      CellsSumToTotal(scores[1..]);
      SumCellsShift(scores, |scores| - 1);
    }
  }

  /** The sum of the counts shown in the first `n` cells. */
  function SumCells(scores: seq<Option<int>>, n: nat): int {
    if n == 0 then 0 else SumCells(scores, n - 1) + CellCount(CellAt(scores, n - 1))
  }

  lemma {:induction false} SumCellsShift(scores: seq<Option<int>>, n: nat)
    requires 0 < |scores| && n <= |scores| - 1
    ensures SumCells(scores, n + 1) == ScoreAt(scores, 0) + SumCells(scores[1..], n)
  {
    if n > 0 {
      SumCellsShift(scores, n - 1);
      assert ScoreAt(scores, n) == ScoreAt(scores[1..], n - 1);
    }
  }
}
