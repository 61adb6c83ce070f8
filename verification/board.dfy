/** The player's board page (src/routes/Board.tsx): the completion matrix built
    from the tiles, the line/bingo evaluation, the achievement records and
    "first of the game" flags, the commit after an upload, and the done count. */
module BoardPage {
  import opened Base
  import opened Layout
  import opened Bingo

  /** A row of `achievements` as the player page reads and writes it. */
  datatype Achievement = Achievement(kind: string, groupId: Id)

  /** Whether this page saw its group win the first line / first bingo of the game. */
  datatype Firsts = Firsts(line: bool, bingo: bool)

  /** What one `checkAchievements` call does: the rows it inserts and the new flags. */
  datatype AchievementUpdate = AchievementUpdate(inserts: seq<Achievement>, firsts: Firsts)

  /** What the tiles effect does: nothing (not nine tiles), throw, or set the
      line/bingo indicators and possibly run `checkAchievements`. */
  datatype Evaluation =
    | Skipped
    | Crashed
    | Evaluated(kpi: Lines, achievements: Option<AchievementUpdate>)

  /** The upload response: `fetch` or `res.json()` threw, or a response with its
      `ok` flag and the `path` of its JSON body. */
  datatype UploadResponse = Threw | Responded(ok: bool, path: Option<string>)

  const LineKind: string := "line"
  const BingoKind: string := "bingo"

  // ---------------------------------------------------------------------
  // The completion matrix
  // ---------------------------------------------------------------------

  /** `tiles[k]` is the first tile placed at cell (r, c). */
  predicate FirstTileAt(tiles: seq<Tile>, k: nat, r: int, c: int) {
    && k < |tiles|
    && tiles[k].row == r && tiles[k].col == c
    && forall j :: 0 <= j < k ==> !(tiles[j].row == r && tiles[j].col == c)
  }

  /** `!!tiles.find(t => t.row === r && t.col === c)?.file_path`. */
  function CellDone(tiles: seq<Tile>, r: int, c: int): (done: bool)
    ensures done <==> exists k: nat :: FirstTileAt(tiles, k, r, c) && Truthy(tiles[k].filePath)
  {
    match FindIndex(tiles, (t: Tile) => t.row == r && t.col == c)
    case None => false
    case Some(k) =>
      assert forall j: nat :: FirstTileAt(tiles, j, r, c) ==> j == k;
      Truthy(tiles[k].filePath)
  }

  /** The 3-by-3 matrix the tiles effect builds; a cell is done when the first
      tile there carries a file, whatever its `completed` flag says. */
  function TileMatrix(tiles: seq<Tile>): (m: Matrix)
    ensures |m| == BoardSide
    ensures forall r :: 0 <= r < BoardSide ==> |m[r]| == BoardSide
    ensures forall r, c :: 0 <= r < BoardSide && 0 <= c < BoardSide ==> m[r][c] == CellDone(tiles, r, c)
  {
    seq(BoardSide, r requires 0 <= r < BoardSide => seq(BoardSide, c requires 0 <= c < BoardSide => CellDone(tiles, r, c)))
  }

  // ---------------------------------------------------------------------
  // checkAchievements
  // ---------------------------------------------------------------------

  /** Some fetched achievement is a `kind` record of `groupId`. */
  predicate Recorded(existing: Option<seq<Achievement>>, kind: string, groupId: Id) {
    existing.Some? && exists j :: 0 <= j < |existing.value| && existing.value[j] == Achievement(kind, groupId)
  }

  /** Some fetched achievement, of any group, is of this kind. */
  predicate KindTaken(existing: Option<seq<Achievement>>, kind: string) {
    existing.Some? && exists j :: 0 <= j < |existing.value| && existing.value[j].kind == kind
  }

  /** `existing?.find(a => a.group_id === groupId && a.type === kind)` found a row. */
  function HasRecord(existing: Option<seq<Achievement>>, kind: string, groupId: Id): (b: bool)
    ensures b <==> Recorded(existing, kind, groupId)
  {
    FindIn(existing, (a: Achievement) => a.groupId == groupId && a.kind == kind).Some?
  }

  /** `existing?.some(a => a.type === kind)`. */
  function AlreadyWon(existing: Option<seq<Achievement>>, kind: string): (b: bool)
    ensures b <==> KindTaken(existing, kind)
  {
    FindIn(existing, (a: Achievement) => a.kind == kind).Some?
  }

  /** The insert for one kind: only when the result holds and the group has no such record. */
  function InsertFor(won: bool, existing: Option<seq<Achievement>>, kind: string, groupId: Id): (ins: seq<Achievement>)
    ensures ins == [] || ins == [Achievement(kind, groupId)]
    ensures ins != [] <==> won && !Recorded(existing, kind, groupId)
  {
    if won && !HasRecord(existing, kind, groupId) then [Achievement(kind, groupId)] else []
  }

  /** `checkAchievements(hasLine, hasBingo)` given the fetched achievements and the
      flags before the call. */
  function CheckAchievements(groupId: Id, hasLine: bool, hasBingo: bool,
                             existing: Option<seq<Achievement>>, prior: Firsts): (u: AchievementUpdate)
    ensures Achievement(LineKind, groupId) in u.inserts <==> hasLine && !Recorded(existing, LineKind, groupId)
    ensures Achievement(BingoKind, groupId) in u.inserts <==> hasBingo && !Recorded(existing, BingoKind, groupId)
    ensures forall i :: 0 <= i < |u.inserts| ==>
      u.inserts[i] == Achievement(LineKind, groupId) || u.inserts[i] == Achievement(BingoKind, groupId)
    ensures forall i, j :: 0 <= i < j < |u.inserts| ==> u.inserts[i] != u.inserts[j]
    ensures u.firsts.line <==> prior.line || (hasLine && !KindTaken(existing, LineKind))
    ensures u.firsts.bingo <==> prior.bingo || (hasBingo && !KindTaken(existing, BingoKind))
  {
    var inserts := InsertFor(hasLine, existing, LineKind, groupId) + InsertFor(hasBingo, existing, BingoKind, groupId);
    var line := prior.line || (hasLine && !AlreadyWon(existing, LineKind));
    var bingo := prior.bingo || (hasBingo && !AlreadyWon(existing, BingoKind));
    AchievementUpdate(inserts, Firsts(line, bingo))
  }

  /** A stored achievement, old or newly inserted, is found by the next fetch. */
  lemma StoredIsFound(rows: seq<Achievement>, inserts: seq<Achievement>, a: Achievement)
    requires a in rows || a in inserts
    ensures Recorded(Some(rows + inserts), a.kind, a.groupId)
    ensures KindTaken(Some(rows + inserts), a.kind)
  {
    var after := rows + inserts;
    if a in rows {
      var k :| 0 <= k < |rows| && rows[k] == a;
      assert after[k] == a;
    } else {
      var k :| 0 <= k < |inserts| && inserts[k] == a;
      assert after[|rows| + k] == a;
    }
  }

  /** After a call, each result it saw is recorded for the group: either it was
      already, or the call inserts it. */
  lemma ResultsStored(groupId: Id, hasLine: bool, hasBingo: bool, rows: seq<Achievement>, prior: Firsts)
    ensures var u := CheckAchievements(groupId, hasLine, hasBingo, Some(rows), prior);
      && (hasLine ==> Recorded(Some(rows + u.inserts), LineKind, groupId) && KindTaken(Some(rows + u.inserts), LineKind))
      && (hasBingo ==> Recorded(Some(rows + u.inserts), BingoKind, groupId) && KindTaken(Some(rows + u.inserts), BingoKind))
  {
    var u := CheckAchievements(groupId, hasLine, hasBingo, Some(rows), prior);
    var line, bingo := Achievement(LineKind, groupId), Achievement(BingoKind, groupId);
    if hasLine {
      if Recorded(Some(rows), LineKind, groupId) {
        var k :| 0 <= k < |rows| && rows[k] == line;
      }
      StoredIsFound(rows, u.inserts, line);
    }
    if hasBingo {
      if Recorded(Some(rows), BingoKind, groupId) {
        var k :| 0 <= k < |rows| && rows[k] == bingo;
      }
      StoredIsFound(rows, u.inserts, bingo);
    }
  }

  /** Once the inserts of a call are stored, calling again with the same results
      inserts nothing, provided the later fetch returns the stored rows: at most
      one record per group and kind. */
  lemma AchievementsRecordedOnce(groupId: Id, hasLine: bool, hasBingo: bool, rows: seq<Achievement>, prior: Firsts)
    ensures var u := CheckAchievements(groupId, hasLine, hasBingo, Some(rows), prior);
      CheckAchievements(groupId, hasLine, hasBingo, Some(rows + u.inserts), u.firsts).inserts == []
  {
    ResultsStored(groupId, hasLine, hasBingo, rows, prior);
  }

  /** After one group's line record is stored, no later check, by any group,
      whose fetch returns the stored rows claims the first line of the game;
      likewise for bingo. */
  lemma FirstIsFirstOnce(groupId: Id, hasLine: bool, hasBingo: bool, rows: seq<Achievement>, prior: Firsts,
                         other: Id, otherLine: bool, otherBingo: bool, otherPrior: Firsts)
    ensures var u := CheckAchievements(groupId, hasLine, hasBingo, Some(rows), prior);
      var v := CheckAchievements(other, otherLine, otherBingo, Some(rows + u.inserts), otherPrior);
      && (hasLine ==> v.firsts.line == otherPrior.line)
      && (hasBingo ==> v.firsts.bingo == otherPrior.bingo)
  {
    ResultsStored(groupId, hasLine, hasBingo, rows, prior);
  }

  /** When the achievements fetch yields no data, `existing?.find` and
      `existing?.some` are `undefined`: the call inserts every result it saw and
      raises its "first" flags, even if the stored rows already hold the record,
      which then is stored twice. */
  lemma FailedFetchRecordsAgain(groupId: Id, hasLine: bool, hasBingo: bool, rows: seq<Achievement>, prior: Firsts)
    ensures var u := CheckAchievements(groupId, hasLine, hasBingo, None, prior);
      && (hasLine ==> u.firsts.line && Achievement(LineKind, groupId) in u.inserts)
      && (hasBingo ==> u.firsts.bingo && Achievement(BingoKind, groupId) in u.inserts)
      && (hasLine && Achievement(LineKind, groupId) in rows ==>
            multiset(rows + u.inserts)[Achievement(LineKind, groupId)] >= 2)
      && (hasBingo && Achievement(BingoKind, groupId) in rows ==>
            multiset(rows + u.inserts)[Achievement(BingoKind, groupId)] >= 2)
  {
  }

  // ---------------------------------------------------------------------
  // The tiles effect
  // ---------------------------------------------------------------------

  /** The tiles effect, with `side` the board side `checkLines` assumes: only a
      nine-tile board is evaluated, and achievements are checked only when a
      line or a bingo is reported. */
  function EvaluateTiles(tiles: seq<Tile>, side: nat, groupId: Id,
                         existing: Option<seq<Achievement>>, prior: Firsts): (e: Evaluation)
    ensures |tiles| != Needed <==> e.Skipped?
    ensures e.Crashed? <==> |tiles| == Needed && side > BoardSide
    ensures e.Evaluated? ==>
      && (e.kpi.hasLine <==> HasCompleteLine(TileMatrix(tiles), side))
      && (e.kpi.hasBingo <==> forall r, c :: 0 <= r < BoardSide && 0 <= c < BoardSide ==> CellDone(tiles, r, c))
    ensures e.Evaluated? ==> (e.achievements.Some? <==> e.kpi.hasLine || e.kpi.hasBingo)
    ensures e.Evaluated? && e.achievements.Some? ==>
      e.achievements.value == CheckAchievements(groupId, e.kpi.hasLine, e.kpi.hasBingo, existing, prior)
  {
    if |tiles| != Needed then Skipped
    else
      match CheckLinesOf(TileMatrix(tiles), side)
      case Failure(_) => Crashed
      case Success(kpi) =>
        var achievements :=
          if kpi.hasLine || kpi.hasBingo then Some(CheckAchievements(groupId, kpi.hasLine, kpi.hasBingo, existing, prior))
          else None;
        Evaluated(kpi, achievements)
  }

  /** As written, the effect hands a 3-by-3 matrix to `checkLines`, which reads
      row 3 and throws: a nine-tile board is never evaluated, so the line and
      bingo indicators never change and no achievement is ever recorded. */
  lemma BoardEvaluationCrashes(tiles: seq<Tile>, groupId: Id, existing: Option<seq<Achievement>>, prior: Firsts)
    requires |tiles| == Needed
    ensures EvaluateTiles(tiles, Layout.Side, groupId, existing, prior) == Crashed
    ensures CheckLines(TileMatrix(tiles)) == Failure(TypeError)
  {
  }

  /** With the side matching the 3-by-3 board, a nine-tile board is always
      evaluated: a line is reported exactly when a row, column or diagonal of the
      grid has every cell done, a bingo exactly when all nine cells are done, and
      never a bingo without a line. */
  lemma CorrectedBoardEvaluation(tiles: seq<Tile>, groupId: Id, existing: Option<seq<Achievement>>, prior: Firsts)
    requires |tiles| == Needed
    ensures var e := EvaluateTiles(tiles, BoardSide, groupId, existing, prior);
      && e.Evaluated?
      && (e.kpi.hasLine <==>
            || (exists r :: 0 <= r < BoardSide && RowDone(tiles, r))
            || (exists c :: 0 <= c < BoardSide && ColumnDone(tiles, c))
            || DiagonalDone(tiles)
            || AntiDiagonalDone(tiles))
      && (e.kpi.hasBingo <==> forall r, c :: OnGrid(r, c) ==> CellDone(tiles, r, c))
      && (e.kpi.hasBingo ==> e.kpi.hasLine)
  {
    var m := TileMatrix(tiles);
    var e := EvaluateTiles(tiles, BoardSide, groupId, existing, prior);
    if e.kpi.hasBingo {
      BingoImpliesLine(m, BoardSide);
    }
    forall r | 0 <= r < BoardSide
      ensures RowDone(tiles, r) <==> RowComplete(m, r)
    {
    }
    forall c | 0 <= c < BoardSide
      ensures ColumnDone(tiles, c) <==> ColumnComplete(m, c)
    {
    }
    assert AntiDiagonalDone(tiles) <==> AntiDiagonalComplete(m, BoardSide);
  }

  /** Every cell of grid row `r` is done. */
  predicate RowDone(tiles: seq<Tile>, r: int) {
    forall c :: 0 <= c < BoardSide ==> CellDone(tiles, r, c)
  }

  /** Every cell of grid column `c` is done. */
  predicate ColumnDone(tiles: seq<Tile>, c: int) {
    forall r :: 0 <= r < BoardSide ==> CellDone(tiles, r, c)
  }

  /** Cells (0,0), (1,1), (2,2) are done. */
  predicate DiagonalDone(tiles: seq<Tile>) {
    forall i :: 0 <= i < BoardSide ==> CellDone(tiles, i, i)
  }

  /** Cells (0,2), (1,1), (2,0) are done. */
  predicate AntiDiagonalDone(tiles: seq<Tile>) {
    forall i, j :: 0 <= i < BoardSide && j == BoardSide - 1 - i ==> CellDone(tiles, i, j)
  }

  // ---------------------------------------------------------------------
  // Upload commit and done count
  // ---------------------------------------------------------------------

  /** The progress row is written only for an ok response whose body has a truthy `path`. */
  predicate Commits(response: UploadResponse) {
    response.Responded? && response.ok && Truthy(response.path)
  }

  /** `upload(id, file)`: the progress table after the call. On commit every row
      with this id gets the returned path and `completed = true`. */
  function Upload(progress: seq<ProgressRow>, id: Id, response: UploadResponse): (r: seq<ProgressRow>)
    ensures |r| == |progress|
    ensures !Commits(response) ==> r == progress
    ensures forall i :: 0 <= i < |r| && progress[i].id != id ==> r[i] == progress[i]
    ensures Commits(response) ==> forall i :: 0 <= i < |r| && progress[i].id == id ==>
      && r[i].id == id && r[i].challengeId == progress[i].challengeId
      && r[i].completed && r[i].filePath == response.path && Truthy(r[i].filePath)
  {
    if !Commits(response) then progress
    else
      seq(|progress|, i requires 0 <= i < |progress| =>
        if progress[i].id == id then progress[i].(filePath := response.path, completed := true) else progress[i])
  }

  /** Committing the same response twice leaves the table as committing it once. */
  lemma UploadIdempotent(progress: seq<ProgressRow>, id: Id, response: UploadResponse)
    ensures Upload(Upload(progress, id, response), id, response) == Upload(progress, id, response)
  {
  }

  /** After a committed upload, reloading the board shows the tile whose progress
      row was updated as done and carrying the new file. */
  lemma UploadShowsOnBoard(assignments: seq<Assignment>, challenges: Option<seq<Challenge>>,
                           progress: seq<ProgressRow>, id: Id, response: UploadResponse, i: nat, k: nat)
    requires Commits(response)
    requires i < |assignments|
    requires FirstProgressFor(Some(progress), k, assignments[i].challengeId) && progress[k].id == id
    ensures var tiles := GetBoard(Some(assignments), challenges, Some(Upload(progress, id, response)));
      tiles[i].id == id && tiles[i].completed && tiles[i].filePath == response.path && Truthy(tiles[i].filePath)
  {
  }

  predicate HasFile(t: Tile) {
    Truthy(t.filePath)
  }

  /** The done count counts tiles with a file: over a concatenation it adds up,
      and one tile counts exactly when its file path is non-empty. */
  lemma DoneCountCountsFiles(a: seq<Tile>, b: seq<Tile>, t: Tile)
    ensures DoneCount(a + b) == DoneCount(a) + DoneCount(b)
    ensures DoneCount([t]) == if HasFile(t) then 1 else 0
  {
    FilterAppend(a, b, HasFile);
    FilterSingle(t, HasFile);
  }

  /** `tiles.filter(t => t.file_path).length`. */
  function DoneCount(tiles: seq<Tile>): (n: nat)
    ensures n <= |tiles|
    ensures n == |tiles| <==> forall i :: 0 <= i < |tiles| ==> HasFile(tiles[i])
    ensures n == 0 <==> forall i :: 0 <= i < |tiles| ==> !HasFile(tiles[i])
  {
    |Filter(tiles, HasFile)|
  }

  /** On a board with one tile in each cell of the grid, the corrected bingo is
      reported exactly when the done count reaches the number of tiles. */
  lemma BingoIffAllDone(tiles: seq<Tile>, groupId: Id, existing: Option<seq<Achievement>>, prior: Firsts)
    requires |tiles| == Needed
    requires forall i :: 0 <= i < |tiles| ==> OnGrid(tiles[i].row, tiles[i].col)
    requires forall i, j :: 0 <= i < j < |tiles| ==> (tiles[i].row, tiles[i].col) != (tiles[j].row, tiles[j].col)
    requires forall r, c :: OnGrid(r, c) ==> exists k :: 0 <= k < |tiles| && tiles[k].row == r && tiles[k].col == c
    ensures var e := EvaluateTiles(tiles, BoardSide, groupId, existing, prior);
      e.Evaluated? && (e.kpi.hasBingo <==> DoneCount(tiles) == |tiles|)
  {
    var e := EvaluateTiles(tiles, BoardSide, groupId, existing, prior);
    if DoneCount(tiles) == |tiles| {
      forall r, c | 0 <= r < BoardSide && 0 <= c < BoardSide
        ensures CellDone(tiles, r, c)
      {
        assert OnGrid(r, c);
        var k :| 0 <= k < |tiles| && tiles[k].row == r && tiles[k].col == c;
        assert HasFile(tiles[k]);
        var first := FindIndex(tiles, (t: Tile) => t.row == r && t.col == c);
        assert FirstTileAt(tiles, first.value, r, c);
      }
    }
    if e.kpi.hasBingo {
      forall i | 0 <= i < |tiles|
        ensures HasFile(tiles[i])
      {
        var r, c := tiles[i].row, tiles[i].col;
        assert CellDone(tiles, r, c);
        var k: nat :| FirstTileAt(tiles, k, r, c) && Truthy(tiles[k].filePath);
        assert k == i;
      }
    }
  }
}
