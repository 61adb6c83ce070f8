/** The administrator dashboard (src/routes/Admin.tsx): per-group done/total
    counts, the joined board of one group, the 4-by-4 matrix handed to
    `checkLines`, the count of completed cells, file links, and the medal
    standings of the achievements. */
module AdminPage {
  import opened Base
  import opened Layout
  import opened Bingo
  import opened BoardPage

  /** A row of `groups` as the dashboard reads it. */
  datatype GroupInfo = GroupInfo(id: Id, name: string, createdAt: int)

  /** A group with the number of its completed progress rows and of all its rows. */
  datatype GroupSummary = GroupSummary(group: GroupInfo, done: nat, total: nat)

  /** One cell of the opened board: the assignment and its progress row, or `{}`. */
  datatype Entry = Entry(assignment: Assignment, progress: Option<ProgressRow>)

  /** What clicking a tile's file does: an alert, or a new tab on this URL. */
  datatype Opened = NothingToOpen | OpenTab(url: string)

  /** The medal symbols: 🥇 🥈 🥉 🏆 🏅 🎖️. */
  datatype Medal = Gold | Silver | Bronze | Trophy | SportsMedal | MilitaryMedal

  /** An achievement as the dashboard fetches it, ordered by `created_at`. */
  datatype Ranked = Ranked(achievement: Achievement, createdAt: int, groupName: Option<string>)

  /** One line of a standings list: 1-based rank, medal and achievement. */
  datatype Standing = Standing(rank: nat, medal: Medal, entry: Ranked)

  /** The fixed server address relative file paths are resolved against. */
  const ApiUrl: string := "https://217.182.169.59"

  /** The side of the matrix the dashboard builds. */
  const AdminSide: nat := 4

  // ---------------------------------------------------------------------
  // loadGroups
  // ---------------------------------------------------------------------

  predicate IsCompleted(p: ProgressRow) {
    p.completed
  }

  /** `done` and `total` of one group: 0 and 0 when its progress query has no data. */
  function Tally(progress: Option<seq<ProgressRow>>): (dt: (nat, nat))
    ensures dt.0 <= dt.1
    ensures progress.None? ==> dt == (0, 0)
    ensures progress.Some? ==> dt.1 == |progress.value|
    ensures progress.Some? ==> (dt.0 == dt.1 <==> forall i :: 0 <= i < |progress.value| ==> progress.value[i].completed)
    ensures progress.Some? ==> (dt.0 == 0 <==> forall i :: 0 <= i < |progress.value| ==> !progress.value[i].completed)
  {
    match progress
    case None => (0, 0)
    case Some(rows) => (|Filter(rows, IsCompleted)|, |rows|)
  }

  /** The tally counts rows: over a concatenation it adds up, and one row counts
      once towards `total` and once towards `done` exactly when it is completed. */
  lemma TallyCountsRows(a: seq<ProgressRow>, b: seq<ProgressRow>, row: ProgressRow)
    ensures Tally(Some(a + b)).0 == Tally(Some(a)).0 + Tally(Some(b)).0
    ensures Tally(Some(a + b)).1 == Tally(Some(a)).1 + Tally(Some(b)).1
    ensures Tally(Some([row])) == (if row.completed then 1 else 0, 1)
  {
    FilterAppend(a, b, IsCompleted);
    FilterSingle(row, IsCompleted);
  }

  /** One group of `withProgress`: the group's row with its tally. */
  function Summarize(g: GroupInfo, progress: Option<seq<ProgressRow>>): (s: GroupSummary)
    ensures s.group == g && s.done <= s.total
    ensures (s.done, s.total) == Tally(progress)
    ensures progress.None? ==> s.done == 0 && s.total == 0
  {
    var dt := Tally(progress);
    GroupSummary(g, dt.0, dt.1)
  }

  /** `loadGroups`: no update when the groups query has no data; otherwise each
      group, in order, with its tally. `progressOf` stands for the per-group query. */
  function LoadGroups(groups: Option<seq<GroupInfo>>, progressOf: Id -> Option<seq<ProgressRow>>): (r: Option<seq<GroupSummary>>)
    ensures r.None? <==> groups.None?
    ensures r.Some? ==> |r.value| == |groups.value|
    ensures r.Some? ==> forall i :: 0 <= i < |r.value| ==>
      && r.value[i].group == groups.value[i]
      && r.value[i].done <= r.value[i].total
      && (progressOf(groups.value[i].id).None? ==> r.value[i].done == 0 && r.value[i].total == 0)
      && r.value[i] == Summarize(groups.value[i], progressOf(groups.value[i].id))
  {
    match groups
    case None => None
    case Some(gs) =>
      var summaries := seq(|gs|, i requires 0 <= i < |gs| => Summarize(gs[i], progressOf(gs[i].id)));
      assert forall i :: 0 <= i < |gs| ==> summaries[i] == Summarize(gs[i], progressOf(gs[i].id));
      Some(summaries)
  }

  /** A committed upload keeps a group's row count and never lowers its done count. */
  lemma UploadKeepsTally(progress: seq<ProgressRow>, id: Id, response: UploadResponse)
    ensures Tally(Some(Upload(progress, id, response))).1 == Tally(Some(progress)).1
    ensures Tally(Some(progress)).0 <= Tally(Some(Upload(progress, id, response))).0
  {
    FilterCountMonotone(progress, Upload(progress, id, response), IsCompleted);
  }

  // ---------------------------------------------------------------------
  // openGroup
  // ---------------------------------------------------------------------

  /** `openGroup`: one entry per assignment, in order, holding the first progress
      row about the same challenge, or `{}`; nothing when the assignment query
      has no data. */
  function OpenGroup(assignments: Option<seq<Assignment>>, progress: Option<seq<ProgressRow>>): (board: seq<Entry>)
    ensures assignments.None? ==> board == []
    ensures assignments.Some? ==> |board| == |assignments.value|
    ensures assignments.Some? ==> forall i :: 0 <= i < |board| ==> board[i].assignment == assignments.value[i]
    ensures forall i :: 0 <= i < |board| ==>
      (board[i].progress.None? <==> NoProgressFor(progress, board[i].assignment.challengeId))
    ensures forall i, k: nat :: 0 <= i < |board| && FirstProgressFor(progress, k, board[i].assignment.challengeId) ==>
      board[i].progress == Some(progress.value[k])
  {
    match assignments
    case None => []
    case Some(rows) =>
      seq(|rows|, i requires 0 <= i < |rows| => Entry(rows[i], ProgressFor(progress, rows[i].challengeId)))
  }

  /** The dashboard and the player page pair each assignment with the same
      progress row, so they agree on which cells are completed. */
  lemma OpenGroupAgreesWithBoard(assignments: seq<Assignment>, challenges: Option<seq<Challenge>>,
                                 progress: Option<seq<ProgressRow>>, i: nat)
    requires i < |assignments|
    ensures var board := OpenGroup(Some(assignments), progress);
      var tiles := GetBoard(Some(assignments), challenges, progress);
      i < |board| && i < |tiles| && (Completed(board[i]) <==> tiles[i].completed)
  {
  }

  // ---------------------------------------------------------------------
  // matrix and feitos
  // ---------------------------------------------------------------------

  /** `a.progress?.completed`. */
  predicate Completed(e: Entry) {
    e.progress.Some? && e.progress.value.completed
  }

  /** The entry is completed and sits at cell (r, c). */
  predicate Marks(e: Entry, r: int, c: int) {
    Completed(e) && e.assignment.row == r && e.assignment.col == c
  }

  /** The entry is completed but its row lies outside the matrix, so writing
      `m[a.row][a.col]` reads a property of `undefined`. */
  predicate OffRows(e: Entry, side: nat) {
    Completed(e) && !(0 <= e.assignment.row < side)
  }

  /** A side-by-side matrix. */
  predicate Square(m: Matrix, side: nat) {
    |m| == side && forall r :: 0 <= r < side ==> |m[r]| == side
  }

  /** The `forEach` over the board: each completed entry marks its cell. A
      column outside the matrix stores a `true` past the row's end (after holes
      when it lies further out) or, when negative, a property that is not an
      index. Neither changes what `checkLines` reports: `every(Boolean)` over a
      row or over `flat()` cannot be made false by a `true`, and the columns and
      diagonals it reads all lie inside the matrix. */
  function Paint(m: Matrix, board: seq<Entry>, side: nat): (r: Result<Matrix>)
    requires Square(m, side)
    ensures r.Failure? <==> exists k :: 0 <= k < |board| && OffRows(board[k], side)
    ensures r.Success? ==> Square(r.value, side)
    ensures r.Success? ==> forall i, j :: 0 <= i < side && 0 <= j < side ==>
      (r.value[i][j] <==> m[i][j] || exists k :: 0 <= k < |board| && Marks(board[k], i, j))
    decreases |board|
  {
    if |board| == 0 then Success(m)
    else
      var e := board[0];
      assert forall k :: 1 <= k < |board| ==> board[1..][k - 1] == board[k];
      if !Completed(e) then Paint(m, board[1..], side)
      else if !(0 <= e.assignment.row < side) then Failure(TypeError)
      else if !(0 <= e.assignment.col < side) then Paint(m, board[1..], side)
      else Paint(Mark(m, e.assignment.row, e.assignment.col), board[1..], side)
  }

  /** `matrix()` with the matrix side as a parameter. */
  function BoardMatrix(board: seq<Entry>, side: nat): (r: Result<Matrix>)
    ensures r.Failure? <==> exists k :: 0 <= k < |board| && OffRows(board[k], side)
    ensures r.Success? ==> Square(r.value, side)
    ensures r.Success? ==> forall i, j :: 0 <= i < side && 0 <= j < side ==>
      (r.value[i][j] <==> exists k :: 0 <= k < |board| && Marks(board[k], i, j))
  {
    Paint(Blank(side), board, side)
  }

  /** `board.filter(a => a.progress?.completed).length`. */
  function Feitos(board: seq<Entry>): (n: nat)
    ensures n <= |board|
    ensures n == 0 <==> forall k :: 0 <= k < |board| ==> !Completed(board[k])
  {
    |Filter(board, Completed)|
  }

  /** `feitos` counts completed entries: over a concatenation it adds up, and one
      entry counts exactly when it is completed. */
  lemma FeitosCountsCompleted(a: seq<Entry>, b: seq<Entry>, e: Entry)
    ensures Feitos(a + b) == Feitos(a) + Feitos(b)
    ensures Feitos([e]) == if Completed(e) then 1 else 0
  {
    FilterAppend(a, b, Completed);
    FilterSingle(e, Completed);
  }

  /** With every entry inside the matrix, the count of completed entries is zero
      exactly when no cell of the matrix is marked. */
  lemma FeitosMatchesMatrix(board: seq<Entry>, side: nat)
    requires forall k :: 0 <= k < |board| ==>
      0 <= board[k].assignment.row < side && 0 <= board[k].assignment.col < side
    ensures BoardMatrix(board, side).Success?
    ensures Feitos(board) == 0 <==> forall i, j :: 0 <= i < side && 0 <= j < side ==> !BoardMatrix(board, side).value[i][j]
  {
    var m := BoardMatrix(board, side).value;
    if Feitos(board) != 0 {
      var k :| 0 <= k < |board| && Completed(board[k]);
      var r, c := board[k].assignment.row, board[k].assignment.col;
      assert Marks(board[k], r, c);
      assert m[r][c];
    }
  }

  /** As written: the dashboard's 4-by-4 matrix over a board laid out on the
      3-by-3 grid keeps row 3 and column 3 empty, so `checkLines` never reports a
      line or a bingo, however many cells are completed. */
  lemma AdminNeverReports(board: seq<Entry>)
    requires forall k :: 0 <= k < |board| ==> OnGrid(board[k].assignment.row, board[k].assignment.col)
    ensures BoardMatrix(board, AdminSide).Success?
    ensures CheckLines(BoardMatrix(board, AdminSide).value) == Success(Lines(false, false))
  {
    var m := BoardMatrix(board, AdminSide).value;
    forall j | 0 <= j < AdminSide
      ensures !m[AdminSide - 1][j] && !m[j][AdminSide - 1]
    {
      assert forall k :: 0 <= k < |board| ==> !Marks(board[k], AdminSide - 1, j) && !Marks(board[k], j, AdminSide - 1);
    }
    EmptyEdgesReportNothing(m);
  }

  /** A 4-by-4 matrix whose last row and last column are empty has no complete
      line and is not full. */
  lemma EmptyEdgesReportNothing(m: Matrix)
    requires Square(m, AdminSide)
    requires forall j :: 0 <= j < AdminSide ==> !m[AdminSide - 1][j] && !m[j][AdminSide - 1]
    ensures CheckLinesOf(m, AdminSide) == Success(Lines(false, false))
  {
    assert !m[0][3] && !m[1][3] && !m[2][3] && !m[3][3];
    assert !RowComplete(m, 0) && !RowComplete(m, 1) && !RowComplete(m, 2) && !RowComplete(m, 3);
    assert !m[3][0] && !m[3][1] && !m[3][2];
    assert !ColumnComplete(m, 0) && !ColumnComplete(m, 1) && !ColumnComplete(m, 2) && !ColumnComplete(m, 3);
  }

  /** Corrected: a 3-by-3 matrix checked with side 3 reports a bingo exactly when
      every cell of the grid holds a completed entry, and a line whenever it
      reports a bingo. */
  lemma CorrectedAdminReports(board: seq<Entry>)
    requires forall k :: 0 <= k < |board| ==> OnGrid(board[k].assignment.row, board[k].assignment.col)
    ensures BoardMatrix(board, BoardSide).Success?
    ensures var lines := CheckLinesOf(BoardMatrix(board, BoardSide).value, BoardSide);
      && lines.Success?
      && (lines.value.hasBingo <==> forall r, c :: OnGrid(r, c) ==> exists k :: 0 <= k < |board| && Marks(board[k], r, c))
      && (lines.value.hasBingo ==> lines.value.hasLine)
  {
    var m := BoardMatrix(board, BoardSide).value;
    var lines := CheckLinesOf(m, BoardSide);
    assert AllCells(m) <==> forall r, c :: OnGrid(r, c) ==> m[r][c];
    if lines.value.hasBingo {
      BingoImpliesLine(m, BoardSide);
    }
  }

  // ---------------------------------------------------------------------
  // openFile
  // ---------------------------------------------------------------------

  predicate StartsWith(s: string, prefix: string) {
    |prefix| <= |s| && s[..|prefix|] == prefix
  }

  /** An absolute URL as `openFile` recognises it. */
  predicate IsAbsolute(url: string) {
    StartsWith(url, "http://") || StartsWith(url, "https://")
  }

  /** `openFile(path)`: nothing for an empty path, an absolute URL unchanged, and
      any other path appended to the server address. */
  function OpenFile(path: string): (o: Opened)
    ensures path == "" <==> o.NothingToOpen?
    ensures o.OpenTab? ==> IsAbsolute(o.url)
    ensures o.OpenTab? ==> |path| <= |o.url| && o.url[|o.url| - |path|..] == path
    ensures o.OpenTab? && IsAbsolute(path) ==> o.url == path
    ensures o.OpenTab? && !IsAbsolute(path) ==> StartsWith(o.url, ApiUrl) && |o.url| == |ApiUrl| + |path|
  {
    if path == "" then NothingToOpen
    else if IsAbsolute(path) then OpenTab(path)
    else
      var url := ApiUrl + path;
      assert url[..|"https://"|] == "https://";
      assert url[..|ApiUrl|] == ApiUrl;
      assert url[|url| - |path|..] == path;
      OpenTab(url)
  }

  /** Opening the URL a path resolves to opens the same URL. */
  lemma OpenFileIdempotent(path: string)
    requires OpenFile(path).OpenTab?
    ensures OpenFile(OpenFile(path).url) == OpenFile(path)
  {
  }

  // ---------------------------------------------------------------------
  // Medal standings
  // ---------------------------------------------------------------------

  /** `[first, second, third][i] || fallback`. */
  function MedalAt(podium: seq<Medal>, fallback: Medal, i: nat): Medal {
    if i < |podium| then podium[i] else fallback
  }

  /** The standings list for one kind: the achievements of that kind in the
      fetched order, ranked 1, 2, 3, ... with the podium medals first. */
  function Standings(all: seq<Ranked>, kind: string, podium: seq<Medal>, fallback: Medal): (r: seq<Standing>)
    ensures |r| == |Filter(all, (a: Ranked) => a.achievement.kind == kind)|
    ensures forall i :: 0 <= i < |r| ==>
      && r[i].rank == i + 1
      && r[i].entry.achievement.kind == kind
      && r[i].entry in all
      && r[i].medal == (if i < |podium| then podium[i] else fallback)
    ensures forall i :: 0 <= i < |all| && all[i].achievement.kind == kind ==>
      exists j :: 0 <= j < |r| && r[j].entry == all[i]
  {
    var ofKind := Filter(all, (a: Ranked) => a.achievement.kind == kind);
    var r := seq(|ofKind|, i requires 0 <= i < |ofKind| => Standing(i + 1, MedalAt(podium, fallback, i), ofKind[i]));
    forall i | 0 <= i < |all| && all[i].achievement.kind == kind
      ensures exists j :: 0 <= j < |r| && r[j].entry == all[i]
    {
      assert all[i] in ofKind;
      var j :| 0 <= j < |ofKind| && ofKind[j] == all[i];
      assert r[j].entry == all[i];
    }
    r
  }

  /** The "Linhas" list: 🥇 🥈 🥉, then 🏅. */
  function LineStandings(all: seq<Ranked>): (r: seq<Standing>)
    ensures forall i :: 0 <= i < |r| ==> r[i].entry.achievement.kind == LineKind
    ensures forall i :: 0 <= i < |r| ==>
      (r[i].rank == 1 <==> r[i].medal == Gold) && (r[i].rank > 3 <==> r[i].medal == SportsMedal)
  {
    Standings(all, LineKind, [Gold, Silver, Bronze], SportsMedal)
  }

  /** The "Bingos" list: 🏆 🥈 🥉, then 🎖️. */
  function BingoStandings(all: seq<Ranked>): (r: seq<Standing>)
    ensures forall i :: 0 <= i < |r| ==> r[i].entry.achievement.kind == BingoKind
    ensures forall i :: 0 <= i < |r| ==>
      (r[i].rank == 1 <==> r[i].medal == Trophy) && (r[i].rank > 3 <==> r[i].medal == MilitaryMedal)
  {
    Standings(all, BingoKind, [Trophy, Silver, Bronze], MilitaryMedal)
  }

  predicate ByCreation(s: seq<Ranked>) {
    SortedBy(s, (a: Ranked) => a.createdAt)
  }

  /** Fetched in `created_at` order, each standings list stays in that order, so
      the earliest achievement of a kind holds rank 1. */
  lemma StandingsInCreationOrder(all: seq<Ranked>, kind: string, podium: seq<Medal>, fallback: Medal)
    requires ByCreation(all)
    ensures var r := Standings(all, kind, podium, fallback);
      forall i, j :: 0 <= i < j < |r| ==> r[i].entry.createdAt <= r[j].entry.createdAt
  {
    var p := (a: Ranked) => a.achievement.kind == kind;
    FilterKeepsOrder(all, p, (a: Ranked) => a.createdAt);
  }
}
