# Bingo do Fórum — board logic in Dafny

A functional model of the board logic in a small web app where groups work
through a 3-by-3 "bingo" card of challenges and attach a file as proof for each
cell. The model covers:

- `Layout`: line and full-board detection, `checkLines` in `src/lib/layout.ts`.
- `Bingo`: `ensureGroup`, `generateBoard` and `getBoard` in `src/lib/bingo.ts`.
  These cover joining or creating a group and drawing its board from the
  challenge catalogue (common challenges first, then random extras, shuffled,
  sliced to nine and laid out row-major). They also cover joining a group's
  assignments with its challenges and progress rows into tiles.
- `BoardPage`: the player page, `src/routes/Board.tsx`. This covers the 3-by-3
  completion matrix built from the tiles and its evaluation, the achievement
  records and "first of the game" flags, the progress update after an upload,
  and the done count.
- `AdminPage`: the dashboard, `src/routes/Admin.tsx`. This covers the per-group
  done/total counts and the joined board of one group. It also covers the 4-by-4
  matrix handed to `checkLines`, the completed count, file links, and the medal
  standings.
- `Base`: the shared vocabulary. `Option` stands for `null`, `undefined` and
  missing query data. `Result` stands for a call that may throw. There are
  models of `filter`, `find` and `some`.

The database is not modelled as state. Each query result is an input; a query
whose `data` may be null is an `Option`. Each insert or update is a returned
value. `Math.random` is an explicit oracle:

- `draws` stands for the numbers the drawing loop reads; index = `draw % size`,
  and 0 once `draws` runs out.
- `swaps` stands for the exchanges the random-comparator sort performs. Any
  swap sequence gives a permutation, which is all the source relies on.
- `crypto.randomUUID()` and the id the group insert returns are parameters.

JavaScript semantics are written out where they matter:

- Reading `completed[r]` past the last row and calling `.every` on it throws a
  `TypeError`.
- A cell read past the end of a row is `undefined`, which is falsy.
- Writing `m[row][col]` with a row outside the matrix throws.
- With a column outside the matrix, the write stores a `true` past the row's
  end (after holes when further out), or a non-index property when negative.
  `checkLines` reports the same either way: a `true` cannot make
  `every(Boolean)` false, and the columns and diagonals it reads lie inside
  the matrix.
- `!!x?.file_path` and `if (!data.path)` are string truthiness, so `null` and
  `""` are both false.

## Model

| member | source | states |
|---|---|---|
| Layout.CheckLinesOf | src/lib/layout.ts:1-22 | Throws a TypeError exactly when the matrix has fewer rows than the side. Otherwise `hasLine` holds iff one of the first n rows, one of the first n columns, or a diagonal of the leading n-by-n square is complete. `hasBingo` holds iff every cell of every row is done. |
| Layout.CheckLines | src/lib/layout.ts:1-22 | `checkLines` as written, with side 4. It throws exactly when the matrix has fewer than four rows. Otherwise it reports a line and a full board against the same reference definitions as `CheckLinesOf`. |
| Layout.LineCandidates | src/lib/layout.ts:5-18 | The list of row, column and diagonal flags has a true entry exactly when the matching line of the matrix is complete. |
| Layout.EveryFlatten | src/lib/layout.ts:19 | `completed.flat().every(Boolean)` holds exactly when every cell of every row is done. |
| Layout.CheckLinesMonotone | src/lib/layout.ts:1-22 | Marking one more cell done never changes whether the check throws, and never withdraws a reported line or full board. |
| Layout.BingoImpliesLine | src/lib/layout.ts:18-19 | When a full board is reported, a line is reported too. |
| Layout.NothingDoneNothingReported | src/lib/layout.ts:1-22 | A matrix with no cell done and no empty row reports neither a line nor a full board. |
| Layout.BlankReportsNothing | src/lib/layout.ts:1-22 | The all-false square matrices report neither a line nor a full board. |
| Bingo.PickIndex | src/lib/bingo.ts:51 | The random index always lies inside the pool. |
| Bingo.Splice | src/lib/bingo.ts:52 | Removing the picked element leaves the pool one shorter, with exactly that element's occurrence gone. |
| Bingo.DrawExtras | src/lib/bingo.ts:48-53 | The loop keeps `chosen` as a prefix, and stops at nine elements or when the pool runs out. It only appends pool elements, each at most as often as the pool holds it. |
| Bingo.Choose | src/lib/bingo.ts:43-53 | `chosen` starts with the commons and has max(#commons, min(9, #commons + #pool)) elements. After the commons it holds only pool elements, each at most as often as the pool does. |
| Bingo.Shuffle | src/lib/bingo.ts:55 | The random sort returns a permutation of its input. |
| Bingo.Placed | src/lib/bingo.ts:55 | `slice(0, 9)` keeps min(9, length of `chosen`) of the shuffled challenges, drawn from `chosen`. |
| Bingo.Place | src/lib/bingo.ts:58-74 | The i-th placed challenge goes to row-major cell i, and each assignment is paired with a not-completed progress row for the same challenge. |
| Bingo.GenerateBoard | src/lib/bingo.ts:39-75 | Throws exactly when the challenge query has no data. Otherwise it writes min(9, catalogue size) assignments for the group, each naming a catalogue challenge in its own cell of the 3-by-3 grid, plus one not-completed progress row per assignment. |
| Bingo.PlaceFacts | src/lib/bingo.ts:58-65 | Up to nine challenges from the catalogue are written to distinct grid cells, each naming a catalogue challenge. |
| Bingo.CataloguePartition | src/lib/bingo.ts:43-44 | The common challenges and the pool together hold exactly the catalogue. |
| Bingo.CatalogueKinds | src/lib/bingo.ts:43-44 | The pool holds only non-common challenges and the commons only common ones. |
| Bingo.PrefixThenPool | src/lib/bingo.ts:48-53 | A prefix of commons followed by pool elements holds nothing more often than the catalogue does. |
| Bingo.ChooseFacts | src/lib/bingo.ts:43-53 | `chosen` has max(#commons, min(9, catalogue size)) elements. It starts with all commons in catalogue order and continues with non-common challenges only. It repeats nothing beyond the catalogue. |
| Bingo.PlacedCount | src/lib/bingo.ts:47-55 | The board holds min(9, catalogue size) challenges. |
| Bingo.PlacedFromCatalogue | src/lib/bingo.ts:43-55 | The placed challenges, as a multiset, are included in the catalogue. |
| Bingo.PlacedMembers | src/lib/bingo.ts:43-55 | Every placed challenge is a row of the catalogue. |
| Bingo.NoChallengeTwice | src/lib/bingo.ts:43-55 | A catalogue without repeated rows gives a board without a repeated challenge. |
| Bingo.CommonsAlwaysPlaced | src/lib/bingo.ts:46-55 | With at most nine commons, every common challenge is on the board whatever the random draws. |
| Bingo.OnlyCommonsWhenMany | src/lib/bingo.ts:48-55 | With nine or more commons, no pool challenge reaches the board. |
| Bingo.CellIndexRoundTrip | src/lib/bingo.ts:62-63 | Cell and row-major index are inverse on the 3-by-3 grid. |
| Bingo.GroupNamed | src/lib/bingo.ts:8-12 | `maybeSingle` yields a group only when exactly one row has the name; that row is the only one with the name. |
| Bingo.EnsureGroup | src/lib/bingo.ts:4-36 | An existing group is returned with its own token and no new board. Otherwise the call succeeds iff the insert succeeds and the challenge query has data. Then it returns the new group with the fresh token and generates its board. |
| Bingo.EnsureGroupRejoins | src/lib/bingo.ts:8-19 | Joining again under the name of a just-created group finds that group and generates no second board. |
| Bingo.ProgressFor | src/lib/bingo.ts:99 | Absent exactly when no progress row is about the challenge; otherwise the first such row. |
| Bingo.ChallengeFor | src/lib/bingo.ts:98 | Absent exactly when no challenge row has the id; otherwise the first such row. |
| Bingo.JoinTile | src/lib/bingo.ts:97-110 | Position and challenge come from the assignment. Id, completion and file come from the first matching progress row, or default to the assignment id, not completed, no file. The text is that of the first matching challenge, or "Sem texto". |
| Bingo.GetBoard | src/lib/bingo.ts:78-111 | No tiles when the assignment query fails; otherwise one joined tile per assignment, in order. |
| BoardPage.CellDone | src/routes/Board.tsx:43-44 | A cell is done exactly when the first tile placed there has a non-empty file path. |
| BoardPage.TileMatrix | src/routes/Board.tsx:41-46 | The tiles effect builds a 3-by-3 matrix of the cells' done flags. |
| BoardPage.HasRecord | src/routes/Board.tsx:67-69 | Finds a row exactly when the fetched achievements hold one of that kind for the group; finds nothing when the fetch returned no data. |
| BoardPage.AlreadyWon | src/routes/Board.tsx:63-64 | True exactly when the fetched achievements hold one of that kind, of any group; false when the fetch returned no data. |
| BoardPage.InsertFor | src/routes/Board.tsx:66-75 | The insert for one kind is empty or exactly that kind's record for the group. It is non-empty exactly when the result holds and the fetched achievements hold no such record for the group (a fetch without data holds none). |
| BoardPage.CheckAchievements | src/routes/Board.tsx:57-91 | Inserts a line (bingo) record for the group exactly when the result holds and the fetched achievements hold no such record. The inserts are distinct and of those two kinds only. A "first" flag is raised exactly when the result holds and no fetched achievement is of that kind. A fetch without data counts as holding nothing. |
| BoardPage.ResultsStored | src/routes/Board.tsx:66-90 | After a call, every result it saw is recorded for the group. |
| BoardPage.AchievementsRecordedOnce | src/routes/Board.tsx:66-90 | A call made after an earlier call's inserts are stored, with the same results, inserts nothing when its achievements fetch returns the stored rows. For calls made one after another whose fetches succeed, no group gets a second record of a kind. |
| BoardPage.FirstIsFirstOnce | src/routes/Board.tsx:63-89 | Once one group's line (bingo) is stored, no check made afterwards by any group raises the first-line (first-bingo) flag, when that check's achievements fetch returns the stored rows. |
| BoardPage.FailedFetchRecordsAgain | src/routes/Board.tsx:58-89 | When the achievements fetch returns no data, the call inserts every result it saw and raises its "first" flags. A record already stored is then stored a second time. |
| BoardPage.EvaluateTiles | src/routes/Board.tsx:39-52 | Only a nine-tile board is evaluated. It throws exactly when the assumed side exceeds 3. Otherwise the line and bingo indicators match complete lines and a fully done grid, and achievements are checked exactly when one of them holds. |
| BoardPage.BoardEvaluationCrashes | src/routes/Board.tsx:41-47 | As written, every nine-tile board makes `checkLines` throw. |
| BoardPage.CorrectedBoardEvaluation | src/routes/Board.tsx:39-52 | With side 3, a nine-tile board reports a line exactly when a grid row, column or diagonal is fully done. It reports a bingo exactly when all nine cells are done, and never a bingo without a line. |
| BoardPage.Commits | src/routes/Board.tsx:108-118 | The upload is committed only for a response with `ok` whose JSON body has a non-empty `path`. A thrown `fetch` or `json()` commits nothing. |
| BoardPage.Upload | src/routes/Board.tsx:96-131 | The table changes only on an ok response with a truthy path. Then exactly the rows with this id get that path and `completed = true`. |
| BoardPage.UploadIdempotent | src/routes/Board.tsx:121-124 | Committing the same response twice equals committing it once. |
| BoardPage.UploadShowsOnBoard | src/routes/Board.tsx:121-126 | After a committed upload, the reloaded tile for that progress row is completed and shows the new file. |
| BoardPage.DoneCount | src/routes/Board.tsx:136-139 | Counts tiles with a file: all tiles exactly when every tile has one, zero exactly when none does. |
| BoardPage.DoneCountCountsFiles | src/routes/Board.tsx:136-139 | The done count adds up over concatenations, and one tile counts exactly when its file path is non-empty. So it is the number of tiles with a file. |
| BoardPage.BingoIffAllDone | src/routes/Board.tsx:136-139 | On a board with one tile per grid cell, the corrected bingo holds exactly when the done count reaches the tile count. |
| AdminPage.Tally | src/routes/Admin.tsx:48-49 | 0/0 when the progress query has no data; otherwise completed rows over all rows. All rows are done iff every row is completed, and none iff no row is. |
| AdminPage.TallyCountsRows | src/routes/Admin.tsx:48-49 | Both counts add up over concatenations. One row counts once towards `total`, and once towards `done` exactly when it is completed. So `done` is the number of completed rows and `total` the number of rows. |
| AdminPage.Summarize | src/routes/Admin.tsx:42-50 | A group's row is kept together with its done and total, which are exactly its tally. |
| AdminPage.LoadGroups | src/routes/Admin.tsx:34-54 | No update when the groups query has no data; otherwise one summary per group, in order, each the group with the tally of its own progress query. |
| AdminPage.UploadKeepsTally | src/routes/Admin.tsx:48-49 | An upload never changes a group's total and never lowers its done count. |
| AdminPage.OpenGroup | src/routes/Admin.tsx:78-101 | One entry per assignment, in order, holding the first progress row about the same challenge or `{}`; no entries when the query fails. |
| AdminPage.OpenGroupAgreesWithBoard | src/routes/Admin.tsx:93-98 | The dashboard and the player page agree on which assignments are completed. |
| AdminPage.Paint | src/routes/Admin.tsx:106-108 | Throws exactly when a completed entry's row is outside the matrix. Otherwise a cell is marked iff it was, or a completed entry sits there. |
| AdminPage.BoardMatrix | src/routes/Admin.tsx:104-110 | A square matrix whose cells are marked exactly where a completed entry sits; throws exactly as `Paint` does. |
| AdminPage.Feitos | src/routes/Admin.tsx:258 | At most the number of entries, and zero exactly when none is completed. |
| AdminPage.FeitosCountsCompleted | src/routes/Admin.tsx:258 | The completed count adds up over concatenations, and one entry counts exactly when it is completed. So it is the number of completed entries. |
| AdminPage.FeitosMatchesMatrix | src/routes/Admin.tsx:104-110 | With every entry inside the matrix, the completed count is zero exactly when no cell is marked. |
| AdminPage.AdminNeverReports | src/routes/Admin.tsx:257 | As written, a board laid out on the 3-by-3 grid never shows a line or a bingo, however much is completed. |
| AdminPage.EmptyEdgesReportNothing | src/lib/layout.ts:1-22 | A 4-by-4 matrix with empty last row and column has no line and no full board. |
| AdminPage.CorrectedAdminReports | src/routes/Admin.tsx:257 | With a 3-by-3 matrix and side 3, a bingo is reported exactly when every grid cell holds a completed entry, and a line whenever a bingo is. |
| AdminPage.OpenFile | src/routes/Admin.tsx:113-128 | Nothing opens exactly for an empty path. Absolute URLs open unchanged. Any other path opens as the server address followed directly by the path, a URL exactly as long as the two together. The URL is absolute and ends with the path. |
| AdminPage.OpenFileIdempotent | src/routes/Admin.tsx:120-127 | Opening the URL a path resolved to opens the same URL. |
| AdminPage.MedalAt | src/routes/Admin.tsx:193 | The medal at place i: the podium medal for the first three places, the fallback afterwards. |
| AdminPage.Standings | src/routes/Admin.tsx:190-193 | One standing per achievement of the kind, ranked 1, 2, 3, … with the podium medals then the fallback; every achievement of the kind appears. |
| AdminPage.LineStandings | src/routes/Admin.tsx:190-193 | Only line achievements; gold exactly at rank 1, the sports medal exactly past rank 3. |
| AdminPage.BingoStandings | src/routes/Admin.tsx:208-211 | Only bingo achievements; the trophy exactly at rank 1, the military medal exactly past rank 3. |
| AdminPage.StandingsInCreationOrder | src/routes/Admin.tsx:190-193 | Achievements fetched in creation order stay in that order in each list, so rank 1 is the earliest. |

## Left out

- Supabase queries, inserts and updates are not modelled as I/O. Their results are inputs and their writes are returned values. Realtime subscriptions, polling, ordering clauses and query errors other than "no data" are not modelled.
- The file upload request (`fetch`, `FormData`) is reduced to its response: threw, or `ok` with the JSON `path`.
- `localStorage`, `crypto.randomUUID`, `window.open`, `alert`, `console`, date formatting and all rendering are left out. Of `window.open`, only the URL is kept.
- `Math.random` is an oracle parameter, as described above. The distribution of boards is not modelled.
- `ensureGroup` writes `group_token`, `group_id` and `group_name` to `localStorage`. They are returned as a `Session` value.
- Bingo.EnsureGroup: when `generateBoard` throws after the group insert, the model returns the failure only. It does not record that the group row stays behind without a board, nor that the session (`group_token`, `group_id`, `group_name` in `localStorage`, src/lib/bingo.ts:30-32) is already stored for it.
- BoardPage.AchievementsRecordedOnce: holds for calls made one after another, each after the previous call's inserts are stored. `checkAchievements` reads and then inserts without a lock and is started without waiting on every tiles change. So two overlapping calls, from back-to-back uploads or two devices of one group, can both read the same rows and both insert, and the source does not keep a group to one record per kind. Concurrency is not modelled. Calls made one after another are also covered only when the later fetch returns the stored rows: a fetch that fails yields `null`, and the call then inserts a duplicate record (`FailedFetchRecordsAgain`).
- BoardPage.FirstIsFirstOnce: likewise only for calls made one after another whose later fetch returns the stored rows. Two groups whose calls overlap can both raise the "first" flag, and so can a later call whose fetch fails (`FailedFetchRecordsAgain`).
- Bingo.GenerateBoard: the two inserts' own errors are ignored by the source and are not modelled. Neither is a partial write.
- The administrator login, `loadAchievements` error handling and the "/16" label (the dashboard shows `feitos/16` while a board has at most nine cells) are left out. None of them computes board state.
- `api/compress.js`, `src/components/BingoGrid.tsx`, `src/routes/GroupEntry.tsx`, `src/App.tsx`, `src/main.tsx` and `global.d.ts` are not part of this model. They are rendering, routing and media compression.

## Findings

| source | as written | input that shows it | evidently intended | confidence | as-written member | corrected member |
|---|---|---|---|---|---|---|
| src/routes/Board.tsx:41-47 | The tiles effect builds a 3-by-3 matrix and passes it to `checkLines`, which fixes `n = 4` and reads `completed[3].every(...)`. | Any board of nine tiles: row 3 is `undefined` and the call throws. | Check the 3-by-3 matrix with side 3, so lines, bingos and achievements are reported. | not executed | BoardPage.BoardEvaluationCrashes | BoardPage.CorrectedBoardEvaluation |
| src/routes/Admin.tsx:104-110 | The dashboard builds a 4-by-4 matrix from a board whose cells are laid out on rows and columns 0..2, then calls `checkLines` with `n = 4`. | A group with all nine cells completed: row 3 and column 3 stay false, so neither a line nor a bingo is shown. | Build a 3-by-3 matrix and check it with side 3. | not executed | AdminPage.AdminNeverReports | AdminPage.CorrectedAdminReports |
