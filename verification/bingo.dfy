/** Board creation and loading (src/lib/bingo.ts): `ensureGroup`, `generateBoard`
    and `getBoard`, with the database rows they read passed in and the rows they
    write returned. */
module Bingo {
  import opened Base

  // ---------------------------------------------------------------------
  // Rows of the database tables
  // ---------------------------------------------------------------------

  /** A row of `challenges`. `text` may be null. */
  datatype Challenge = Challenge(id: Id, text: Option<string>, isCommon: bool)

  /** A row of `groups`. */
  datatype Group = Group(id: Id, name: string, localToken: string)

  /** A row of `assignments`: which challenge sits at which cell of a group's board. */
  datatype Assignment = Assignment(id: Id, row: int, col: int, challengeId: Id, groupId: Id)

  /** A row of `progress`: a group's state on one challenge. */
  datatype ProgressRow = ProgressRow(id: Id, challengeId: Id, completed: bool, filePath: Option<string>)

  /** The rows `generateBoard` inserts. */
  datatype AssignmentInsert = AssignmentInsert(groupId: Id, challengeId: Id, row: int, col: int)
  datatype ProgressInsert = ProgressInsert(groupId: Id, challengeId: Id, completed: bool)
  datatype BoardWrites = BoardWrites(assignments: seq<AssignmentInsert>, progress: seq<ProgressInsert>)

  /** One cell of the board as the player page sees it. */
  datatype Tile = Tile(id: Id, challengeId: Id, text: string, completed: bool, row: int, col: int, filePath: Option<string>)

  /** What `ensureGroup` leaves in `localStorage`: `group_token`, `group_id`, `group_name`. */
  datatype Session = Session(token: string, groupId: Id, groupName: string)

  /** The group `ensureGroup` returns, the session it stores, and the board it
      generates (only for a group it has just created). */
  datatype Joined = Joined(group: Group, session: Session, board: Option<BoardWrites>)

  /** Number of cells on a board. */
  const Needed: nat := 9

  /** Cells per row of the board grid. */
  const BoardSide: nat := 3

  /** The text shown for a challenge that cannot be found. */
  const NoText: string := "Sem texto"

  // ---------------------------------------------------------------------
  // generateBoard
  // ---------------------------------------------------------------------

  predicate IsCommon(c: Challenge) {
    c.isCommon
  }

  predicate IsExtra(c: Challenge) {
    !c.isCommon
  }

  /** `all.filter(c => c.is_common)`. */
  function Commons(all: seq<Challenge>): seq<Challenge> {
    Filter(all, IsCommon)
  }

  /** `all.filter(c => !c.is_common)`. */
  function Pool(all: seq<Challenge>): seq<Challenge> {
    Filter(all, IsExtra)
  }

  /** `Math.floor(Math.random() * size)`: the next number of the random oracle,
      reduced into `0 .. size-1`. An exhausted oracle draws 0. */
  function PickIndex(draws: seq<nat>, size: nat): (i: nat)
    requires size > 0
    ensures i < size
  {
    if |draws| == 0 then 0 else draws[0] % size
  }

  /** The random oracle after one draw. */
  function Advance(draws: seq<nat>): seq<nat> {
    if |draws| == 0 then [] else draws[1..]
  }

  /** `pool.splice(i, 1)`: the pool without its i-th element. */
  function Splice(pool: seq<Challenge>, i: nat): (rest: seq<Challenge>)
    requires i < |pool|
    ensures |rest| == |pool| - 1
    ensures multiset(rest) + multiset{pool[i]} == multiset(pool)
  {
    assert pool == pool[..i] + [pool[i]] + pool[i + 1..];
    pool[..i] + pool[i + 1..]
  }

  /** The drawing loop: while fewer than nine are chosen and the pool is not
      empty, move a randomly picked pool element to the end of `chosen`. */
  function DrawExtras(chosen: seq<Challenge>, pool: seq<Challenge>, draws: seq<nat>): (r: seq<Challenge>)
    ensures |chosen| <= |r| && r[..|chosen|] == chosen
    ensures |r| == Max(|chosen|, Min(Needed, |chosen| + |pool|))
    ensures multiset(r[|chosen|..]) <= multiset(pool)
    decreases |pool|
  {
    if |chosen| < Needed && |pool| > 0 then
      var i := PickIndex(draws, |pool|);
      var r := DrawExtras(chosen + [pool[i]], Splice(pool, i), Advance(draws));
      DrawStep(chosen, pool[i], pool, Splice(pool, i), r);
      r
    else
      chosen
  }

  /** One iteration of the drawing loop keeps the loop's promises. */
  lemma DrawStep(chosen: seq<Challenge>, x: Challenge, pool: seq<Challenge>, rest: seq<Challenge>, r: seq<Challenge>)
    requires multiset(rest) + multiset{x} == multiset(pool)
    requires |chosen| + 1 <= |r| && r[..|chosen| + 1] == chosen + [x]
    requires multiset(r[|chosen| + 1..]) <= multiset(rest)
    ensures r[..|chosen|] == chosen
    ensures multiset(r[|chosen|..]) <= multiset(pool)
  {
    assert r[..|chosen|] == r[..|chosen| + 1][..|chosen|];
    assert r[|chosen|..] == [x] + r[|chosen| + 1..];
  }

  /** `chosen` after the loop: every common challenge, then the random extras. */
  function Choose(all: seq<Challenge>, draws: seq<nat>): (chosen: seq<Challenge>)
    ensures |Commons(all)| <= |chosen| && chosen[..|Commons(all)|] == Commons(all)
    ensures |chosen| == Max(|Commons(all)|, Min(Needed, |Commons(all)| + |Pool(all)|))
    ensures multiset(chosen[|Commons(all)|..]) <= multiset(Pool(all))
  {
    DrawExtras(Commons(all), Pool(all), draws)
  }

  /** Exchanges two elements. */
  function Swap<T>(s: seq<T>, i: nat, j: nat): (r: seq<T>)
    requires i < |s| && j < |s|
    ensures |r| == |s| && multiset(r) == multiset(s)
  {
    s[i := s[j]][j := s[i]]
  }

  /** `chosen.sort(() => Math.random() - 0.5)`: some permutation of `s`,
      described by the exchanges the sort performs. */
  function Shuffle<T>(s: seq<T>, swaps: seq<(nat, nat)>): (r: seq<T>)
    ensures |r| == |s| && multiset(r) == multiset(s)
    decreases |swaps|
  {
    if |swaps| == 0 || |s| == 0 then s
    else Shuffle(Swap(s, swaps[0].0 % |s|, swaps[0].1 % |s|), swaps[1..])
  }

  /** `shuffled.slice(0, 9)`: the challenges placed on the board. */
  function Placed(all: seq<Challenge>, draws: seq<nat>, swaps: seq<(nat, nat)>): (placed: seq<Challenge>)
    ensures |placed| == Min(Needed, |Choose(all, draws)|)
    ensures multiset(placed) <= multiset(Choose(all, draws))
  {
    var shuffled := Shuffle(Choose(all, draws), swaps);
    PrefixMultiset(shuffled, Min(Needed, |shuffled|));
    shuffled[..Min(Needed, |shuffled|)]
  }

  /** Row-major position of the i-th placed challenge: row `i / 3`, column `i % 3`. */
  function CellOf(i: nat): (rc: (int, int)) {
    (i / BoardSide, i % BoardSide)
  }

  /** The index a row-major cell stands for. */
  function IndexOf(row: int, col: int): int {
    BoardSide * row + col
  }

  /** The rows inserted into `assignments` and `progress` for the placed challenges. */
  function Place(groupId: Id, placed: seq<Challenge>): (w: BoardWrites)
    ensures |w.assignments| == |placed| && |w.progress| == |placed|
    ensures forall i :: 0 <= i < |placed| ==>
      && w.assignments[i].groupId == groupId
      && w.assignments[i].challengeId == placed[i].id
      && IndexOf(w.assignments[i].row, w.assignments[i].col) == i
      && 0 <= w.assignments[i].col < BoardSide
    ensures forall i :: 0 <= i < |placed| ==>
      w.progress[i] == ProgressInsert(groupId, w.assignments[i].challengeId, false)
  {
    BoardWrites(
      seq(|placed|, i requires 0 <= i < |placed| => AssignmentInsert(groupId, placed[i].id, CellOf(i).0, CellOf(i).1)),
      seq(|placed|, i requires 0 <= i < |placed| => ProgressInsert(groupId, placed[i].id, false)))
  }

  /** The cell inside the 3-by-3 grid. */
  predicate OnGrid(row: int, col: int) {
    0 <= row < BoardSide && 0 <= col < BoardSide
  }

  /** `generateBoard`: throws when the challenge query fails; otherwise one
      assignment per placed challenge, each in its own cell of the 3-by-3 grid,
      and one not-yet-completed progress row per assignment. */
  function GenerateBoard(groupId: Id, all: Option<seq<Challenge>>, draws: seq<nat>, swaps: seq<(nat, nat)>): (r: Result<BoardWrites>)
    ensures r.Failure? <==> all.None?
    ensures r.Failure? ==> r.fault == NoChallenges
    ensures r.Success? ==> |r.value.assignments| == Min(Needed, |all.value|)
    ensures r.Success? ==> forall i :: 0 <= i < |r.value.assignments| ==>
      && r.value.assignments[i].groupId == groupId
      && OnGrid(r.value.assignments[i].row, r.value.assignments[i].col)
      && exists k :: 0 <= k < |all.value| && all.value[k].id == r.value.assignments[i].challengeId
    ensures r.Success? ==> forall i, j :: 0 <= i < j < |r.value.assignments| ==>
      (r.value.assignments[i].row, r.value.assignments[i].col) != (r.value.assignments[j].row, r.value.assignments[j].col)
    ensures r.Success? ==> |r.value.progress| == |r.value.assignments| && forall i :: 0 <= i < |r.value.progress| ==>
      r.value.progress[i] == ProgressInsert(groupId, r.value.assignments[i].challengeId, false)
  {
    match all
    case None => Failure(NoChallenges)
    case Some(challenges) =>
      var placed := Placed(challenges, draws, swaps);
      PlacedCount(challenges, draws, swaps);
      PlacedMembers(challenges, draws, swaps);
      PlaceFacts(groupId, challenges, placed);
      Success(Place(groupId, placed))
  }

  /** The writes for up to nine challenges drawn from the catalogue: each names a
      catalogue challenge, in its own cell of the grid. */
  lemma PlaceFacts(groupId: Id, all: seq<Challenge>, placed: seq<Challenge>)
    requires |placed| <= Needed
    requires forall i :: 0 <= i < |placed| ==> exists k :: 0 <= k < |all| && all[k] == placed[i]
    ensures var w := Place(groupId, placed);
      && (forall i :: 0 <= i < |w.assignments| ==>
            && w.assignments[i].groupId == groupId
            && OnGrid(w.assignments[i].row, w.assignments[i].col)
            && exists k :: 0 <= k < |all| && all[k].id == w.assignments[i].challengeId)
      && (forall i, j :: 0 <= i < j < |w.assignments| ==>
            (w.assignments[i].row, w.assignments[i].col) != (w.assignments[j].row, w.assignments[j].col))
  {
    var w := Place(groupId, placed);
    forall i | 0 <= i < |w.assignments|
      ensures OnGrid(w.assignments[i].row, w.assignments[i].col)
      ensures exists k :: 0 <= k < |all| && all[k].id == w.assignments[i].challengeId
    {
      CellIndexRoundTrip(i, 0, 0);
      var k :| 0 <= k < |all| && all[k] == placed[i];
      assert all[k].id == w.assignments[i].challengeId;
    }
    forall i, j | 0 <= i < j < |w.assignments|
      ensures (w.assignments[i].row, w.assignments[i].col) != (w.assignments[j].row, w.assignments[j].col)
    {
      assert IndexOf(w.assignments[i].row, w.assignments[i].col) == i;
      assert IndexOf(w.assignments[j].row, w.assignments[j].col) == j;
    }
  }

  // ---------------------------------------------------------------------
  // Properties of generateBoard
  // ---------------------------------------------------------------------

  /** The catalogue splits into its common challenges and its pool. */
  lemma CataloguePartition(all: seq<Challenge>)
    ensures multiset(Commons(all)) + multiset(Pool(all)) == multiset(all)
    ensures |Commons(all)| + |Pool(all)| == |all|
  {
    FilterPartition(all, IsCommon, IsExtra);
  }

  /** Every pool challenge is an extra, and every common challenge is common. */
  lemma CatalogueKinds(all: seq<Challenge>)
    ensures forall x :: x in Pool(all) ==> !x.isCommon
    ensures forall x :: x in Commons(all) ==> x.isCommon
  {
  }

  /** A sequence that starts with `prefix` and continues with elements of `pool`
      holds no element more often than `prefix` and `pool` together. */
  lemma PrefixThenPool(prefix: seq<Challenge>, pool: seq<Challenge>, chosen: seq<Challenge>)
    requires |prefix| <= |chosen| && chosen[..|prefix|] == prefix
    requires multiset(chosen[|prefix|..]) <= multiset(pool)
    requires forall x :: x in pool ==> !x.isCommon
    ensures multiset(chosen) <= multiset(prefix) + multiset(pool)
    ensures forall k :: |prefix| <= k < |chosen| ==> !chosen[k].isCommon
  {
    var extras := chosen[|prefix|..];
    assert chosen == prefix + extras;
    forall k | |prefix| <= k < |chosen|
      ensures !chosen[k].isCommon
    {
      assert chosen[k] == extras[k - |prefix|];
      assert chosen[k] in multiset(pool);
    }
  }

  /** `chosen` starts with every common challenge in catalogue order, continues
      with pool challenges only, never holds a challenge more often than the
      catalogue does, and stops at nine or when the pool runs out. */
  lemma ChooseFacts(all: seq<Challenge>, draws: seq<nat>)
    ensures var chosen := Choose(all, draws);
      && |chosen| == Max(|Commons(all)|, Min(Needed, |all|))
      && chosen[..|Commons(all)|] == Commons(all)
      && (forall k :: |Commons(all)| <= k < |chosen| ==> !chosen[k].isCommon)
      && multiset(chosen) <= multiset(all)
  {
    CataloguePartition(all);
    CatalogueKinds(all);
    PrefixThenPool(Commons(all), Pool(all), Choose(all, draws));
  }

  /** The board holds min(9, |all|) challenges. */
  lemma PlacedCount(all: seq<Challenge>, draws: seq<nat>, swaps: seq<(nat, nat)>)
    ensures |Placed(all, draws, swaps)| == Min(Needed, |all|)
  {
    ChooseFacts(all, draws);
    CataloguePartition(all);
  }

  /** A prefix holds no element more often than the whole sequence. */
  lemma PrefixMultiset<T>(s: seq<T>, k: nat)
    requires k <= |s|
    ensures multiset(s[..k]) <= multiset(s)
  {
    assert s == s[..k] + s[k..];
  }

  /** Every placed challenge comes from the catalogue, and none appears more
      often than it does there. */
  lemma PlacedFromCatalogue(all: seq<Challenge>, draws: seq<nat>, swaps: seq<(nat, nat)>)
    ensures multiset(Placed(all, draws, swaps)) <= multiset(all)
  {
    ChooseFacts(all, draws);
    var shuffled := Shuffle(Choose(all, draws), swaps);
    PrefixMultiset(shuffled, Min(Needed, |shuffled|));
  }

  /** Every placed challenge is a row of the catalogue. */
  lemma PlacedMembers(all: seq<Challenge>, draws: seq<nat>, swaps: seq<(nat, nat)>)
    ensures var placed := Placed(all, draws, swaps);
      forall i :: 0 <= i < |placed| ==> exists k :: 0 <= k < |all| && all[k] == placed[i]
  {
    var placed := Placed(all, draws, swaps);
    PlacedFromCatalogue(all, draws, swaps);
    forall i | 0 <= i < |placed|
      ensures exists k :: 0 <= k < |all| && all[k] == placed[i]
    {
      assert placed[i] in multiset(placed);
      assert placed[i] in all;
    }
  }

  /** Each element occurs exactly once. */
  predicate NoRepeats<T(==)>(s: seq<T>) {
    forall x :: x in s ==> multiset(s)[x] == 1
  }

  /** A catalogue without duplicate rows yields a board without a repeated challenge. */
  lemma NoChallengeTwice(all: seq<Challenge>, draws: seq<nat>, swaps: seq<(nat, nat)>)
    requires NoRepeats(all)
    ensures NoRepeats(Placed(all, draws, swaps))
  {
    var placed := Placed(all, draws, swaps);
    PlacedFromCatalogue(all, draws, swaps);
    forall x | x in placed
      ensures multiset(placed)[x] == 1
    {
      assert x in multiset(placed);
      assert x in all;
    }
  }

  /** With at most nine common challenges, every one of them is on the board. */
  lemma CommonsAlwaysPlaced(all: seq<Challenge>, draws: seq<nat>, swaps: seq<(nat, nat)>)
    requires |Commons(all)| <= Needed
    ensures multiset(Commons(all)) <= multiset(Placed(all, draws, swaps))
  {
    ChooseFacts(all, draws);
    var chosen := Choose(all, draws);
    PrefixMultiset(chosen, |Commons(all)|);
    WholeSlice(Shuffle(chosen, swaps));
  }

  /** Slicing nine or fewer elements to nine keeps them all. */
  lemma WholeSlice<T>(s: seq<T>)
    requires |s| <= Needed
    ensures s[..Min(Needed, |s|)] == s
  {
  }

  /** With nine or more common challenges, no pool challenge reaches the board. */
  lemma OnlyCommonsWhenMany(all: seq<Challenge>, draws: seq<nat>, swaps: seq<(nat, nat)>)
    requires |Commons(all)| >= Needed
    ensures forall x :: x in Placed(all, draws, swaps) ==> x.isCommon
  {
    ChooseFacts(all, draws);
    var chosen := Choose(all, draws);
    var commons := Commons(all);
    assert chosen == commons;
    var shuffled := Shuffle(chosen, swaps);
    PrefixMultiset(shuffled, Min(Needed, |shuffled|));
    forall x | x in Placed(all, draws, swaps)
      ensures x.isCommon
    {
      assert x in multiset(Placed(all, draws, swaps));
      assert x in commons;
    }
  }

  /** Cell and index are inverse on the 3-by-3 grid. */
  lemma CellIndexRoundTrip(i: nat, row: int, col: int)
    ensures i < Needed ==> OnGrid(CellOf(i).0, CellOf(i).1) && IndexOf(CellOf(i).0, CellOf(i).1) == i
    ensures OnGrid(row, col) ==> 0 <= IndexOf(row, col) < Needed && CellOf(IndexOf(row, col)) == (row, col)
  {
  }

  // ---------------------------------------------------------------------
  // ensureGroup
  // ---------------------------------------------------------------------

  predicate Named(name: string, g: Group) {
    g.name == name
  }

  /** `.eq('name', name).maybeSingle()`: the only group with this name. No match,
      or an error because several rows match, both leave `data` null. */
  function GroupNamed(groups: seq<Group>, name: string): (r: Option<Group>)
    ensures r.Some? ==> r.value in groups && r.value.name == name
    ensures r.Some? ==> forall i :: 0 <= i < |groups| && groups[i].name == name ==> groups[i] == r.value
    ensures r.None? <==> |Filter(groups, g => Named(name, g))| != 1
  {
    var matches := Filter(groups, g => Named(name, g));
    if |matches| == 1 then Some(matches[0]) else None
  }

  /** The `localStorage` entries written for a group. */
  function SessionOf(g: Group): Session {
    Session(g.localToken, g.id, g.name)
  }

  /** `ensureGroup(name)`. `token` stands for `crypto.randomUUID()`, `groups` for
      the groups table, `newId` for the id the insert returns (absent when the
      insert reports an error), and `challenges`, `draws`, `swaps` for what
      `generateBoard` reads. */
  function EnsureGroup(name: string, token: string, groups: seq<Group>, newId: Option<Id>,
                       challenges: Option<seq<Challenge>>, draws: seq<nat>, swaps: seq<(nat, nat)>): (r: Result<Joined>)
    ensures GroupNamed(groups, name).Some? ==>
      r == Success(Joined(GroupNamed(groups, name).value, SessionOf(GroupNamed(groups, name).value), None))
    ensures GroupNamed(groups, name).None? ==> (r.Success? <==> newId.Some? && challenges.Some?)
    ensures r.Success? ==> r.value.group.name == name && r.value.session == SessionOf(r.value.group)
    ensures r.Success? ==> (r.value.board.Some? <==> GroupNamed(groups, name).None?)
    ensures r.Success? && r.value.board.Some? ==>
      r.value.group == Group(newId.value, name, token) &&
      Success(r.value.board.value) == GenerateBoard(newId.value, challenges, draws, swaps)
  {
    match GroupNamed(groups, name)
    case Some(existing) => Success(Joined(existing, SessionOf(existing), None))
    case None =>
      match newId
      case None => Failure(InsertFailed)
      case Some(id) =>
        var created := Group(id, name, token);
        match GenerateBoard(id, challenges, draws, swaps)
        case Failure(f) => Failure(f)
        case Success(board) => Success(Joined(created, Session(token, created.id, created.name), Some(board)))
  }

  /** Joining again under the name of a group just created, while no other group
      holds that name, finds the created group and generates no second board. */
  lemma EnsureGroupRejoins(name: string, token: string, groups: seq<Group>, newId: Option<Id>,
                           challenges: Option<seq<Challenge>>, draws: seq<nat>, swaps: seq<(nat, nat)>,
                           token': string, newId': Option<Id>, draws': seq<nat>, swaps': seq<(nat, nat)>)
    requires forall i :: 0 <= i < |groups| ==> groups[i].name != name
    requires EnsureGroup(name, token, groups, newId, challenges, draws, swaps).Success?
    ensures var j := EnsureGroup(name, token, groups, newId, challenges, draws, swaps).value;
      EnsureGroup(name, token', groups + [j.group], newId', challenges, draws', swaps') == Success(Joined(j.group, j.session, None))
  {
    var j := EnsureGroup(name, token, groups, newId, challenges, draws, swaps).value;
    var p := g => Named(name, g);
    FilterAppend(groups, [j.group], p);
    assert Filter([j.group], p) == [j.group] by {
      assert [j.group][1..] == [];
    }
  }

  // ---------------------------------------------------------------------
  // getBoard
  // ---------------------------------------------------------------------

  /** Row `k` of a query result is the first one about challenge `cid`. */
  predicate FirstProgressFor(rows: Option<seq<ProgressRow>>, k: nat, cid: Id) {
    && rows.Some?
    && k < |rows.value|
    && rows.value[k].challengeId == cid
    && forall j :: 0 <= j < k ==> rows.value[j].challengeId != cid
  }

  /** No row of a query result (or a missing result) is about challenge `cid`. */
  predicate NoProgressFor(rows: Option<seq<ProgressRow>>, cid: Id) {
    rows.None? || forall j :: 0 <= j < |rows.value| ==> rows.value[j].challengeId != cid
  }

  /** `progress?.find(p => p.challenge_id === cid)`. */
  function ProgressFor(rows: Option<seq<ProgressRow>>, cid: Id): (r: Option<ProgressRow>)
    ensures r.None? <==> NoProgressFor(rows, cid)
    ensures forall k: nat :: FirstProgressFor(rows, k, cid) ==> r == Some(rows.value[k])
  {
    match rows
    case None => None
    case Some(ps) =>
      match FindIndex(ps, (p: ProgressRow) => p.challengeId == cid)
      case None => None
      case Some(k0) =>
        assert forall k: nat :: FirstProgressFor(rows, k, cid) ==> k == k0;
        Some(ps[k0])
  }

  /** Row `k` of a query result is the first challenge with id `cid`. */
  predicate FirstChallengeFor(rows: Option<seq<Challenge>>, k: nat, cid: Id) {
    && rows.Some?
    && k < |rows.value|
    && rows.value[k].id == cid
    && forall j :: 0 <= j < k ==> rows.value[j].id != cid
  }

  /** `challenges?.find(c => c.id === cid)`. */
  function ChallengeFor(rows: Option<seq<Challenge>>, cid: Id): (r: Option<Challenge>)
    ensures r.None? <==> rows.None? || forall j :: 0 <= j < |rows.value| ==> rows.value[j].id != cid
    ensures forall k: nat :: FirstChallengeFor(rows, k, cid) ==> r == Some(rows.value[k])
  {
    match rows
    case None => None
    case Some(cs) =>
      match FindIndex(cs, (c: Challenge) => c.id == cid)
      case None => None
      case Some(k0) =>
        assert forall k: nat :: FirstChallengeFor(rows, k, cid) ==> k == k0;
        Some(cs[k0])
  }

  /** The tile built for one assignment: the first matching progress row supplies
      id, completion and file; the first matching challenge supplies the text. */
  function JoinTile(a: Assignment, challenges: Option<seq<Challenge>>, progress: Option<seq<ProgressRow>>): (t: Tile)
    ensures t.challengeId == a.challengeId && t.row == a.row && t.col == a.col
    ensures NoProgressFor(progress, a.challengeId) ==>
      t.id == a.id && !t.completed && t.filePath == None
    ensures forall k: nat :: FirstProgressFor(progress, k, a.challengeId) ==>
      t.id == progress.value[k].id && t.completed == progress.value[k].completed && t.filePath == progress.value[k].filePath
    ensures ChallengeFor(challenges, a.challengeId).None? ==> t.text == NoText
    ensures forall k: nat :: FirstChallengeFor(challenges, k, a.challengeId) ==>
      t.text == (if challenges.value[k].text.Some? then challenges.value[k].text.value else NoText)
  {
    var challenge := ChallengeFor(challenges, a.challengeId);
    var prog := ProgressFor(progress, a.challengeId);
    Tile(
      id := if prog.Some? then prog.value.id else a.id,
      challengeId := a.challengeId,
      text := if challenge.Some? then challenge.value.text.GetOr(NoText) else NoText,
      completed := prog.Some? && prog.value.completed,
      row := a.row,
      col := a.col,
      filePath := if prog.Some? then prog.value.filePath else None)
  }

  /** `getBoard`: one tile per assignment, in assignment order; no tiles when the
      assignment query fails. */
  function GetBoard(assignments: Option<seq<Assignment>>, challenges: Option<seq<Challenge>>,
                    progress: Option<seq<ProgressRow>>): (tiles: seq<Tile>)
    ensures assignments.None? ==> tiles == []
    ensures assignments.Some? ==> |tiles| == |assignments.value|
    ensures assignments.Some? ==> forall i :: 0 <= i < |tiles| ==>
      tiles[i] == JoinTile(assignments.value[i], challenges, progress)
  {
    match assignments
    case None => []
    case Some(rows) =>
      seq(|rows|, i requires 0 <= i < |rows| => JoinTile(rows[i], challenges, progress))
  }
}
