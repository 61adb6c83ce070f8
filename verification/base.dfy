/** Shared vocabulary of the board model: optional values (JavaScript `null`,
    `undefined` and failed queries), thrown errors, and the array helpers the
    source uses (`filter`, `find`, `some`). */
module Base {

  /** Database identifiers are UUID strings compared with `===`. */
  type Id = string

  /** A value that may be absent: `null`, `undefined`, or a query whose `data` is missing. */
  datatype Option<+T> = None | Some(value: T) {

    /** The `??` operator: the value when present, otherwise the default. */
    function GetOr(default: T): T {
      match this
      case Some(v) => v
      case None => default
    }
  }

  /** Why a computation threw instead of returning. */
  datatype Fault =
    | TypeError      // a property of `undefined` was read or written
    | NoChallenges   // the challenge query failed or returned no data
    | InsertFailed   // the group insert reported an error

  /** The outcome of a JavaScript function that may throw. */
  datatype Result<+T> = Success(value: T) | Failure(fault: Fault)

  function Min(a: int, b: int): int {
    if a <= b then a else b
  }

  function Max(a: int, b: int): int {
    if a <= b then b else a
  }

  /** JavaScript truthiness of an optional string: `null`, `undefined` and `""` are falsy. */
  predicate Truthy(s: Option<string>) {
    s.Some? && |s.value| > 0
  }

  /** `Array.prototype.filter`: the elements satisfying `p`, in their original order. */
  function Filter<T>(s: seq<T>, p: T -> bool): (r: seq<T>)
    ensures |r| <= |s|
    ensures forall i :: 0 <= i < |r| ==> r[i] in s && p(r[i])
    ensures forall i :: 0 <= i < |s| && p(s[i]) ==> s[i] in r
    ensures multiset(r) <= multiset(s)
    ensures |r| == |s| <==> forall i :: 0 <= i < |s| ==> p(s[i])
    ensures |r| == 0 <==> forall i :: 0 <= i < |s| ==> !p(s[i])
  {
    KeepFacts(s, p);
    Keep(s, p)
  }

  /** The recursion behind `Filter`: the head when it passes, then the kept tail. */
  function Keep<T>(s: seq<T>, p: T -> bool): seq<T> {
    if |s| == 0 then [] else (if p(s[0]) then [s[0]] else []) + Keep(s[1..], p)
  }

  /** What `Filter` promises, proved of `Keep` by induction. */
  lemma {:induction false} KeepFacts<T>(s: seq<T>, p: T -> bool)
    ensures var r := Keep(s, p);
      && |r| <= |s|
      && (forall i :: 0 <= i < |r| ==> r[i] in s && p(r[i]))
      && (forall i :: 0 <= i < |s| && p(s[i]) ==> s[i] in r)
      && multiset(r) <= multiset(s)
      && (|r| == |s| <==> forall i :: 0 <= i < |s| ==> p(s[i]))
      && (|r| == 0 <==> forall i :: 0 <= i < |s| ==> !p(s[i]))
  {
    if |s| > 0 {
      var rest := Keep(s[1..], p);
      KeepFacts(s[1..], p);
      assert forall i :: 1 <= i < |s| ==> s[i] == s[1..][i - 1];
      FilterStep(s, p, rest);
    }
  }

  /** One step of `Filter`: from the promises about the tail's filter, the same
      promises about the whole sequence's. */
  lemma FilterStep<T>(s: seq<T>, p: T -> bool, rest: seq<T>)
    requires |s| > 0
    requires |rest| <= |s| - 1
    requires forall i :: 0 <= i < |rest| ==> rest[i] in s[1..] && p(rest[i])
    requires forall i :: 1 <= i < |s| && p(s[i]) ==> s[i] in rest
    requires multiset(rest) <= multiset(s[1..])
    requires |rest| == |s| - 1 <==> forall i :: 1 <= i < |s| ==> p(s[i])
    requires |rest| == 0 <==> forall i :: 1 <= i < |s| ==> !p(s[i])
    ensures var r := (if p(s[0]) then [s[0]] else []) + rest;
      && |r| <= |s|
      && (forall i :: 0 <= i < |r| ==> r[i] in s && p(r[i]))
      && (forall i :: 0 <= i < |s| && p(s[i]) ==> s[i] in r)
      && multiset(r) <= multiset(s)
      && (|r| == |s| <==> forall i :: 0 <= i < |s| ==> p(s[i]))
      && (|r| == 0 <==> forall i :: 0 <= i < |s| ==> !p(s[i]))
  {
    var head := if p(s[0]) then [s[0]] else [];
    var r := head + rest;
    assert s == [s[0]] + s[1..];
    assert forall i :: 0 <= i < |rest| ==> r[|head| + i] == rest[i];
    assert forall x :: x in s[1..] ==> x in s;
  }

  /** Filtering a single element keeps it exactly when it satisfies `p`. */
  lemma FilterSingle<T>(x: T, p: T -> bool)
    ensures Filter([x], p) == if p(x) then [x] else []
  {
  }

  /** Filtering by a predicate and by its complement splits a sequence into two parts
      that together hold every element exactly as often as the sequence does. */
  lemma {:induction false} FilterPartition<T>(s: seq<T>, p: T -> bool, q: T -> bool)
    requires forall x :: q(x) == !p(x)
    ensures multiset(Filter(s, p)) + multiset(Filter(s, q)) == multiset(s)
    ensures |Filter(s, p)| + |Filter(s, q)| == |s|
  {
    if |s| > 0 {
      FilterPartition(s[1..], p, q);
      assert s == [s[0]] + s[1..];
    }
  }

  /** Filtering a concatenation filters each part. */
  lemma FilterAppend<T>(s: seq<T>, t: seq<T>, p: T -> bool)
    ensures Filter(s + t, p) == Filter(s, p) + Filter(t, p)
  {
    KeepAppend(s, t, p);
  }

  lemma {:induction false} KeepAppend<T>(s: seq<T>, t: seq<T>, p: T -> bool)
    ensures Keep(s + t, p) == Keep(s, p) + Keep(t, p)
  {
    if |s| == 0 {
      assert s + t == t;
    } else {
      var u, head := s + t, if p(s[0]) then [s[0]] else [];
      assert u[0] == s[0] && u[1..] == s[1..] + t;
      KeepAppend(s[1..], t, p);
      calc {
        Keep(u, p);
        head + Keep(s[1..] + t, p);
        head + (Keep(s[1..], p) + Keep(t, p));
        (head + Keep(s[1..], p)) + Keep(t, p);
      }
    }
  }

  /** Where one sequence satisfies `p` at least wherever another does, position
      by position, its filter is at least as long. */
  lemma {:induction false} FilterCountMonotone<T>(s: seq<T>, t: seq<T>, p: T -> bool)
    requires |s| == |t|
    requires forall i :: 0 <= i < |s| && p(s[i]) ==> p(t[i])
    ensures |Filter(s, p)| <= |Filter(t, p)|
  {
    if |s| > 0 {
      assert forall i :: 0 <= i < |s[1..]| ==> s[1..][i] == s[i + 1] && t[1..][i] == t[i + 1];
      FilterCountMonotone(s[1..], t[1..], p);
    }
  }

  /** `s` is in non-decreasing order of `key`. */
  predicate SortedBy<T>(s: seq<T>, key: T -> int) {
    forall i, j :: 0 <= i < j < |s| ==> key(s[i]) <= key(s[j])
  }

  /** Filtering keeps the relative order of the elements it keeps: a sequence
      sorted by `key` stays sorted. */
  lemma {:induction false} FilterKeepsOrder<T>(s: seq<T>, p: T -> bool, key: T -> int)
    requires SortedBy(s, key)
    ensures SortedBy(Filter(s, p), key)
  {
    if |s| > 0 {
      var tail := Filter(s[1..], p);
      SortedSuffix(s, key);
      FilterKeepsOrder(s[1..], p, key);
      HeadBoundsFilter(s, p, key);
      if p(s[0]) {
        SortedCons(s[0], tail, key);
        assert Filter(s, p) == [s[0]] + tail;
      } else {
        assert Filter(s, p) == tail;
      }
    }
  }

  lemma SortedSuffix<T>(s: seq<T>, key: T -> int)
    requires |s| > 0 && SortedBy(s, key)
    ensures SortedBy(s[1..], key)
  {
  }

  lemma HeadBoundsFilter<T>(s: seq<T>, p: T -> bool, key: T -> int)
    requires |s| > 0 && SortedBy(s, key)
    ensures forall i :: 0 <= i < |Filter(s[1..], p)| ==> key(s[0]) <= key(Filter(s[1..], p)[i])
  {
  }

  lemma SortedCons<T>(x: T, tail: seq<T>, key: T -> int)
    requires SortedBy(tail, key)
    requires forall i :: 0 <= i < |tail| ==> key(x) <= key(tail[i])
    ensures SortedBy([x] + tail, key)
  {
  }

  /** The index of the first element of `s` at or after `from` that satisfies `p`. */
  function FindFrom<T>(s: seq<T>, p: T -> bool, from: nat): (r: Option<nat>)
    requires from <= |s|
    ensures r.Some? ==> from <= r.value < |s| && p(s[r.value])
    ensures r.Some? ==> forall j :: from <= j < r.value ==> !p(s[j])
    ensures r.None? ==> forall j :: from <= j < |s| ==> !p(s[j])
    decreases |s| - from
  {
    if from == |s| then None
    else if p(s[from]) then Some(from)
    else FindFrom(s, p, from + 1)
  }

  /** `Array.prototype.findIndex` as an option: the position of the first element satisfying `p`. */
  function FindIndex<T>(s: seq<T>, p: T -> bool): (r: Option<nat>)
    ensures r.Some? ==> r.value < |s| && p(s[r.value])
    ensures r.Some? ==> forall j :: 0 <= j < r.value ==> !p(s[j])
    ensures r.None? ==> forall j :: 0 <= j < |s| ==> !p(s[j])
  {
    FindFrom(s, p, 0)
  }

  /** `Array.prototype.find`: the first element satisfying `p`, or `undefined`. */
  function Find<T>(s: seq<T>, p: T -> bool): (r: Option<T>)
    ensures r.Some? <==> exists j :: 0 <= j < |s| && p(s[j])
    ensures r.Some? ==> exists k :: 0 <= k < |s| && s[k] == r.value && p(s[k]) && forall j :: 0 <= j < k ==> !p(s[j])
  {
    match FindIndex(s, p)
    case Some(k) => Some(s[k])
    case None => None
  }

  /** The optional-chaining form `xs?.find(p)` on a query result that may be
      missing; `xs?.some(p)` is its `Some?`. */
  function FindIn<T>(s: Option<seq<T>>, p: T -> bool): Option<T> {
    match s
    case Some(rows) => Find(rows, p)
    case None => None
  }
}
