/** Choosing which segments to merge, for any scoring and budget. */
module MergePlanning {
  import opened Basics

  /** A segment as the planner sees it; an id stands for one segment. */
  datatype Segment = Segment(id: nat, full: int, live: int)

  datatype Options = Options(
    maxSegmentSize: int,
    segmentsPerMergeTask: int,
    floorSegmentSize: int,
    budget: (int, int) -> int,
    score: seq<Segment> -> int)

  function SumLive(segments: seq<Segment>): int {
    if segments == [] then 0 else SumLive(segments[..|segments| - 1]) + segments[|segments| - 1].live
  }

  ghost predicate Distinct(segments: seq<Segment>) {
    forall i, j :: 0 <= i < j < |segments| ==> segments[i].id != segments[j].id
  }

  /** Go divides toward zero. */
  function Half(n: int): int {
    if n >= 0 then n / 2 else -((-n) / 2)
  }

  predicate Eligible(s: Segment, o: Options) {
    s.live < Half(o.maxSegmentSize)
  }

  predicate MakesProgress(roster: seq<Segment>) {
    |roster| > 1 || (|roster| == 1 && roster[0].live < roster[0].full)
  }

  // ---------------------------------------------------------------- rosters

  /** The segments taken greedily from a start, as many as fit a task and its size limit. */
  function Greedy(eligibles: seq<Segment>, idx: nat, roster: seq<Segment>, o: Options): seq<Segment>
    requires idx <= |eligibles|
    decreases |eligibles| - idx
  {
    if idx == |eligibles| || |roster| >= o.segmentsPerMergeTask then roster
    else
      var next := if SumLive(roster) + eligibles[idx].live < o.maxSegmentSize then roster + [eligibles[idx]] else roster;
      Greedy(eligibles, idx + 1, next, o)
  }

  /** What the scan would take if a task had no limit on its number of segments. */
  function Fitting(eligibles: seq<Segment>, idx: nat, roster: seq<Segment>, o: Options): (r: seq<Segment>)
    requires idx <= |eligibles|
    ensures roster <= r
    decreases |eligibles| - idx
  {
    if idx == |eligibles| then roster
    else
      var next := if SumLive(roster) + eligibles[idx].live < o.maxSegmentSize then roster + [eligibles[idx]] else roster;
      Fitting(eligibles, idx + 1, next, o)
  }

  /** A greedy roster is full if and only if enough segments fit; otherwise it is all that fit. */
  lemma {:induction false} GreedyWidth(eligibles: seq<Segment>, idx: nat, roster: seq<Segment>, o: Options)
    requires idx <= |eligibles| && |roster| <= o.segmentsPerMergeTask
    ensures
      var r, all := Greedy(eligibles, idx, roster, o), Fitting(eligibles, idx, roster, o);
      && (|r| == o.segmentsPerMergeTask <==> |all| >= o.segmentsPerMergeTask)
      && (|all| < o.segmentsPerMergeTask ==> r == all)
    decreases |eligibles| - idx
  {
    hide SumLive;
    if idx < |eligibles| && |roster| < o.segmentsPerMergeTask {
      var next := if SumLive(roster) + eligibles[idx].live < o.maxSegmentSize then roster + [eligibles[idx]] else roster;
      GreedyWidth(eligibles, idx + 1, next, o);
    }
  }

  ghost predicate Within(roster: seq<Segment>, o: Options) {
    roster != [] ==> |roster| <= o.segmentsPerMergeTask && SumLive(roster) < o.maxSegmentSize
  }

  ghost predicate AllIn(part: seq<Segment>, all: seq<Segment>) {
    forall s :: s in part ==> s in all
  }

  lemma SumLiveSnoc(segments: seq<Segment>, s: Segment)
    ensures SumLive(segments + [s]) == SumLive(segments) + s.live
  {
    assert (segments + [s])[..|segments|] == segments;
  }

  /** A greedy roster keeps within the limits and takes each segment at most once. */
  lemma {:induction false} GreedyFacts(eligibles: seq<Segment>, idx: nat, roster: seq<Segment>, o: Options)
    requires idx <= |eligibles| && Distinct(eligibles) && Within(roster, o)
    requires Distinct(roster) && AllIn(roster, eligibles[..idx])
    ensures
      var r := Greedy(eligibles, idx, roster, o);
      Within(r, o) && Distinct(r) && AllIn(r, eligibles)
    decreases |eligibles| - idx
  {
    hide Distinct, SumLive;
    if idx == |eligibles| || |roster| >= o.segmentsPerMergeTask {
      assert forall s :: s in eligibles[..idx] ==> s in eligibles;
    } else {
      var s := eligibles[idx];
      var next := if SumLive(roster) + s.live < o.maxSegmentSize then roster + [s] else roster;
      SumLiveSnoc(roster, s);
      TakeOne(eligibles, idx, roster);
      GreedyFacts(eligibles, idx + 1, next, o);
    }
  }

  /** Of ascending places, m lie before i, and the others after it. */
  ghost predicate Between(at: seq<nat>, m: nat, i: nat) {
    (forall n :: 0 <= n < m && n < |at| ==> at[n] < i) && forall n :: m <= n < |at| ==> i < at[n]
  }

  /** The scan takes a segment, at its place `at`, exactly when it keeps the total below the
      limit, and ends only when the roster is full or nothing is left to look at. */
  ghost predicate Taken(eligibles: seq<Segment>, start: nat, o: Options, r: seq<Segment>, at: seq<nat>, end: nat) {
    && |at| == |r| && start <= end <= |eligibles|
    && (forall m :: 0 <= m < |r| ==> start <= at[m] < end && r[m] == eligibles[at[m]])
    && (forall m, n :: 0 <= m < n < |r| ==> at[m] < at[n])
    && (forall m :: 0 <= m < |r| ==> SumLive(r[..m]) + r[m].live < o.maxSegmentSize)
    && (forall i, m :: start <= i < end && 0 <= m <= |r| && Between(at, m, i) ==>
          SumLive(r[..m]) + eligibles[i].live >= o.maxSegmentSize)
  }

  lemma TakenSnoc(eligibles: seq<Segment>, start: nat, o: Options, r: seq<Segment>, at: seq<nat>, end: nat)
    requires Taken(eligibles, start, o, r, at, end) && end < |eligibles|
    requires SumLive(r) + eligibles[end].live < o.maxSegmentSize
    ensures Taken(eligibles, start, o, r + [eligibles[end]], at + [end], end + 1)
  {
    hide SumLive, Between;
    assert r[..|r|] == r;
    var more, places := r + [eligibles[end]], at + [end];
    assert forall m | 0 <= m <= |r| :: more[..m] == r[..m];
    forall i, m | start <= i < end + 1 && 0 <= m <= |more| && Between(places, m, i)
      ensures SumLive(more[..m]) + eligibles[i].live >= o.maxSegmentSize
    {
      NotAfterLast(at, end, m, i);
    }
  }

  lemma NotAfterLast(at: seq<nat>, end: nat, m: nat, i: nat)
    requires Between(at + [end], m, i) && i <= end && m <= |at| + 1
    ensures m <= |at| && i < end && Between(at, m, i)
  {
    assert (at + [end])[|at|] == end;
    forall n | 0 <= n < |at| ensures (n < m ==> at[n] < i) && (m <= n ==> i < at[n]) { assert (at + [end])[n] == at[n]; }
  }

  lemma SkippedSnoc(eligibles: seq<Segment>, start: nat, o: Options, r: seq<Segment>, at: seq<nat>, end: nat)
    requires Taken(eligibles, start, o, r, at, end) && end < |eligibles|
    requires SumLive(r) + eligibles[end].live >= o.maxSegmentSize
    ensures Taken(eligibles, start, o, r, at, end + 1)
  {
    hide SumLive;
    assert r[..|r|] == r;
    forall m | 0 <= m < |r| ensures !Between(at, m, end) { assert at[m] < end; }
  }

  lemma {:induction false} GreedyTakes(eligibles: seq<Segment>, start: nat, idx: nat, roster: seq<Segment>, o: Options, at: seq<nat>)
    returns (all: seq<nat>, end: nat)
    requires start <= idx <= |eligibles| && Taken(eligibles, start, o, roster, at, idx)
    ensures Taken(eligibles, start, o, Greedy(eligibles, idx, roster, o), all, end)
    ensures end == |eligibles| || |Greedy(eligibles, idx, roster, o)| >= o.segmentsPerMergeTask
    ensures |roster| <= o.segmentsPerMergeTask ==> |Greedy(eligibles, idx, roster, o)| <= o.segmentsPerMergeTask
    decreases |eligibles| - idx
  {
    hide Taken, SumLive;
    if idx == |eligibles| || |roster| >= o.segmentsPerMergeTask {
      all, end := at, idx;
    } else {
      if SumLive(roster) + eligibles[idx].live < o.maxSegmentSize {
        TakenSnoc(eligibles, start, o, roster, at, idx);
        all, end := GreedyTakes(eligibles, start, idx + 1, roster + [eligibles[idx]], o, at + [idx]);
      } else {
        SkippedSnoc(eligibles, start, o, roster, at, idx);
        all, end := GreedyTakes(eligibles, start, idx + 1, roster, o, at);
      }
    }
  }

  /** What the roster from a start is, without following the scan. */
  lemma GreedyExactly(eligibles: seq<Segment>, start: nat, o: Options) returns (at: seq<nat>, end: nat)
    requires start <= |eligibles|
    ensures
      var r := Greedy(eligibles, start, [], o);
      && |at| == |r| && start <= end <= |eligibles| && (end == |eligibles| || |r| >= o.segmentsPerMergeTask)
      && (0 <= o.segmentsPerMergeTask ==> |r| <= o.segmentsPerMergeTask)
      && (forall m :: 0 <= m < |r| ==> start <= at[m] < end && r[m] == eligibles[at[m]])
      && (forall m, n :: 0 <= m < n < |r| ==> at[m] < at[n])
      && (forall m :: 0 <= m < |r| ==> SumLive(r[..m]) + r[m].live < o.maxSegmentSize)
      && (forall i, m :: start <= i < end && 0 <= m <= |r| && Between(at, m, i) ==>
            SumLive(r[..m]) + eligibles[i].live >= o.maxSegmentSize)
  {
    hide Greedy, SumLive;
    at, end := GreedyTakes(eligibles, start, start, [], o, []);
  }

  lemma TakeOne(eligibles: seq<Segment>, idx: nat, roster: seq<Segment>)
    requires idx < |eligibles| && Distinct(eligibles) && Distinct(roster) && AllIn(roster, eligibles[..idx])
    ensures Distinct(roster + [eligibles[idx]]) && AllIn(roster + [eligibles[idx]], eligibles[..idx + 1])
    ensures AllIn(roster, eligibles[..idx + 1])
  {
    assert eligibles[..idx + 1] == eligibles[..idx] + [eligibles[idx]];
    forall i | 0 <= i < |roster| ensures roster[i].id != eligibles[idx].id {
      assert roster[i] in eligibles[..idx];
      var j :| 0 <= j < idx && eligibles[j] == roster[i];
    }
  }

  method BuildRoster(eligibles: seq<Segment>, start: nat, o: Options) returns (roster: seq<Segment>)
    requires start <= |eligibles|
    ensures roster == Greedy(eligibles, start, [], o)
  {
    roster := [];
    var live, idx := 0, start;
    while idx < |eligibles| && |roster| < o.segmentsPerMergeTask
      invariant start <= idx <= |eligibles| && live == SumLive(roster)
      invariant Greedy(eligibles, idx, roster, o) == Greedy(eligibles, start, [], o)
    {
      if live + eligibles[idx].live < o.maxSegmentSize {
        SumLiveSnoc(roster, eligibles[idx]);
        roster := roster + [eligibles[idx]];
        live := live + eligibles[idx].live;
      }
      idx := idx + 1;
    }
  }

  lemma GreedyFromNothing(eligibles: seq<Segment>, start: nat, o: Options)
    requires start <= |eligibles| && Distinct(eligibles)
    ensures
      var r := Greedy(eligibles, start, [], o);
      Within(r, o) && Distinct(r) && AllIn(r, eligibles)
  {
    GreedyFacts(eligibles, start, [], o);
  }

  /** No greedy roster from any start makes progress. */
  ghost predicate NoProgress(eligibles: seq<Segment>, o: Options) {
    forall start :: 0 <= start < |eligibles| ==> !MakesProgress(Greedy(eligibles, start, [], o))
  }

  /** The roster of this start is the one chosen: it makes progress, and no roster that
      does scores lower, nor as low from an earlier start. */
  ghost predicate Chosen(eligibles: seq<Segment>, start: nat, o: Options) {
    && start < |eligibles| && MakesProgress(Greedy(eligibles, start, [], o))
    && forall i :: 0 <= i < |eligibles| && MakesProgress(Greedy(eligibles, i, [], o)) ==>
      && o.score(Greedy(eligibles, start, [], o)) <= o.score(Greedy(eligibles, i, [], o))
      && (i < start ==> o.score(Greedy(eligibles, start, [], o)) < o.score(Greedy(eligibles, i, [], o)))
  }

  /** The best of the rosters that make progress: the lowest score, the first of equals. */
  method BestRoster(eligibles: seq<Segment>, o: Options) returns (best: seq<Segment>, ghost at: nat)
    requires Distinct(eligibles)
    ensures if best == [] then NoProgress(eligibles, o)
            else Chosen(eligibles, at, o) && best == Greedy(eligibles, at, [], o)
                 && MakesProgress(best) && Within(best, o) && Distinct(best) && AllIn(best, eligibles)
  {
    hide Greedy, Distinct, AllIn;
    best, at := [], 0;
    for start := 0 to |eligibles|
      invariant best == [] ==> forall i :: 0 <= i < start ==> !MakesProgress(Greedy(eligibles, i, [], o))
      invariant best != [] ==> at < start && best == Greedy(eligibles, at, [], o)
      invariant best != [] ==> MakesProgress(best) && Within(best, o) && Distinct(best) && AllIn(best, eligibles)
      invariant best != [] ==> forall i :: 0 <= i < start && MakesProgress(Greedy(eligibles, i, [], o)) ==>
        o.score(best) <= o.score(Greedy(eligibles, i, [], o)) && (i < at ==> o.score(best) < o.score(Greedy(eligibles, i, [], o)))
    {
      var roster := BuildRoster(eligibles, start, o);
      GreedyFromNothing(eligibles, start, o);
      if MakesProgress(roster) {
        if best == [] || o.score(roster) < o.score(best) {
          best, at := roster, start;
        }
      }
    }
  }

  // ---------------------------------------------------------------- the plan

  function Without(segments: seq<Segment>, remove: seq<Segment>): seq<Segment> {
    if segments == [] then []
    else
      var last := segments[|segments| - 1];
      Without(segments[..|segments| - 1], remove) + if last in remove then [] else [last]
  }

  lemma {:induction false} WithoutFacts(segments: seq<Segment>, remove: seq<Segment>)
    ensures forall s :: s in Without(segments, remove) <==> s in segments && s !in remove
    ensures Distinct(segments) ==> Distinct(Without(segments, remove))
    ensures |Without(segments, remove)| <= |segments|
    ensures (exists s :: s in segments && s in remove) ==> |Without(segments, remove)| < |segments|
  {
    if segments != [] {
      var init, last := segments[..|segments| - 1], segments[|segments| - 1];
      WithoutFacts(init, remove);
      assert segments == init + [last];
      var rest := Without(init, remove);
      if Distinct(segments) { DistinctSnoc(init, last, rest); }
    }
  }

  method RemoveSegments(segments: seq<Segment>, remove: seq<Segment>) returns (rest: seq<Segment>)
    ensures rest == Without(segments, remove)
  {
    rest := [];
    for i := 0 to |segments|
      invariant rest == Without(segments[..i], remove)
    {
      assert segments[..i + 1][..i] == segments[..i];
      var found := false;
      for j := 0 to |remove|
        invariant found <==> segments[i] in remove[..j]
      {
        assert remove[..j + 1] == remove[..j] + [remove[j]];
        if segments[i] == remove[j] {
          found := true;
        }
      }
      assert remove[..|remove|] == remove;
      if !found {
        rest := rest + [segments[i]];
      }
    }
    assert segments[..|segments|] == segments;
  }

  /** A task takes segments that hold nothing, or merges within the limits and makes progress. */
  ghost predicate GoodTask(task: seq<Segment>, o: Options) {
    && task != [] && Distinct(task) && (forall s :: s in task ==> Eligible(s, o))
    && ((forall s :: s in task ==> s.live <= 0)
        || ((forall s :: s in task ==> s.live > 0) && MakesProgress(task) && Within(task, o)))
  }

  ghost predicate Disjoint(tasks: seq<seq<Segment>>) {
    forall i, j, s :: 0 <= i < j < |tasks| && s in tasks[i] ==> s !in tasks[j]
  }

  /** Every task is good, no segment is in two tasks, and none is still eligible. */
  ghost predicate PlanOk(tasks: seq<seq<Segment>>, left: seq<Segment>, input: seq<Segment>, o: Options) {
    && (forall t :: t in tasks ==> GoodTask(t, o) && AllIn(t, input))
    && Disjoint(tasks) && Distinct(left) && AllIn(left, input)
    && (forall s :: s in left ==> Eligible(s, o) && s.live > 0)
    && (forall t, s :: t in tasks && s in t ==> s !in left)
  }

  /** The eligible segments that no task has taken. */
  function LeftAfter(eligibles: seq<Segment>, tasks: seq<seq<Segment>>): seq<Segment> {
    if tasks == [] then eligibles else Without(LeftAfter(eligibles, tasks[..|tasks| - 1]), tasks[|tasks| - 1])
  }

  function EmptiesOf(segments: seq<Segment>): seq<Segment> {
    if segments == [] then []
    else
      var last := segments[|segments| - 1];
      EmptiesOf(segments[..|segments| - 1]) + if last.live <= 0 then [last] else []
  }

  /** A task is all empty segments there are, as many as they may be; or the chosen roster,
      which has as many segments as the option names if and only if that many fit. */
  ghost predicate TaskFrom(task: seq<Segment>, eligibles: seq<Segment>, o: Options) {
    if EmptiesOf(eligibles) != [] then task == EmptiesOf(eligibles)
    else exists start :: ChosenTask(task, eligibles, start, o)
  }

  ghost predicate ChosenTask(task: seq<Segment>, eligibles: seq<Segment>, start: nat, o: Options) {
    && Chosen(eligibles, start, o) && task == Greedy(eligibles, start, [], o)
    && (|task| == o.segmentsPerMergeTask <==> |Fitting(eligibles, start, [], o)| >= o.segmentsPerMergeTask)
  }

  /** The tasks, each drawn from what the ones before left. */
  ghost predicate Drawn(tasks: seq<seq<Segment>>, eligibles: seq<Segment>, o: Options) {
    forall i :: 0 <= i < |tasks| ==> TaskFrom(tasks[i], LeftAfter(eligibles, tasks[..i]), o)
  }

  /** Past the task of empty segments, no task is made within budget. */
  ghost predicate OverBudget(tasks: seq<seq<Segment>>, eligibles: seq<Segment>, allowed: int) {
    forall i :: 0 <= i < |tasks| && EmptiesOf(LeftAfter(eligibles, tasks[..i])) == [] ==>
      |LeftAfter(eligibles, tasks[..i])| + i > allowed
  }

  lemma OverBudgetSnoc(tasks: seq<seq<Segment>>, eligibles: seq<Segment>, allowed: int, task: seq<Segment>)
    requires OverBudget(tasks, eligibles, allowed)
    requires EmptiesOf(LeftAfter(eligibles, tasks)) == [] ==> |LeftAfter(eligibles, tasks)| + |tasks| > allowed
    ensures OverBudget(tasks + [task], eligibles, allowed)
  {
    hide EmptiesOf, LeftAfter;
    var more := tasks + [task];
    assert more[..|tasks|] == tasks;
    forall i | 0 <= i < |more| && EmptiesOf(LeftAfter(eligibles, more[..i])) == []
      ensures |LeftAfter(eligibles, more[..i])| + i > allowed
    {
      if i < |tasks| { assert more[..i] == tasks[..i]; }
    }
  }

  lemma {:induction false} LeftAfterExactly(eligibles: seq<Segment>, tasks: seq<seq<Segment>>)
    ensures forall s :: s in LeftAfter(eligibles, tasks) <==> s in eligibles && forall t :: t in tasks ==> s !in t
  {
    if tasks != [] {
      var init, last := tasks[..|tasks| - 1], tasks[|tasks| - 1];
      LeftAfterExactly(eligibles, init);
      WithoutFacts(LeftAfter(eligibles, init), last);
      assert tasks == init + [last];
    }
  }

  lemma DrawnSnoc(tasks: seq<seq<Segment>>, eligibles: seq<Segment>, o: Options, task: seq<Segment>)
    requires Drawn(tasks, eligibles, o) && TaskFrom(task, LeftAfter(eligibles, tasks), o)
    ensures Drawn(tasks + [task], eligibles, o)
    ensures LeftAfter(eligibles, tasks + [task]) == Without(LeftAfter(eligibles, tasks), task)
  {
    hide TaskFrom, Without;
    var more := tasks + [task];
    assert more[..|tasks|] == tasks;
    forall i | 0 <= i < |more| ensures TaskFrom(more[i], LeftAfter(eligibles, more[..i]), o) {
      if i < |tasks| { assert more[..i] == tasks[..i]; }
    }
  }

  lemma {:induction false} EmptiesFacts(segments: seq<Segment>)
    ensures forall s :: s in EmptiesOf(segments) <==> s in segments && s.live <= 0
    ensures Distinct(segments) ==> Distinct(EmptiesOf(segments))
  {
    if segments != [] {
      var init, last := segments[..|segments| - 1], segments[|segments| - 1];
      EmptiesFacts(init);
      assert segments == init + [last];
      if Distinct(segments) { DistinctSnoc(init, last, EmptiesOf(init)); }
    }
  }

  lemma NoEmpties(eligibles: seq<Segment>)
    requires forall s :: s in eligibles ==> s.live > 0
    ensures EmptiesOf(eligibles) == []
  {
    EmptiesFacts(eligibles);
    if EmptiesOf(eligibles) != [] { assert EmptiesOf(eligibles)[0] in EmptiesOf(eligibles); }
  }

  lemma ChosenIsTask(eligibles: seq<Segment>, at: nat, o: Options)
    requires Chosen(eligibles, at, o) && forall s :: s in eligibles ==> s.live > 0
    ensures TaskFrom(Greedy(eligibles, at, [], o), eligibles, o)
  {
    hide Greedy, Fitting;
    NoEmpties(eligibles);
    GreedyHasRoom(eligibles, at, o);
    GreedyWidth(eligibles, at, [], o);
    assert ChosenTask(Greedy(eligibles, at, [], o), eligibles, at, o);
  }

  lemma GreedyHasRoom(eligibles: seq<Segment>, at: nat, o: Options)
    requires at <= |eligibles| && Greedy(eligibles, at, [], o) != []
    ensures o.segmentsPerMergeTask > 0
  {
  }

  lemma OneMoreTask(tasks: seq<seq<Segment>>, left: seq<Segment>, task: seq<Segment>, input: seq<Segment>, o: Options)
    requires PlanOk(tasks, left, input, o) && MakesProgress(task) && Within(task, o) && Distinct(task) && AllIn(task, left)
    ensures PlanOk(tasks + [task], Without(left, task), input, o) && |Without(left, task)| < |left|
  {
    WithoutFacts(left, task);
    assert task[0] in task && task[0] in left;
    assert GoodTask(task, o);
    forall t | t in tasks + [task] ensures GoodTask(t, o) && AllIn(t, input) { }
    forall i, j, s | 0 <= i < j < |tasks + [task]| && s in (tasks + [task])[i] ensures s !in (tasks + [task])[j] {
      if j == |tasks| { assert tasks[i] in tasks; }
    }
  }

  /** Descending by live size; equal sizes in any order. */
  method SortByLiveSize(segments: seq<Segment>) returns (r: seq<Segment>)
    ensures multiset(r) == multiset(segments) && |r| == |segments|
    ensures Descending(r)
  {
    r := [];
    for i := 0 to |segments|
      invariant |r| == i && multiset(r) == multiset(segments[..i])
      invariant Descending(r)
    {
      var x, k := segments[i], |r|;
      while k > 0 && x.live > r[k - 1].live
        invariant 0 <= k <= |r|
        invariant forall j :: k <= j < |r| ==> x.live > r[j].live
      {
        k := k - 1;
      }
      assert segments[..i + 1] == segments[..i] + [x];
      SlotIn(r, x, k);
      r := r[..k] + [x] + r[k..];
    }
    assert segments[..|segments|] == segments;
  }

  ghost predicate Descending(r: seq<Segment>) {
    forall i, j :: 0 <= i < j < |r| ==> r[i].live >= r[j].live
  }

  lemma SlotIn(r: seq<Segment>, x: Segment, k: nat)
    requires Descending(r) && k <= |r| && (k == 0 || x.live <= r[k - 1].live)
    requires forall j :: k <= j < |r| ==> x.live > r[j].live
    ensures Descending(r[..k] + [x] + r[k..])
    ensures multiset(r[..k] + [x] + r[k..]) == multiset(r) + multiset{x}
  {
    assert r == r[..k] + r[k..];
    SlotMembers(r[..k], x, r[k..]);
    SlotOrder(r, x, k);
  }

  lemma SlotOrder(r: seq<Segment>, x: Segment, k: nat)
    requires Descending(r) && k <= |r| && (k == 0 || x.live <= r[k - 1].live)
    requires forall j :: k <= j < |r| ==> x.live > r[j].live
    ensures Descending(r[..k] + [x] + r[k..])
  {
    var s := r[..k] + [x] + r[k..];
    forall i, j | 0 <= i < j < |s| ensures s[i].live >= s[j].live {
      assert i < k ==> s[i] == r[i];
      assert j > k ==> s[j] == r[j - 1];
    }
  }

  lemma SlotMembers(a: seq<Segment>, x: Segment, b: seq<Segment>)
    ensures multiset(a + [x] + b) == multiset(a + b) + multiset{x}
  {
  }

  lemma {:induction false} DistinctPermuted(a: seq<Segment>, b: seq<Segment>)
    requires Distinct(a) && multiset(a) == multiset(b)
    ensures Distinct(b) && forall s :: s in a <==> s in b
  {
    forall s ensures s in a <==> s in b { assert s in a <==> s in multiset(b); }
    forall i, j | 0 <= i < j < |b| ensures b[i].id != b[j].id {
      if b[i].id == b[j].id {
        assert b[i] in a && b[j] in a;
        assert b[i] == b[j];
        TwiceInB(b, i, j);
        OnceInA(a, b[i]);
      }
    }
  }

  lemma TwiceInB(b: seq<Segment>, i: nat, j: nat)
    requires i < j < |b| && b[i] == b[j]
    ensures multiset(b)[b[i]] >= 2
  {
    assert b == b[..j] + [b[j]] + b[j + 1..];
    assert b[..j][i] == b[i] && b[i] in multiset(b[..j]);
  }

  lemma {:induction false} OnceInA(a: seq<Segment>, s: Segment)
    requires Distinct(a)
    ensures multiset(a)[s] <= 1
  {
    if a != [] {
      var init, last := a[..|a| - 1], a[|a| - 1];
      assert a == init + [last];
      OnceInA(init, s);
      if s == last {
        forall i | 0 <= i < |init| ensures init[i] != s { assert a[i].id != a[|init|].id; }
        assert s !in init && s !in multiset(init);
      }
    }
  }

  function EligiblesOf(segments: seq<Segment>, o: Options): seq<Segment> {
    if segments == [] then []
    else
      var last := segments[|segments| - 1];
      EligiblesOf(segments[..|segments| - 1], o) + if Eligible(last, o) then [last] else []
  }

  function MinLive(segments: seq<Segment>): int {
    if segments == [] then 0x7FFF_FFFF_FFFF_FFFF
    else
      var rest, last := MinLive(segments[..|segments| - 1]), segments[|segments| - 1].live;
      if rest > last then last else rest
  }

  /** The number of segments the budget allows. */
  function Allowed(segments: seq<Segment>, o: Options): int {
    var smallest := MinLive(segments);
    o.budget(SumLive(EligiblesOf(segments, o)), if smallest > o.floorSegmentSize then smallest else o.floorSegmentSize)
  }

  lemma {:induction false} MinLiveFacts(segments: seq<Segment>)
    requires forall s :: s in segments ==> s.live <= 0x7FFF_FFFF_FFFF_FFFF
    ensures forall s :: s in segments ==> MinLive(segments) <= s.live
    ensures segments != [] ==> exists s :: s in segments && s.live == MinLive(segments)
  {
    if segments != [] {
      var init, last := segments[..|segments| - 1], segments[|segments| - 1];
      MinLiveFacts(init);
      assert segments == init + [last] && last in segments;
    }
  }

  /** The budget is asked about the live size of the eligible segments and the smallest live
      size of all, raised to the floor. */
  lemma AllowedExactly(segments: seq<Segment>, o: Options, smallest: Segment)
    requires forall s :: s in segments ==> smallest.live <= s.live <= 0x7FFF_FFFF_FFFF_FFFF
    requires smallest in segments
    ensures Allowed(segments, o) ==
            o.budget(SumLive(EligiblesOf(segments, o)), if smallest.live > o.floorSegmentSize then smallest.live else o.floorSegmentSize)
  {
    MinLiveFacts(segments);
  }

  /** Small enough: below half the limit, the half being cut toward zero. */
  lemma EligiblesExactly(segments: seq<Segment>, o: Options)
    ensures forall s :: s in EligiblesOf(segments, o) <==>
      && s in segments
      && s.live < if o.maxSegmentSize >= 0 then o.maxSegmentSize / 2 else -(-o.maxSegmentSize / 2)
  {
    EligiblesFacts(segments, o);
  }

  lemma {:induction false} EligiblesFacts(segments: seq<Segment>, o: Options)
    ensures forall s :: s in EligiblesOf(segments, o) <==> s in segments && Eligible(s, o)
    ensures Distinct(segments) ==> Distinct(EligiblesOf(segments, o))
  {
    if segments != [] {
      var init, last := segments[..|segments| - 1], segments[|segments| - 1];
      EligiblesFacts(init, o);
      assert segments == init + [last];
      if Distinct(segments) { DistinctSnoc(init, last, EligiblesOf(init, o)); }
    }
  }

  lemma DistinctSnoc(init: seq<Segment>, last: Segment, part: seq<Segment>)
    requires Distinct(init + [last]) && Distinct(part) && AllIn(part, init)
    ensures Distinct(part + [last])
  {
    forall i | 0 <= i < |part| ensures part[i].id != last.id {
      assert part[i] in init;
      var j :| 0 <= j < |init| && init[j] == part[i];
      assert (init + [last])[j].id != (init + [last])[|init|].id;
    }
  }

  method FindEligibles(segments: seq<Segment>, o: Options) returns (minLive: int, eligiblesLive: int, eligibles: seq<Segment>)
    ensures eligibles == EligiblesOf(segments, o) && eligiblesLive == SumLive(eligibles) && minLive == MinLive(segments)
  {
    minLive, eligiblesLive, eligibles := 0x7FFF_FFFF_FFFF_FFFF, 0, [];
    for i := 0 to |segments|
      invariant eligibles == EligiblesOf(segments[..i], o) && eligiblesLive == SumLive(eligibles)
      invariant minLive == MinLive(segments[..i])
    {
      var s := segments[i];
      assert segments[..i + 1][..i] == segments[..i];
      if minLive > s.live {
        minLive := s.live;
      }
      if Eligible(s, o) {
        SumLiveSnoc(eligibles, s);
        eligibles := eligibles + [s];
        eligiblesLive := eligiblesLive + s.live;
      }
    }
    assert segments[..|segments|] == segments;
  }

  method Empties(eligibles: seq<Segment>) returns (empties: seq<Segment>)
    ensures empties == EmptiesOf(eligibles)
  {
    empties := [];
    for i := 0 to |eligibles|
      invariant empties == EmptiesOf(eligibles[..i])
    {
      assert eligibles[..i + 1][..i] == eligibles[..i];
      if eligibles[i].live <= 0 {
        empties := empties + [eligibles[i]];
      }
    }
    assert eligibles[..|eligibles|] == eligibles;
  }

  /** A plan for these segments: disjoint good tasks, drawn one after the other from the
      eligible segments in descending order, until the budget or progress ends. */
  ghost predicate PlannedFor(segments: seq<Segment>, tasks: seq<seq<Segment>>, left: seq<Segment>, sorted: seq<Segment>, o: Options) {
    && multiset(sorted) == multiset(segments) && Descending(sorted)
    && PlanOk(tasks, left, segments, o) && Drawn(tasks, EligiblesOf(sorted, o), o)
    && left == LeftAfter(EligiblesOf(sorted, o), tasks) && OverBudget(tasks, EligiblesOf(sorted, o), Allowed(sorted, o))
    && (left == [] || NoProgress(left, o) || |left| + |tasks| <= Allowed(sorted, o))
  }

  /** Disjoint good tasks, first all empty segments together, then the best rosters one
      after the other; planning stops within budget, or with nothing left that would make
      progress. */
  method Plan(segmentsIn: seq<Segment>, o: Options)
    returns (tasks: Option<seq<seq<Segment>>>, ghost left: seq<Segment>, ghost sorted: seq<Segment>)
    requires Distinct(segmentsIn)
    ensures tasks.None? <==> |segmentsIn| <= 1
    ensures tasks.Some? ==> PlannedFor(segmentsIn, tasks.value, left, sorted, o)
  {
    hide Distinct, Greedy, Without, LeftAfter, Drawn, TaskFrom, Chosen, Within, AllIn, Descending, OverBudget;
    if |segmentsIn| <= 1 {
      return None, [], segmentsIn;
    }
    var segments := SortByLiveSize(segmentsIn);
    DistinctPermuted(segmentsIn, segments);
    sorted := segments;
    var minLive, eligiblesLive, eligibles := FindEligibles(segments, o);
    if minLive <= o.floorSegmentSize {
      minLive := o.floorSegmentSize;
    }
    var budget := o.budget(eligiblesLive, minLive);
    var planned := [];
    ghost var all := eligibles;
    StartOfPlan(segmentsIn, segments, o);
    var empties := Empties(eligibles);
    if empties != [] {
      planned := [empties];
      eligibles := RemoveSegments(eligibles, empties);
    }
    while |eligibles| > 0 && |eligibles| + |planned| > budget
      invariant PlanOk(planned, eligibles, segmentsIn, o)
      invariant Drawn(planned, all, o) && eligibles == LeftAfter(all, planned) && OverBudget(planned, all, budget)
      decreases |eligibles|
    {
      PlanIsDistinct(planned, eligibles, segmentsIn, o);
      ghost var at;
      var best;
      best, at := BestRoster(eligibles, o);
      if best == [] {
        return Some(planned), eligibles, segments;
      }
      ChosenIsTask(eligibles, at, o);
      DrawnSnoc(planned, all, o, best);
      OverBudgetSnoc(planned, all, budget, best);
      OneMoreTask(planned, eligibles, best, segmentsIn, o);
      planned := planned + [best];
      eligibles := RemoveSegments(eligibles, best);
    }
    tasks, left := Some(planned), eligibles;
  }

  /** What a plan is, said of its tasks alone. */
  lemma PlanMeans(segments: seq<Segment>, tasks: seq<seq<Segment>>, left: seq<Segment>, sorted: seq<Segment>, o: Options)
    requires PlannedFor(segments, tasks, left, sorted, o)
    ensures multiset(sorted) == multiset(segments) && forall i, j :: 0 <= i < j < |sorted| ==> sorted[i].live >= sorted[j].live
    ensures forall i, j, s :: 0 <= i < j < |tasks| && s in tasks[i] ==> s !in tasks[j]
    ensures forall t, s :: t in tasks && s in t ==> s in segments && s in EligiblesOf(sorted, o)
    ensures forall t :: t in tasks ==>
      || (forall s :: s in t ==> s.live <= 0)
      || (|t| <= o.segmentsPerMergeTask && SumLive(t) < o.maxSegmentSize && (|t| > 1 || (|t| == 1 && t[0].live < t[0].full)))
    ensures forall i :: 0 <= i < |tasks| && (exists s :: s in tasks[i] && s.live > 0) ==>
      |LeftAfter(EligiblesOf(sorted, o), tasks[..i])| + i > Allowed(sorted, o)
    ensures left != [] && |left| + |tasks| > Allowed(sorted, o) ==>
      forall start :: 0 <= start < |left| ==>
        var r := Greedy(left, start, [], o);
        |r| == 0 || (|r| == 1 && r[0].live >= r[0].full)
  {
    hide Greedy, SumLive, LeftAfter, EligiblesOf, Eligible, Allowed, Distinct;
    SameMembers(segments, sorted);
    EligiblesFacts(sorted, o);
    forall t, s | t in tasks && s in t ensures s in segments && s in EligiblesOf(sorted, o) {
      assert GoodTask(t, o) && AllIn(t, segments);
    }
    forall i | 0 <= i < |tasks| && exists s :: s in tasks[i] && s.live > 0
      ensures |LeftAfter(EligiblesOf(sorted, o), tasks[..i])| + i > Allowed(sorted, o)
    {
      var before := LeftAfter(EligiblesOf(sorted, o), tasks[..i]);
      assert TaskFrom(tasks[i], before, o);
      EmptiesFacts(before);
    }
    forall t | t in tasks
      ensures (forall s :: s in t ==> s.live <= 0)
              || (|t| <= o.segmentsPerMergeTask && SumLive(t) < o.maxSegmentSize && (|t| > 1 || (|t| == 1 && t[0].live < t[0].full)))
    {
      assert GoodTask(t, o);
    }
  }

  lemma PlanIsDistinct(tasks: seq<seq<Segment>>, left: seq<Segment>, input: seq<Segment>, o: Options)
    requires PlanOk(tasks, left, input, o)
    ensures Distinct(left)
  {
  }

  /** Planning starts with the task of all empty segments, if there are any. */
  lemma StartOfPlan(input: seq<Segment>, sorted: seq<Segment>, o: Options)
    requires Distinct(sorted) && forall s :: s in input <==> s in sorted
    ensures
      var all := EligiblesOf(sorted, o);
      var empties := EmptiesOf(all);
      var tasks := if empties == [] then [] else [empties];
      && LeftAfter(all, tasks) == (if empties == [] then all else Without(all, empties))
      && PlanOk(tasks, LeftAfter(all, tasks), input, o) && Drawn(tasks, all, o) && OverBudget(tasks, all, Allowed(sorted, o))
  {
    hide Distinct, EligiblesOf, EmptiesOf, Eligible, MakesProgress, Within, Chosen, Without;
    var all := EligiblesOf(sorted, o);
    var empties := EmptiesOf(all);
    EligiblesFacts(sorted, o);
    EmptiesFacts(all);
    if empties == [] {
      assert forall s :: s in all ==> s.live > 0;
    } else {
      WithoutFacts(all, empties);
      assert [empties][..0] == [];
      assert TaskFrom(empties, all, o);
      assert GoodTask(empties, o);
    }
  }

  // ---------------------------------------------------------------- widths of tasks

  lemma {:induction false} EmptiesCount(segments: seq<Segment>, o: Options, s: Segment)
    ensures multiset(EmptiesOf(EligiblesOf(segments, o)))[s] ==
            if s.live <= 0 && Eligible(s, o) then multiset(segments)[s] else 0
  {
    hide EmptiesOf, Eligible;
    if segments != [] {
      var init, last := segments[..|segments| - 1], segments[|segments| - 1];
      EmptiesCount(init, o, s);
      assert segments == init + [last];
      EmptiesSnoc(EligiblesOf(init, o), last);
      OneMore(EmptiesOf(EligiblesOf(init, o)), last, s);
      OneMore(init, last, s);
      assert EligiblesOf(init, o) + [] == EligiblesOf(init, o);
    } else {
      NoneOfNone();
    }
  }

  lemma NoneOfNone()
    ensures EmptiesOf([]) == []
  {
  }

  lemma EmptiesSnoc(segments: seq<Segment>, last: Segment)
    ensures EmptiesOf(segments + [last]) == if last.live <= 0 then EmptiesOf(segments) + [last] else EmptiesOf(segments)
  {
    assert (segments + [last])[..|segments|] == segments;
  }

  lemma OneMore(segments: seq<Segment>, last: Segment, s: Segment)
    ensures multiset(segments + [last])[s] == multiset(segments)[s] + if s == last then 1 else 0
  {
  }

  /** The task of empty segments has all of them, however they were sorted. */
  lemma EmptyTaskWidth(input: seq<Segment>, sorted: seq<Segment>, o: Options)
    requires multiset(input) == multiset(sorted)
    ensures multiset(EmptiesOf(EligiblesOf(sorted, o))) == multiset(EmptiesOf(EligiblesOf(input, o)))
    ensures |EmptiesOf(EligiblesOf(sorted, o))| == |EmptiesOf(EligiblesOf(input, o))|
  {
    hide EmptiesOf, EligiblesOf;
    forall s ensures multiset(EmptiesOf(EligiblesOf(sorted, o)))[s] == multiset(EmptiesOf(EligiblesOf(input, o)))[s] {
      EmptiesCount(input, o, s);
      EmptiesCount(sorted, o, s);
    }
    var a, b := EmptiesOf(EligiblesOf(sorted, o)), EmptiesOf(EligiblesOf(input, o));
    assert multiset(a) == multiset(b);
    assert |multiset(a)| == |a| && |multiset(b)| == |b|;
  }

  const USUAL: Options := Options(5_000_000, 10, 2000, (total, smallest) => 1, roster => 0)

  /** No task is drawn from nothing. */
  lemma NothingLeft(tasks: seq<seq<Segment>>, eligibles: seq<Segment>, o: Options)
    requires Drawn(tasks, eligibles, o) && tasks != [] && LeftAfter(eligibles, tasks[..1]) == []
    ensures |tasks| == 1
  {
    if |tasks| > 1 {
      assert TaskFrom(tasks[1], LeftAfter(eligibles, tasks[..1]), o);
      NoneOfNone();
    }
  }

  lemma {:induction false} AllGone(segments: seq<Segment>, remove: seq<Segment>)
    requires forall s :: s in segments ==> s in remove
    ensures Without(segments, remove) == []
  {
    if segments != [] { AllGone(segments[..|segments| - 1], remove); }
  }

  lemma {:induction false} AllEligible(segments: seq<Segment>, o: Options)
    requires forall s :: s in segments ==> Eligible(s, o)
    ensures EligiblesOf(segments, o) == segments
  {
    hide Eligible;
    if segments != [] {
      AllEligible(segments[..|segments| - 1], o);
      assert segments == segments[..|segments| - 1] + [segments[|segments| - 1]];
    }
  }

  lemma {:induction false} AllEmpty(segments: seq<Segment>)
    requires forall s :: s in segments ==> s.live <= 0
    ensures EmptiesOf(segments) == segments
  {
    if segments != [] {
      AllEmpty(segments[..|segments| - 1]);
      assert segments == segments[..|segments| - 1] + [segments[|segments| - 1]];
    }
  }

  /** However many empty segments there are, one task takes them all. */
  lemma EmptiesTogether(segments: seq<Segment>, tasks: seq<seq<Segment>>, left: seq<Segment>, sorted: seq<Segment>, o: Options)
    requires PlannedFor(segments, tasks, left, sorted, o) && segments != []
    requires forall s :: s in segments ==> s.live <= 0 && Eligible(s, o)
    ensures tasks == [sorted] && |sorted| == |segments|
  {
    hide PlannedFor, PlanOk, Drawn, LeftAfter, EligiblesOf, EmptiesOf, Descending, NoProgress, Allowed, Distinct, Eligible;
    PlanParts(segments, tasks, left, sorted, o);
    SameMembers(segments, sorted);
    AllEligible(sorted, o);
    AllEmpty(sorted);
    NotAllLeft(segments, tasks, left, o);
    NoTasks(sorted);
    FirstTask(tasks, sorted, o);
    AllGone(sorted, sorted);
    AfterFirst(sorted, tasks);
    NothingLeft(tasks, sorted, o);
  }

  lemma SameMembers(segments: seq<Segment>, sorted: seq<Segment>)
    requires multiset(sorted) == multiset(segments)
    ensures |sorted| == |segments| && forall s :: s in sorted <==> s in segments
  {
    assert |multiset(sorted)| == |sorted| && |multiset(segments)| == |segments|;
    forall s ensures s in sorted <==> s in segments { assert s in multiset(sorted) <==> s in multiset(segments); }
  }

  lemma SomeFirst(segments: seq<Segment>)
    ensures segments == [] || exists s :: s in segments
  {
    if segments != [] { assert segments[0] in segments; }
  }

  lemma NoTasks(eligibles: seq<Segment>)
    ensures LeftAfter(eligibles, []) == eligibles
  {
  }

  lemma NotAllLeft(segments: seq<Segment>, tasks: seq<seq<Segment>>, left: seq<Segment>, o: Options)
    requires PlanOk(tasks, left, segments, o) && forall s :: s in segments ==> s.live <= 0
    ensures left == []
  {
    SomeFirst(left);
  }

  lemma FirstTask(tasks: seq<seq<Segment>>, eligibles: seq<Segment>, o: Options)
    requires Drawn(tasks, eligibles, o) && tasks != []
    ensures TaskFrom(tasks[0], eligibles, o)
  {
    assert tasks[..0] == [];
  }

  /** Twelve empty segments make one task of twelve, where the option names ten. */
  lemma WideTask(tasks: seq<seq<Segment>>, left: seq<Segment>, sorted: seq<Segment>)
    requires PlannedFor(seq(12, i requires 0 <= i < 12 => Segment(i, 5, 0)), tasks, left, sorted, USUAL)
    ensures |tasks| == 1 && |tasks[0]| == 12 > USUAL.segmentsPerMergeTask
  {
    EmptiesTogether(seq(12, i requires 0 <= i < 12 => Segment(i, 5, 0)), tasks, left, sorted, USUAL);
  }

  /** Two small segments make one task of two. */
  lemma NarrowTask(tasks: seq<seq<Segment>>, left: seq<Segment>, sorted: seq<Segment>)
    requires PlannedFor([Segment(1, 20, 20), Segment(2, 10, 10)], tasks, left, sorted, USUAL)
    ensures |tasks| == 1 && |tasks[0]| == 2 < USUAL.segmentsPerMergeTask
  {
    hide *;
    var segments := [Segment(1, 20, 20), Segment(2, 10, 10)];
    PlanParts(segments, tasks, left, sorted, USUAL);
    TwoAsTheyAre(segments, sorted);
    FirstOfTwo(segments, tasks, left);
    AllGone(segments, segments);
    AfterFirst(segments, tasks);
    NothingLeft(tasks, segments, USUAL);
  }

  lemma PlanParts(segments: seq<Segment>, tasks: seq<seq<Segment>>, left: seq<Segment>, sorted: seq<Segment>, o: Options)
    requires PlannedFor(segments, tasks, left, sorted, o)
    ensures multiset(sorted) == multiset(segments) && Descending(sorted) && Drawn(tasks, EligiblesOf(sorted, o), o)
    ensures left == LeftAfter(EligiblesOf(sorted, o), tasks) && PlanOk(tasks, left, segments, o)
    ensures left == [] || NoProgress(left, o) || |left| + |tasks| <= Allowed(sorted, o)
  {
  }

  lemma AfterFirst(eligibles: seq<Segment>, tasks: seq<seq<Segment>>)
    requires tasks != []
    ensures LeftAfter(eligibles, tasks[..1]) == Without(eligibles, tasks[0])
  {
    assert tasks[..1][..0] == [];
  }

  lemma FirstOfTwo(segments: seq<Segment>, tasks: seq<seq<Segment>>, left: seq<Segment>)
    requires segments == [Segment(1, 20, 20), Segment(2, 10, 10)]
    requires Drawn(tasks, EligiblesOf(segments, USUAL), USUAL) && left == LeftAfter(EligiblesOf(segments, USUAL), tasks)
    requires left == [] || NoProgress(left, USUAL) || |left| + |tasks| <= Allowed(segments, USUAL)
    ensures EligiblesOf(segments, USUAL) == segments && tasks != [] && tasks[0] == segments
    ensures USUAL.segmentsPerMergeTask == 10
  {
    hide Greedy, Fitting, EligiblesOf, MinLive, SumLive, EmptiesOf, LeftAfter, Drawn;
    AllEligible(segments, USUAL);
    NoEmpties(segments);
    RostersOfTwo(segments);
    NoTasks(segments);
    assert !NoProgress(segments, USUAL) by { assert MakesProgress(Greedy(segments, 0, [], USUAL)); }
    FirstTask(tasks, segments, USUAL);
    var start :| ChosenTask(tasks[0], segments, start, USUAL);
  }

  lemma TwoAsTheyAre(segments: seq<Segment>, sorted: seq<Segment>)
    requires segments == [Segment(1, 20, 20), Segment(2, 10, 10)] && multiset(sorted) == multiset(segments) && Descending(sorted)
    ensures sorted == segments
  {
    assert |multiset(sorted)| == |sorted| && |multiset(segments)| == |segments|;
    assert sorted[0] in multiset(sorted) && sorted[1] in multiset(sorted);
    assert sorted == [sorted[0], sorted[1]];
    assert multiset(segments)[segments[0]] == 1 && multiset(segments)[segments[1]] == 1;
  }

  lemma RostersOfTwo(segments: seq<Segment>)
    requires segments == [Segment(1, 20, 20), Segment(2, 10, 10)]
    ensures Greedy(segments, 0, [], USUAL) == segments
    ensures !MakesProgress(Greedy(segments, 1, [], USUAL))
  {
    var a, b := segments[0], segments[1];
    SumLiveSnoc([], a);
    assert [] + [a] == [a] && [a] + [b] == segments && [] + [b] == [b];
    assert Greedy(segments, 2, segments, USUAL) == segments;
    assert Greedy(segments, 1, [a], USUAL) == segments;
    assert Greedy(segments, 2, [b], USUAL) == [b];
    assert Greedy(segments, 1, [], USUAL) == [b];
  }
}
