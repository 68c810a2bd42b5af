/** Planning the newest root over and over until a plan changes nothing. */
module MergeConvergence {
  import opened Basics
  import opened MergePlanning

  /** A segment of the root: its rows, the live ones, its encoded bytes, and whether it is
      on disk. */
  datatype Stored = Stored(id: nat, rows: nat, live: nat, bytes: nat, persisted: bool)

  ghost predicate RootOk(root: seq<Stored>) {
    && (forall i, j :: 0 <= i < j < |root| ==> root[i].id != root[j].id)
    && forall s :: s in root ==> s.live <= s.rows && s.bytes >= 1
  }

  function ByRows(s: Stored): Segment {
    Segment(s.id, s.rows, s.live)
  }

  /** A planner's view by bytes: live bytes in proportion, at least 1 when a row is live. */
  function ByBytes(s: Stored): Segment
    requires s.live <= s.rows
  {
    Segment(s.id, s.bytes,
      if s.rows == 0 || s.live == 0 then 0
      else if s.live == s.rows then s.bytes
      else if s.bytes * s.live / s.rows < 1 then 1 else s.bytes * s.live / s.rows)
  }

  function View(s: Stored, byBytes: bool): Segment
    requires s.live <= s.rows
  {
    if byBytes then ByBytes(s) else ByRows(s)
  }

  /** Either view shows deletions only where rows are deleted, and emptiness only where
      nothing is live. */
  lemma ViewIsHonest(s: Stored, byBytes: bool)
    requires s.live <= s.rows && s.bytes >= 1
    ensures View(s, byBytes).id == s.id
    ensures s.live > 0 && View(s, byBytes).live < View(s, byBytes).full ==> s.live < s.rows
    ensures View(s, byBytes).live <= 0 <==> s.live == 0
  {
  }

  function Views(root: seq<Stored>, byBytes: bool): (r: seq<Segment>)
    requires forall s :: s in root ==> s.live <= s.rows
  {
    if root == [] then []
    else
      var init, last := root[..|root| - 1], root[|root| - 1];
      assert forall s :: s in init ==> s in root;
      assert last in root;
      Views(init, byBytes) + if last.persisted then [View(last, byBytes)] else []
  }

  lemma {:induction false} ViewsFacts(root: seq<Stored>, byBytes: bool)
    requires RootOk(root)
    ensures Distinct(Views(root, byBytes))
    ensures forall v :: v in Views(root, byBytes) ==> exists s :: s in root && s.persisted && View(s, byBytes) == v
    ensures forall s :: s in root && s.persisted ==> View(s, byBytes) in Views(root, byBytes)
  {
    if root != [] {
      var init, last := root[..|root| - 1], root[|root| - 1];
      assert RootOk(init) by { assert forall s :: s in init ==> s in root; }
      ViewsFacts(init, byBytes);
      assert last in root;
      var r := Views(init, byBytes);
      forall i | 0 <= i < |r| ensures r[i].id != last.id {
        assert r[i] in r;
        var s :| s in init && s.persisted && View(s, byBytes) == r[i];
        assert s in root;
        ViewIsHonest(s, byBytes);
        var j :| 0 <= j < |init| && init[j] == s;
        assert root[j].id != root[|init|].id;
      }
    }
  }

  /** How many segments have deleted rows. */
  function Deleted(root: seq<Stored>): nat {
    if root == [] then 0
    else Deleted(root[..|root| - 1]) + if root[|root| - 1].live < root[|root| - 1].rows then 1 else 0
  }

  function Others(root: seq<Stored>, ids: set<nat>): seq<Stored> {
    if root == [] then []
    else
      var last := root[|root| - 1];
      Others(root[..|root| - 1], ids) + if last.id in ids then [] else [last]
  }

  function LiveOfIds(root: seq<Stored>, ids: set<nat>): nat {
    if root == [] then 0
    else
      var last := root[|root| - 1];
      LiveOfIds(root[..|root| - 1], ids) + if last.id in ids then last.live else 0
  }

  /** How many of a root's segments, and how many with deleted rows, have one of the ids. */
  function Counted(root: seq<Stored>, ids: set<nat>): nat {
    if root == [] then 0
    else Counted(root[..|root| - 1], ids) + if root[|root| - 1].id in ids then 1 else 0
  }

  function CountedDeleted(root: seq<Stored>, ids: set<nat>): nat {
    if root == [] then 0
    else
      var last := root[|root| - 1];
      CountedDeleted(root[..|root| - 1], ids) + if last.id in ids && last.live < last.rows then 1 else 0
  }

  lemma {:induction false} OthersCount(root: seq<Stored>, ids: set<nat>)
    ensures |Others(root, ids)| + Counted(root, ids) == |root|
    ensures Deleted(Others(root, ids)) + CountedDeleted(root, ids) == Deleted(root)
    ensures forall s :: s in Others(root, ids) <==> s in root && s.id !in ids
  {
    if root != [] {
      var init, last := root[..|root| - 1], root[|root| - 1];
      assert root == init + [last];
      OthersCount(init, ids);
      var rest := Others(init, ids);
      assert (rest + [last])[..|rest|] == rest && rest + [] == rest;
    }
  }

  function TotalLive(root: seq<Stored>): nat {
    if root == [] then 0 else TotalLive(root[..|root| - 1]) + root[|root| - 1].live
  }

  lemma {:induction false} LiveIsSplit(root: seq<Stored>, ids: set<nat>)
    ensures TotalLive(Others(root, ids)) + LiveOfIds(root, ids) == TotalLive(root)
  {
    if root != [] {
      var init, last := root[..|root| - 1], root[|root| - 1];
      LiveIsSplit(init, ids);
      var rest := Others(init, ids);
      assert (rest + [last])[..|rest|] == rest && rest + [] == rest;
    }
  }

  lemma {:induction false} OneCounts(root: seq<Stored>, ids: set<nat>, s: Stored)
    requires s in root && s.id in ids
    ensures Counted(root, ids) >= 1
    ensures s.live < s.rows ==> CountedDeleted(root, ids) >= 1
  {
    var init, last := root[..|root| - 1], root[|root| - 1];
    assert root == init + [last];
    if s in init { OneCounts(init, ids, s); }
  }

  lemma {:induction false} TwoCount(root: seq<Stored>, ids: set<nat>, s: Stored, t: Stored)
    requires s in root && t in root && s.id in ids && t.id in ids && s != t
    ensures Counted(root, ids) >= 2
  {
    var init, last := root[..|root| - 1], root[|root| - 1];
    assert root == init + [last];
    if s in init && t in init { TwoCount(init, ids, s, t); }
    else if s in init { OneCounts(init, ids, s); }
    else { OneCounts(init, ids, t); }
  }

  lemma {:induction false} NothingLive(root: seq<Stored>, ids: set<nat>)
    requires forall s :: s in root && s.id in ids ==> s.live == 0
    ensures LiveOfIds(root, ids) == 0
  {
    if root != [] {
      var init, last := root[..|root| - 1], root[|root| - 1];
      assert root == init + [last];
      NothingLive(init, ids);
    }
  }

  // ---------------------------------------------------------------- one task

  function Ids(task: seq<Segment>): set<nat> {
    set v | v in task :: v.id
  }

  /** Some stored segment is what the planner saw. */
  ghost predicate Seen(root: seq<Stored>, v: Segment, byBytes: bool)
    requires RootOk(root)
  {
    exists s :: s in root && s.persisted && View(s, byBytes) == v
  }

  /** The root after a task: its segments replaced by one new segment of their live rows,
      or by none when nothing was live. */
  function Merged(root: seq<Stored>, task: seq<Segment>, id: nat, bytes: nat): seq<Stored> {
    var live := LiveOfIds(root, Ids(task));
    Others(root, Ids(task)) + if live > 0 then [Stored(id, live, live, bytes, true)] else []
  }

  predicate Smaller(a: seq<Stored>, b: seq<Stored>) {
    |a| < |b| || (|a| == |b| && Deleted(a) < Deleted(b))
  }

  lemma ById(root: seq<Stored>, s: Stored, t: Stored)
    requires RootOk(root) && s in root && t in root && s.id == t.id
    ensures s == t
  {
    var i :| 0 <= i < |root| && root[i] == s;
    var j :| 0 <= j < |root| && root[j] == t;
  }

  /** Every task the planner makes shrinks the number of segments, or keeps it and shrinks
      the number of segments with deleted rows. */
  lemma TaskShrinks(root: seq<Stored>, task: seq<Segment>, o: Options, byBytes: bool, id: nat, bytes: nat)
    requires RootOk(root) && GoodTask(task, o) && forall v :: v in task ==> Seen(root, v, byBytes)
    ensures Smaller(Merged(root, task, id, bytes), root)
  {
    hide Others, Counted, CountedDeleted, LiveOfIds, Deleted, Within, View;
    var ids := Ids(task);
    OthersCount(root, ids);
    assert task[0] in task;
    var s :| s in root && s.persisted && View(s, byBytes) == task[0];
    ViewIsHonest(s, byBytes);
    assert s.id in ids;
    OneCounts(root, ids, s);
    if forall v :: v in task ==> v.live <= 0 {
      EmptyTask(root, task, byBytes);
      assert Merged(root, task, id, bytes) == Others(root, ids);
    } else if |task| > 1 {
      assert task[1] in task;
      var t :| t in root && t.persisted && View(t, byBytes) == task[1];
      ViewIsHonest(t, byBytes);
      assert t.id in ids;
      TwoCount(root, ids, s, t);
    } else {
      MergedDeleted(Others(root, ids), LiveOfIds(root, ids), id, bytes);
    }
  }

  lemma MergedDeleted(rest: seq<Stored>, live: nat, id: nat, bytes: nat)
    ensures Deleted(rest + [Stored(id, live, live, bytes, true)]) == Deleted(rest)
    ensures rest + [] == rest
  {
    assert (rest + [Stored(id, live, live, bytes, true)])[..|rest|] == rest;
  }

  lemma EmptyTask(root: seq<Stored>, task: seq<Segment>, byBytes: bool)
    requires RootOk(root) && forall v :: v in task ==> Seen(root, v, byBytes) && v.live <= 0
    ensures LiveOfIds(root, Ids(task)) == 0
  {
    hide View;
    forall s | s in root && s.id in Ids(task) ensures s.live == 0 {
      var v :| v in task && v.id == s.id;
      var t :| t in root && t.persisted && View(t, byBytes) == v;
      ViewIsHonest(t, byBytes);
      ById(root, s, t);
    }
    NothingLive(root, Ids(task));
  }

  /** A task leaves a well-formed root with the same live rows, and the segments of other
      tasks where they were. */
  lemma TaskKeeps(root: seq<Stored>, task: seq<Segment>, byBytes: bool, id: nat, bytes: nat)
    requires RootOk(root) && bytes >= 1 && forall s :: s in root ==> s.id != id
    ensures RootOk(Merged(root, task, id, bytes)) && TotalLive(Merged(root, task, id, bytes)) == TotalLive(root)
    ensures forall v :: Seen(root, v, byBytes) && v.id !in Ids(task) ==> Seen(Merged(root, task, id, bytes), v, byBytes)
    ensures forall s :: s in Merged(root, task, id, bytes) && s.id != id <==> s in root && s.id !in Ids(task)
    ensures forall s :: s in Merged(root, task, id, bytes) && s.id == id <==>
      LiveOfIds(root, Ids(task)) > 0 && s == Stored(id, LiveOfIds(root, Ids(task)), LiveOfIds(root, Ids(task)), bytes, true)
  {
    hide View, LiveOfIds, Others, TotalLive, Seen;
    var ids := Ids(task);
    var rest, live := Others(root, ids), LiveOfIds(root, ids);
    OthersCount(root, ids);
    OthersDistinct(root, ids);
    LiveIsSplit(root, ids);
    var merged := Stored(id, live, live, bytes, true);
    assert rest + [] == rest;
    TotalSnoc(rest, merged);
    if live > 0 { RootSnoc(rest, merged); }
    forall v | Seen(root, v, byBytes) && v.id !in ids ensures Seen(Merged(root, task, id, bytes), v, byBytes) {
      StillSeen(root, v, rest, Merged(root, task, id, bytes), ids, byBytes);
    }
  }

  lemma StillSeen(root: seq<Stored>, v: Segment, rest: seq<Stored>, after: seq<Stored>, ids: set<nat>, byBytes: bool)
    requires RootOk(root) && RootOk(after) && Seen(root, v, byBytes) && v.id !in ids
    requires forall s :: s in root && s.id !in ids ==> s in rest
    requires forall s :: s in rest ==> s in after
    ensures Seen(after, v, byBytes)
  {
    hide View;
    var s :| s in root && s.persisted && View(s, byBytes) == v;
    ViewIsHonest(s, byBytes);
  }

  lemma TotalSnoc(root: seq<Stored>, s: Stored)
    ensures TotalLive(root + [s]) == TotalLive(root) + s.live
  {
    assert (root + [s])[..|root|] == root;
  }

  lemma RootSnoc(root: seq<Stored>, s: Stored)
    requires RootOk(root) && s.live <= s.rows && s.bytes >= 1 && forall t :: t in root ==> t.id != s.id
    ensures RootOk(root + [s])
  {
  }

  lemma RootInit(root: seq<Stored>)
    requires RootOk(root) && root != []
    ensures RootOk(root[..|root| - 1]) && forall s :: s in root[..|root| - 1] ==> s in root && s.id != root[|root| - 1].id
  {
    var init := root[..|root| - 1];
    assert root == init + [root[|root| - 1]];
    forall s | s in init ensures s.id != root[|root| - 1].id {
      var j :| 0 <= j < |init| && init[j] == s;
      assert root[j].id != root[|init|].id;
    }
  }

  lemma {:induction false} OthersDistinct(root: seq<Stored>, ids: set<nat>)
    requires RootOk(root)
    ensures RootOk(Others(root, ids))
  {
    if root != [] {
      hide RootOk;
      RootInit(root);
      var init, last := root[..|root| - 1], root[|root| - 1];
      OthersDistinct(init, ids);
      OthersCount(init, ids);
      RootRows(root);
      assert last in root;
      if last.id !in ids { RootSnoc(Others(init, ids), last); } else { assert Others(init, ids) + [] == Others(init, ids); }
    }
  }

  lemma RootRows(root: seq<Stored>)
    requires RootOk(root)
    ensures forall s :: s in root ==> s.live <= s.rows && s.bytes >= 1
  {
  }

  // ---------------------------------------------------------------- all tasks, again and again

  ghost predicate Fresh(root: seq<Stored>, next: nat) {
    forall s :: s in root ==> s.id < next
  }

  /** Executes the tasks of one plan in turn, each on the root the one before left. */
  method ExecuteTasks(start: seq<Stored>, tasks: seq<seq<Segment>>, o: Options, byBytes: bool, firstId: nat)
    returns (root: seq<Stored>, nextId: nat)
    requires RootOk(start) && Fresh(start, firstId)
    requires forall t :: t in tasks ==> GoodTask(t, o) && forall v :: v in t ==> Seen(start, v, byBytes)
    requires forall i, j, v, w :: 0 <= i < j < |tasks| && v in tasks[i] && w in tasks[j] ==> v.id != w.id
    ensures RootOk(root) && Fresh(root, nextId) && TotalLive(root) == TotalLive(start)
    ensures tasks == [] ==> root == start
    ensures tasks != [] ==> Smaller(root, start)
    ensures forall s :: s in start && (forall t :: t in tasks ==> s.id !in Ids(t)) ==> s in root
    ensures forall s :: s in root && s.id < firstId ==> s in start && forall t :: t in tasks ==> s.id !in Ids(t)
    ensures forall s :: s in root && s.id >= firstId ==> s.persisted && s.live == s.rows > 0
  {
    hide GoodTask, Seen, Deleted, TotalLive, Others, Merged, RootOk;
    root, nextId := start, firstId;
    forall j, v | 0 <= j < |tasks| && v in tasks[j] ensures Seen(root, v, byBytes) { assert tasks[j] in tasks; }
    for k := 0 to |tasks|
      invariant RootOk(root) && Fresh(root, nextId) && TotalLive(root) == TotalLive(start)
      invariant if k == 0 then root == start else Smaller(root, start)
      invariant forall j, v :: k <= j < |tasks| && v in tasks[j] ==> Seen(root, v, byBytes)
      invariant firstId <= nextId
      invariant forall s :: s in start && (forall j :: 0 <= j < k ==> s.id !in Ids(tasks[j])) ==> s in root
      invariant forall s :: s in root && s.id < firstId ==> s in start && forall j :: 0 <= j < k ==> s.id !in Ids(tasks[j])
      invariant forall s :: s in root && s.id >= firstId ==> s.persisted && s.live == s.rows > 0
    {
      var bytes: nat :| bytes >= 1;
      assert tasks[k] in tasks;
      TaskShrinks(root, tasks[k], o, byBytes, nextId, bytes);
      TaskKeeps(root, tasks[k], byBytes, nextId, bytes);
      root := Merged(root, tasks[k], nextId, bytes);
      nextId := nextId + 1;
    }
  }

  lemma PlannedAreSeen(root: seq<Stored>, tasks: seq<seq<Segment>>, left: seq<Segment>, o: Options, byBytes: bool)
    requires RootOk(root) && PlanOk(tasks, left, Views(root, byBytes), o)
    ensures forall t :: t in tasks ==> GoodTask(t, o) && forall v :: v in t ==> Seen(root, v, byBytes)
    ensures forall i, j, v, w :: 0 <= i < j < |tasks| && v in tasks[i] && w in tasks[j] ==> v.id != w.id
  {
    hide GoodTask, View;
    ViewsFacts(root, byBytes);
    var views := Views(root, byBytes);
    forall i, j, v, w | 0 <= i < j < |tasks| && v in tasks[i] && w in tasks[j] ensures v.id != w.id {
      assert tasks[i] in tasks && tasks[j] in tasks;
      var x :| 0 <= x < |views| && views[x] == v;
      var y :| 0 <= y < |views| && views[y] == w;
    }
  }

  /** With no other introductions, planning and merging come to an end for every budget and
      scoring, with the same live rows and nothing more to merge. */
  method Converge(start: seq<Stored>, o: Options, byBytes: bool, firstId: nat)
    returns (root: seq<Stored>, ghost left: seq<Segment>, ghost sorted: seq<Segment>)
    requires RootOk(start) && Fresh(start, firstId)
    ensures RootOk(root) && TotalLive(root) == TotalLive(start)
    ensures root == start || Smaller(root, start)
    ensures RootOk(root) && |Views(root, byBytes)| > 1 ==>
      && PlannedFor(Views(root, byBytes), [], left, sorted, o) && left == EligiblesOf(sorted, o)
      && (forall s :: s in left ==> s.live > 0) && (left == [] || NoProgress(left, o) || |left| <= Allowed(sorted, o))
  {
    hide GoodTask, Seen, LeftAfter, EligiblesOf, Drawn, OverBudget, Deleted, TotalLive, Views, Distinct, NoProgress, Allowed, PlanOk;
    left, sorted := [], [];
    root := start;
    var nextId := firstId;
    while true
      invariant RootOk(root) && Fresh(root, nextId) && TotalLive(root) == TotalLive(start)
      invariant root == start || Smaller(root, start)
      decreases |root|, Deleted(root)
    {
      RootIsOk(root);
      ViewsFacts(root, byBytes);
      var tasks;
      tasks, left, sorted := Plan(Views(root, byBytes), o);
      if tasks.None? || tasks.value == [] {
        if tasks.Some? { NothingPlanned(Views(root, byBytes), left, sorted, o); }
        return;
      }
      PlannedAreSeen(root, tasks.value, left, o, byBytes);
      root, nextId := ExecuteTasks(root, tasks.value, o, byBytes, nextId);
    }
  }

  lemma NothingPlanned(segments: seq<Segment>, left: seq<Segment>, sorted: seq<Segment>, o: Options)
    requires PlannedFor(segments, [], left, sorted, o)
    ensures left == EligiblesOf(sorted, o) && (forall s :: s in left ==> s.live > 0)
    ensures left == [] || NoProgress(left, o) || |left| <= Allowed(sorted, o)
  {
    hide EligiblesOf, Allowed, NoProgress;
    NoTasks(EligiblesOf(sorted, o));
  }

  lemma RootIsOk(root: seq<Stored>)
    requires RootOk(root)
    ensures forall s :: s in root ==> s.live <= s.rows
  {
  }

  // ---------------------------------------------------------------- document numbers of a task

  /** The segments the executor hands to the merger: those with live rows. */
  function ToMerge(task: seq<Stored>): seq<Stored> {
    if task == [] then []
    else
      var last := task[|task| - 1];
      ToMerge(task[..|task| - 1]) + if last.live == 0 then [] else [last]
  }

  lemma {:induction false} ToMergeAllOrNone(task: seq<Stored>)
    ensures (forall s :: s in task ==> s.live > 0) ==> ToMerge(task) == task
    ensures (forall s :: s in task ==> s.live == 0) ==> ToMerge(task) == []
  {
    if task != [] {
      var init, last := task[..|task| - 1], task[|task| - 1];
      assert task == init + [last];
      ToMergeAllOrNone(init);
    }
  }

  /** A planned task hands over all its segments or none, so that the i-th table of new
      document numbers is that of the i-th segment of the task. */
  lemma {:induction false} NumbersAreAligned(task: seq<Stored>, planned: seq<Segment>, o: Options, byBytes: bool)
    requires |task| == |planned| && GoodTask(planned, o)
    requires forall i :: 0 <= i < |task| ==> task[i].live <= task[i].rows && task[i].bytes >= 1
    requires forall i :: 0 <= i < |task| ==> View(task[i], byBytes) == planned[i]
    ensures ToMerge(task) == task || ToMerge(task) == []
  {
    hide View;
    forall s | s in task
      ensures (forall v :: v in planned ==> v.live > 0) ==> s.live > 0
      ensures (forall v :: v in planned ==> v.live <= 0) ==> s.live == 0
    {
      var i :| 0 <= i < |task| && task[i] == s;
      assert planned[i] in planned;
      ViewIsHonest(s, byBytes);
    }
    ToMergeAllOrNone(task);
  }
}
