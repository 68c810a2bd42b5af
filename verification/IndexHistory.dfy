/** What a run of the text index amounts to, told from its events alone, and that the
    index holds exactly that. */
module IndexHistory {
  import opened Basics
  import opened Segments
  import opened Introducer
  import opened LiveDocuments
  import opened DeletionPolicy
  import opened IndexProtocol
  import opened IndexSafety
  import opened IndexTheorems

  /** The numbers given out, the files written, the batches prepared, those introduced,
      how many of these the persister has taken, and how many each snapshot written had. */
  datatype History = History(
    lastId: nat, files: set<nat>, prepared: map<nat, Batch>, log: seq<Batch>, taken: nat, written: seq<nat>)

  /** A stop loses what was prepared, and of what was introduced all that came after the
      last snapshot written; numbers go on above those of the files left. */
  ghost function Stopped(h: History): History {
    var kept := if h.written == [] then 0 else h.written[|h.written| - 1];
    h.(prepared := map[], log := if kept <= |h.log| then h.log[..kept] else h.log,
       lastId := if h.files == {} then 1 else Max(h.files) + 1)
  }

  ghost function Recorded(h: History, ev: Event): History {
    var id := h.lastId + 1;
    match ev
    case PrepareBatch(_, docs, idTerms) => h.(lastId := id, prepared := h.prepared[id := Batch(idTerms, docs)])
    case IntroduceBatch(i) =>
      if i in h.prepared then h.(log := h.log + [h.prepared[i]], prepared := h.prepared - {i}) else h
    case PlanMerge(_, task) =>
      h.(lastId := id, files := if exists q :: q in task && q.LiveSize() != 0 then h.files + {id} else h.files)
    case Abandon(i) => h.(prepared := h.prepared - {i})
    case RemoveOrphan(i) => h.(files := h.files - {i})
    case PlanMemoryMerge => h.(lastId := id, files := h.files + {id})
    case WriteSegment(seg) => h.(files := h.files + {seg.id})
    case Cleanup(_, removed) => h.(files := h.files - removed)
    case TakeSnapshot => h.(taken := |h.log|)
    case WriteSnapshot => h.(written := h.written + [h.taken])
    case Crash => Stopped(h)
    case _ => h
  }

  ghost function Told(events: seq<Event>): History {
    if events == [] then History(1, {}, map[], [], 0, [])
    else Recorded(Told(events[..|events| - 1]), events[|events| - 1])
  }

  /** The batches pending are those prepared. */
  ghost predicate SamePrepared(s: State, h: History) {
    && (forall id :: id in h.prepared <==> id in s.pending && s.pending[id].PendingBatch?)
    && forall id :: id in h.prepared ==> s.pending[id].next.AsBatch() == h.prepared[id]
  }

  ghost predicate SameTaken(s: State, h: History) {
    !s.persister.Idle? ==> s.persister.snap.epoch in s.logAt && s.logAt[s.persister.snap.epoch] == h.taken
  }

  /** The epochs that live are those of the last snapshots written, as many as are kept. */
  ghost predicate SameWritten(s: State, h: History) {
    var live, n := s.policy.liveEpochs, |h.written|;
    && |live| == (if n <= s.policy.n then n else s.policy.n)
    && (s.policy.deletableEpochs != [] ==> |live| == s.policy.n)
    && (forall i :: 0 <= i < |live| ==> live[i] in s.logAt && s.logAt[live[i]] == h.written[n - |live| + i])
    && s.acked == if n == 0 then 0 else h.written[n - 1]
  }

  ghost predicate Follows(s: State, h: History) {
    && s.log == h.log && s.lastId == h.lastId && s.disk.segments.Keys == h.files
    && SamePrepared(s, h) && SameTaken(s, h) && SameWritten(s, h)
  }

  // ---------------------------------------------------------------- batches

  /** What a batch prepared from any root is. */
  lemma PreparedIsTheBatch(s: State, from: Snapshot, docs: seq<Doc>, idTerms: set<Term>)
    requires Enabled(s, PrepareBatch(from, docs, idTerms))
    ensures
      var t, id := Next(s, PrepareBatch(from, docs, idTerms)), s.lastId + 1;
      && t.lastId == id && id in t.pending && t.pending[id].PendingBatch?
      && t.pending[id].next.AsBatch() == Batch(idTerms, docs)
      && t == s.(lastId := id, pending := s.pending[id := t.pending[id]])
  {
    hide ObsoletesOf;
  }

  /** Introducing a batch puts it at the end of the log and does to the live documents what
      a plain bag does: those that match an identifier go, the batch's own come. */
  lemma IntroducedIsTheBatch(s: State, id: nat)
    requires Inv(s) && Enabled(s, IntroduceBatch(id))
    ensures
      var t, batch := Next(s, IntroduceBatch(id)), s.pending[id].next.AsBatch();
      && t.log == s.log + [batch] && t.pending == s.pending - {id}
      && RootBag(t.root.segment) == ApplyBatch(RootBag(s.root.segment), batch)
      && (forall d :: RootBag(t.root.segment)[d] ==
            multiset(batch.docs)[d] + if d.terms * batch.idTerms == {} then RootBag(s.root.segment)[d] else 0)
  {
    hide SegmentRoot, RootBag, ApplyBatch;
    IdMatches(s, id);
    IntroducedRoot(s, s.pending[id].next);
    AppliedCounts(RootBag(s.root.segment), s.pending[id].next.AsBatch());
  }

  lemma AppliedCounts(b: Bag, batch: Batch)
    ensures forall d :: ApplyBatch(b, batch)[d] == multiset(batch.docs)[d] + if d.terms * batch.idTerms == {} then b[d] else 0
  {
  }

  lemma IntroducedRoot(s: State, next: Introduction)
    requires Inv(s) && next.id in s.pending && s.pending[next.id] == PendingBatch(next)
    ensures RootBag(IntroduceBatchIn(s, next).root.segment) == ApplyBatch(RootBag(s.root.segment), next.AsBatch())
  {
    hide *;
    PendingBatchFacts(s, next);
    BatchIntroduced(s.root.segment, next);
    BatchRoot(s, next);
  }

  lemma BatchRoot(s: State, next: Introduction)
    ensures IntroduceBatchIn(s, next).root.segment == SegmentRoot(s.root.segment, next)
  {
  }

  // ---------------------------------------------------------------- merges

  /** Introducing a merge takes its sources and the empty segments out of the root, leaves
      the others, and puts one written segment of the sources' documents in their place, if
      and only if a document of a source is still live; else the merged file is left over. */
  lemma MergeReplacesItsSources(s: State, id: nat)
    requires Inv(s) && Enabled(s, IntroduceMerge(id))
    ensures
      var t, m := Next(s, IntroduceMerge(id)), s.pending[id].merge;
      && Replaced(s.root.segment, t.root.segment, id, m.sources)
      && t.pending == if id in Ids(t.root.segment) then s.pending - {id} else s.pending[id := Orphan]
  {
    hide Inv, Replaced, MergeRoot, LateNumbers, MergeSkipped, PlannedFrom, Older, Ids, WellFormedRoot, Offsets;
    IdMatches(s, id);
    var m := s.pending[id].merge;
    PlannedMergeIsGood(s, m);
    RootIsWellFormed(s);
    MergeReplaces(s.root.segment, id, m.sources, m.Old(), m.Nums(), m.Merged());
  }

  lemma RootIsWellFormed(s: State)
    requires Inv(s)
    ensures DistinctIds(s.root.segment) && forall q :: q in s.root.segment ==> q.WellFormed()
  {
    hide Pendings, Persisting, Files, Snapshots;
  }

  /** A planned merge is of the segments of its task that have live documents, in order,
      and its file holds their live documents. */
  lemma PlannedIsTheTask(s: State, from: Snapshot, task: seq<SegmentSnapshot>)
    requires Inv(s) && Enabled(s, PlanMerge(from, task))
    ensures
      var t, id := Next(s, PlanMerge(from, task)), s.lastId + 1;
      && id in t.pending && t.pending[id] == PendingMerge(Merge(id, task, {}))
      && (task != [] ==> id in t.disk.segments && multiset(t.disk.segments[id]) == RootBag(task))
  {
    hide Inv, MergedDocs, RootBag, NonEmpty, EmptyIds, LiveBag, SegmentSnapshot.LiveSize, DistinctIds;
    TaskIsLive(s, from, task);
    NonEmptyAll(task);
    NoEmptyIds(task);
    MergedBagUnmasked(task);
    LiveBagNone(MergedDocs(task));
  }

  lemma TaskIsLive(s: State, from: Snapshot, task: seq<SegmentSnapshot>)
    requires Inv(s) && Enabled(s, PlanMerge(from, task))
    ensures forall q :: q in task ==> q.LiveSize() > 0
  {
    hide Pendings, Logs, Persisting, Files, Snapshots, Older, DistinctIds;
    forall q | q in task ensures q.LiveSize() > 0 { assert q in from.segment; }
  }

  // ---------------------------------------------------------------- steps that tell nothing

  /** Nothing the history tells changed, though the root may have. */
  ghost predicate Untold(s: State, t: State) {
    && t.log == s.log && t.lastId == s.lastId && t.disk.segments.Keys == s.disk.segments.Keys && t.acked == s.acked
    && t.policy.n == s.policy.n && t.policy.liveEpochs == s.policy.liveEpochs
    && t.policy.deletableEpochs == s.policy.deletableEpochs
    && (forall e :: e in s.logAt ==> e in t.logAt && t.logAt[e] == s.logAt[e])
  }

  lemma UntoldKeeps(s: State, t: State, h: History)
    requires Follows(s, h) && Untold(s, t) && SamePrepared(t, h) && SameTaken(t, h)
    ensures Follows(t, h)
  {
  }

  /** A new root gets a new epoch. */
  lemma NewEpoch(s: State)
    requires Inv(s)
    ensures s.nextEpoch !in s.logAt
  {
    hide Pendings, Persisting, Files, Snapshots, Holds, WellFormedRoot, Older;
  }

  lemma BatchesOnly(s: State, t: State, h: History)
    requires SamePrepared(s, h)
    requires forall id :: (id in t.pending && t.pending[id].PendingBatch?) <==> (id in s.pending && s.pending[id].PendingBatch?)
    requires forall id :: id in s.pending && s.pending[id].PendingBatch? ==> id in t.pending && t.pending[id] == s.pending[id]
    ensures SamePrepared(t, h)
  {
  }

  /** A merge or a persist replaces the root and introduces no batch. */
  lemma OtherRootKeeps(s: State, h: History, segs: seq<SegmentSnapshot>, t: State)
    requires Inv(s) && Follows(s, h)
    requires
      var u := Replace(s, segs, s.log, {});
      t == u.(pending := t.pending, persister := t.persister)
    requires SamePrepared(t, h)
    requires !t.persister.Idle? ==> !s.persister.Idle? && t.persister.snap.epoch == s.persister.snap.epoch
    ensures Follows(t, h)
  {
    hide Inv, MakeSnapshot, SamePrepared;
    NewEpoch(s);
    UntoldKeeps(s, t, h);
  }

  lemma MergeRecorded(s: State, h: History, m: Merge)
    requires Inv(s) && Follows(s, h) && m.id in s.pending && s.pending[m.id] == PendingMerge(m)
    ensures Follows(IntroduceMergeIn(s, m), h)
  {
    hide Inv, MergeRoot, Skips, MakeSnapshot;
    var t := IntroduceMergeIn(s, m);
    BatchesOnly(s, t, h);
    OtherRootKeeps(s, h, MergeRoot(s.root.segment, m.id, m.Old(), m.Nums(), m.Merged()), t);
  }

  lemma MemoryMergeRecorded(s: State, h: History, snap: Snapshot, m: Merge)
    requires Inv(s) && Follows(s, h) && m.id in s.pending && s.pending[m.id] == PendingMerge(m)
    requires !s.persister.Idle? && s.persister.snap == snap
    ensures Follows(IntroduceMemoryMergeIn(s, snap, m), h)
  {
    hide Inv, MergeRoot, Skips, OnDisk, InMemory, MergedDocs, Offsets;
    var t := IntroduceMemoryMergeIn(s, snap, m);
    BatchesOnly(s, t, h);
    OtherRootKeeps(s, h, MergeRoot(s.root.segment, m.id, m.Old(), m.Nums(), m.Merged()), t);
  }

  lemma SwapRecorded(s: State, h: History, snap: Snapshot)
    requires Inv(s) && Follows(s, h) && !s.persister.Idle? && s.persister.snap == snap
    ensures Follows(SwapPersistedIn(s, snap), h)
  {
    hide Inv, PersistRoot, MakeSnapshot, Ids, InMemory;
    var t := SwapPersistedIn(s, snap);
    BatchesOnly(s, t, h);
    OtherRootKeeps(s, h, PersistRoot(s.root.segment, Ids(InMemory(snap.segment))), t);
  }

  // ---------------------------------------------------------------- steps that tell something

  lemma PrepareRecorded(s: State, h: History, ev: Event)
    requires Inv(s) && Follows(s, h) && Enabled(s, ev) && ev.PrepareBatch?
    ensures Follows(Next(s, ev), Recorded(h, ev))
  {
    hide Inv, Prepare, SameWritten;
    PreparedIsTheBatch(s, ev.from, ev.docs, ev.idTerms);
    SameWrittenKept(s, Next(s, ev), h, Recorded(h, ev));
  }

  lemma SameWrittenKept(s: State, t: State, h: History, h': History)
    requires SameWritten(s, h) && h'.written == h.written
    requires t.policy.n == s.policy.n && t.policy.liveEpochs == s.policy.liveEpochs
    requires t.policy.deletableEpochs == [] || s.policy.deletableEpochs != []
    requires t.acked == s.acked && forall e :: e in s.logAt ==> e in t.logAt && t.logAt[e] == s.logAt[e]
    ensures SameWritten(t, h')
  {
  }

  lemma IntroduceRecorded(s: State, h: History, id: nat)
    requires Inv(s) && Follows(s, h) && Enabled(s, IntroduceBatch(id))
    ensures Follows(Next(s, IntroduceBatch(id)), Recorded(h, IntroduceBatch(id)))
  {
    hide Inv, SegmentRoot, MakeSnapshot, SameWritten;
    IdMatches(s, id);
    NewEpoch(s);
    var t := Next(s, IntroduceBatch(id));
    SameWrittenKept(s, t, h, Recorded(h, IntroduceBatch(id)));
  }

  lemma {:induction false} AllEmptyNone(task: seq<SegmentSnapshot>)
    ensures NonEmpty(task) == [] <==> forall q :: q in task ==> q.LiveSize() == 0
  {
    if task != [] {
      var init, last := task[..|task| - 1], task[|task| - 1];
      AllEmptyNone(init);
      assert task == init + [last];
    }
  }

  lemma PlanRecorded(s: State, h: History, ev: Event)
    requires Inv(s) && Follows(s, h) && Enabled(s, ev) && (ev.PlanMerge? || ev.PlanMemoryMerge?)
    ensures Follows(Next(s, ev), Recorded(h, ev))
  {
    hide Inv, NonEmpty, EmptyIds, InMemory, MergedDocs, SameWritten, DistinctIds, SegmentSnapshot.LiveSize;
    var t := Next(s, ev);
    if ev.PlanMerge? { AllEmptyNone(ev.task); }
    NotYetPending(s);
    SameWrittenKept(s, t, h, Recorded(h, ev));
    BatchesOnly(s, t, Recorded(h, ev));
  }

  lemma NotYetPending(s: State)
    requires Inv(s)
    ensures s.lastId + 1 !in s.pending
  {
    hide Roots, Logs, Persisting, Files, Snapshots, PreparedIn, PlannedIn, MergedDocs;
    forall id | id in s.pending ensures id <= s.lastId { assert PendingOk(s, id); }
  }

  lemma AbandonRecorded(s: State, h: History, id: nat)
    requires Follows(s, h) && id in s.pending
    ensures Follows(AbandonIn(s, id), h.(prepared := h.prepared - {id}))
  {
    hide SameWritten;
    SameWrittenKept(s, AbandonIn(s, id), h, h.(prepared := h.prepared - {id}));
  }

  lemma GiveUpMergeRecorded(s: State, h: History)
    requires Inv(s) && Follows(s, h) && Enabled(s, GiveUpMerge)
    ensures Follows(Next(s, GiveUpMerge), h)
  {
    hide Inv, SameWritten;
    MergingIsMerge(s);
    var t := Next(s, GiveUpMerge);
    SameWrittenKept(s, t, h, h);
    BatchesOnly(s, t, h);
  }

  lemma MergingIsMerge(s: State)
    requires Inv(s) && s.persister.Merging?
    ensures s.persister.id in s.pending && s.pending[s.persister.id].PendingMerge?
  {
    hide Roots, Pendings, Logs, Files, Snapshots, SnapOk, InMemory;
  }

  lemma RemoveOrphanRecorded(s: State, h: History, id: nat)
    requires Follows(s, h) && Enabled(s, RemoveOrphan(id))
    ensures Follows(Next(s, RemoveOrphan(id)), Recorded(h, RemoveOrphan(id)))
  {
    hide SameWritten;
    var t := Next(s, RemoveOrphan(id));
    SameWrittenKept(s, t, h, Recorded(h, RemoveOrphan(id)));
  }

  lemma TakeRecorded(s: State, h: History)
    requires Inv(s) && Follows(s, h) && Enabled(s, TakeSnapshot)
    ensures Follows(Next(s, TakeSnapshot), Recorded(h, TakeSnapshot))
  {
    hide Roots, Pendings, Persisting, Files, Snapshots, Holds, SameWritten;
    SameWrittenKept(s, Next(s, TakeSnapshot), h, Recorded(h, TakeSnapshot));
  }

  lemma WriteSegmentRecorded(s: State, h: History, seg: SegmentSnapshot)
    requires Follows(s, h)
    ensures Follows(WriteSegmentIn(s, seg), Recorded(h, WriteSegment(seg)))
  {
    hide SameWritten;
    SameWrittenKept(s, WriteSegmentIn(s, seg), h, Recorded(h, WriteSegment(seg)));
  }

  lemma WriteSnapshotRecorded(s: State, h: History)
    requires Inv(s) && Follows(s, h) && Enabled(s, WriteSnapshot)
    ensures Follows(Next(s, WriteSnapshot), Recorded(h, WriteSnapshot))
  {
    hide Roots, Pendings, Logs, Persisting, Files, Snapshots, Commit, Refs, RefIds;
    var snap := s.persister.snap;
    NewerThanCommitted(s);
    CommitBooks(s.policy, snap.epoch, RefIds(Refs(snap.segment)));
    LiveAfterCommit(s.policy, Commit(s.policy, snap.epoch, RefIds(Refs(snap.segment))), snap.epoch);
  }

  lemma NewerThanCommitted(s: State)
    requires Inv(s) && ReadyToWrite(s)
    ensures s.policy.n >= 1 && s.persister.snap.epoch in s.logAt
  {
    hide Roots, Pendings, Logs, Files, Holds, FilesAgree, Denotes, Ids, Shielded;
  }

  /** The live epochs after a commit are the last of those before and the new one. */
  lemma LiveAfterCommit(p: Policy, q: Policy, epoch: nat)
    requires p.n >= 1 && q.Committed() == p.Committed() + [epoch] && q.n == p.n
    requires |q.liveEpochs| == if |p.liveEpochs| + 1 <= p.n then |p.liveEpochs| + 1 else p.n
    requires |p.liveEpochs| <= p.n && (p.deletableEpochs != [] ==> |p.liveEpochs| == p.n)
    ensures q.deletableEpochs != [] ==> |q.liveEpochs| == q.n
    ensures
      var shift := |p.liveEpochs| + 1 - |q.liveEpochs|;
      forall i :: 0 <= i < |q.liveEpochs| ==>
        q.liveEpochs[i] == if i == |q.liveEpochs| - 1 then epoch else p.liveEpochs[shift + i]
  {
    var a, b := p.Committed() + [epoch], q.Committed();
    forall i | 0 <= i < |q.liveEpochs|
      ensures q.liveEpochs[i] == if i == |q.liveEpochs| - 1 then epoch else p.liveEpochs[|p.liveEpochs| + 1 - |q.liveEpochs| + i]
    {
      assert b[|q.deletableEpochs| + i] == q.liveEpochs[i];
      assert |a| == |b|;
    }
  }

  lemma CleanupRecorded(s: State, h: History, gone: set<nat>, removed: set<nat>)
    requires Inv(s) && Follows(s, h) && Enabled(s, Cleanup(gone, removed))
    ensures Follows(Next(s, Cleanup(gone, removed)), Recorded(h, Cleanup(gone, removed)))
  {
    hide Inv, SameWritten, Without;
    var t := Next(s, Cleanup(gone, removed));
    NothingWithout(gone);
    SameWrittenKept(s, t, h, Recorded(h, Cleanup(gone, removed)));
  }

  lemma NothingWithout(gone: set<nat>)
    ensures DeletionPolicy.Without([], gone) == []
  {
  }

  // ---------------------------------------------------------------- stopping and reopening

  lemma {:induction false} LoadedLive(n: nat, snapshots: map<nat, seq<SegmentRef>>, epochs: set<nat>)
    requires epochs <= snapshots.Keys
    ensures
      var p := LoadPolicy(n, snapshots, epochs);
      p.n == n && |p.liveEpochs| == if |p.Committed()| <= n then |p.Committed()| else n
  {
    hide Commit, RefIds;
    if epochs != {} {
      var e := Max(epochs);
      LoadedLive(n, snapshots, epochs - {e});
      CommitBooks(LoadPolicy(n, snapshots, epochs - {e}), e, RefIds(snapshots[e]));
    }
  }

  lemma {:induction false} OneAscending(a: seq<nat>, b: seq<nat>)
    requires Ascending(a) && Ascending(b) && Elements(a) == Elements(b)
    ensures a == b
  {
    hide Ascending, Elements;
    HasElements(a);
    HasElements(b);
    if a != [] {
      LastIsGreatest(a);
      LastIsGreatest(b);
      InitElements(a);
      InitElements(b);
      OneAscending(a[..|a| - 1], b[..|b| - 1]);
      assert a == a[..|a| - 1] + [a[|a| - 1]] && b == b[..|b| - 1] + [b[|b| - 1]];
    }
  }

  lemma LastIsGreatest(a: seq<nat>)
    requires Ascending(a) && a != []
    ensures a[|a| - 1] in Elements(a) && forall x :: x in Elements(a) ==> x <= a[|a| - 1]
  {
  }

  lemma HasElements(a: seq<nat>)
    ensures a == [] <==> Elements(a) == {}
  {
    assert a == [] || a[0] in Elements(a);
  }

  lemma InitElements(a: seq<nat>)
    requires Ascending(a) && a != []
    ensures Ascending(a[..|a| - 1]) && Elements(a[..|a| - 1]) == Elements(a) - {a[|a| - 1]}
  {
    var init, last := a[..|a| - 1], a[|a| - 1];
    assert a == init + [last];
    forall x ensures x in Elements(init) <==> x in Elements(a) && x != last {
      if x in init { var i :| 0 <= i < |init| && init[i] == x; assert a[i] < a[|a| - 1]; }
    }
  }

  /** Reopening finds the snapshots the policy knew of, and the same of them live. */
  lemma SameLive(s: State)
    requires Inv(s) && (s.policy.deletableEpochs != [] ==> |s.policy.liveEpochs| == s.policy.n)
    ensures
      var q := LoadPolicy(s.policy.n, s.disk.snapshots, s.disk.snapshots.Keys);
      q.liveEpochs == s.policy.liveEpochs && q.deletableEpochs == s.policy.deletableEpochs && q.n == s.policy.n
  {
    hide Roots, Pendings, Logs, Persisting, Files, Denotes, Shielded, LoadPolicy, Ascending, Elements, RefIds;
    var p, q := s.policy, LoadPolicy(s.policy.n, s.disk.snapshots, s.disk.snapshots.Keys);
    OpenPolicy(p.n, s.disk);
    LoadedLive(p.n, s.disk.snapshots, s.disk.snapshots.Keys);
    OneAscending(p.Committed(), q.Committed());
    assert p.Committed()[|p.deletableEpochs|..] == p.liveEpochs && p.Committed()[..|p.deletableEpochs|] == p.deletableEpochs;
    assert q.Committed()[|q.deletableEpochs|..] == q.liveEpochs && q.Committed()[..|q.deletableEpochs|] == q.deletableEpochs;
  }

  lemma StopRecorded(s: State, h: History)
    requires Inv(s) && Follows(s, h)
    ensures Follows(CrashIn(s), Stopped(h))
  {
    hide Inv, LoadPolicy, Loaded, DiskOk, MakeSnapshot, SameWritten;
    StopWritten(s, h);
    NewestWritten(s, h);
    assert s.disk.segments == map[] <==> s.disk.segments.Keys == {};
  }

  /** The newest snapshot on disk is the last one written. */
  lemma NewestWritten(s: State, h: History)
    requires Inv(s) && SameWritten(s, h)
    ensures h.written == [] <==> s.disk.snapshots == map[]
    ensures s.disk.snapshots != map[] ==>
      var e := Max(s.disk.snapshots.Keys);
      e in s.logAt && s.logAt[e] <= |s.log| && h.written[|h.written| - 1] == s.logAt[e]
  {
    hide Roots, Pendings, Logs, Persisting, Files, Snapshots, DiskOk;
    SnapshotsOf(s);
    NewestIsLast(s);
    DiskSurvives(s);
    KeepsSome(s);
    if s.disk.snapshots != map[] { DiskParts(s.disk, s.log, s.logAt, s.acked); }
  }

  lemma SnapshotsOf(s: State)
    requires Inv(s)
    ensures Snapshots(s)
  {
  }

  lemma StopWritten(s: State, h: History)
    requires Inv(s) && SameWritten(s, h)
    ensures SameWritten(CrashIn(s), Stopped(h))
  {
    hide Inv, LoadPolicy, Loaded, MakeSnapshot;
    SameLive(s);
    NewestWritten(s, h);
    LiveAreOnDisk(s);
    var t := CrashIn(s);
    assert forall e :: e in s.policy.liveEpochs && e in s.logAt ==> e in t.logAt && t.logAt[e] == s.logAt[e];
  }

  lemma KeepsSome(s: State)
    requires Inv(s)
    ensures s.policy.n >= 1 && (s.policy.liveEpochs == [] ==> s.policy.deletableEpochs == [])
  {
    hide Roots, Pendings, Logs, Persisting, Files, Denotes, Shielded;
  }

  /** The snapshots that live are on disk, none newer than the newest. */
  lemma LiveAreOnDisk(s: State)
    requires Inv(s)
    ensures forall e :: e in s.policy.liveEpochs ==> e in s.disk.snapshots && e <= Max(s.disk.snapshots.Keys)
  {
    hide Roots, Pendings, Logs, Persisting, Files, Denotes, Shielded, RefIds;
    forall e | e in s.policy.liveEpochs ensures e in s.disk.snapshots && e <= Max(s.disk.snapshots.Keys) {
      assert e in s.policy.Committed() && e in Elements(s.policy.Committed());
    }
  }

  // ---------------------------------------------------------------- runs

  lemma StepRecorded(s: State, h: History, ev: Event)
    requires Inv(s) && Follows(s, h) && Enabled(s, ev)
    ensures Follows(Next(s, ev), Recorded(h, ev))
  {
    hide Inv, Follows, MayClean;
    match ev
    case PrepareBatch(_, _, _) => PrepareRecorded(s, h, ev);
    case IntroduceBatch(id) => IntroduceRecorded(s, h, id);
    case PlanMerge(_, _) => PlanRecorded(s, h, ev);
    case IntroduceMerge(id) => IdMatches(s, id); MergeRecorded(s, h, s.pending[id].merge);
    case Abandon(id) => AbandonRecorded(s, h, id);
    case RemoveOrphan(id) => RemoveOrphanRecorded(s, h, id);
    case TakeSnapshot => TakeRecorded(s, h);
    case PlanMemoryMerge => PlanRecorded(s, h, ev);
    case IntroduceMemoryMerge =>
      IdMatches(s, s.persister.id);
      MemoryMergeRecorded(s, h, s.persister.snap, s.pending[s.persister.id].merge);
    case GiveUpMerge => GiveUpMergeRecorded(s, h);
    case WriteSegment(seg) => WriteSegmentRecorded(s, h, seg);
    case SwapIn => SwapRecorded(s, h, s.persister.snap);
    case WriteSnapshot => WriteSnapshotRecorded(s, h);
    case GiveUp => GiveUpRecorded(s, h);
    case Cleanup(gone, removed) => CleanupRecorded(s, h, gone, removed);
    case Crash => StopRecorded(s, h);
  }

  lemma GiveUpRecorded(s: State, h: History)
    requires Follows(s, h)
    ensures Follows(s.(persister := Idle), h)
  {
  }

  lemma StartIsTold(n: nat)
    ensures Follows(Initial(n), Told([]))
  {
  }

  lemma {:induction false} RunIsTold(n: nat, events: seq<Event>)
    requires n >= 1 && Run(n, events).Some?
    ensures Inv(Run(n, events).value) && Follows(Run(n, events).value, Told(events))
  {
    hide Inv, Next, Enabled, Initial, Follows, Recorded;
    RunKeepsInv(n, events);
    if events == [] {
      StartIsTold(n);
    } else {
      var init, ev := events[..|events| - 1], events[|events| - 1];
      RunIsTold(n, init);
      StepRecorded(Run(n, init).value, Told(init), ev);
    }
  }

  /** In every run the live documents of the root are those of a plain bag to which the
      batches the events introduced, and a stop did not cut off, are applied in turn. */
  lemma RootIsTheBatches(n: nat, events: seq<Event>)
    requires n >= 1 && Run(n, events).Some?
    ensures RootBag(Run(n, events).value.root.segment) == ApplyAll(Told(events).log)
    ensures Run(n, events).value.log == Told(events).log
  {
    hide Run, Told, Inv, RootBag, ApplyAll, SamePrepared, SameTaken, SameWritten;
    RunIsTold(n, events);
    RootHoldsLog(n, events);
  }

  /** The newest of the snapshots written, as many as are kept, are all on disk, complete,
      and each denotes the batches introduced when it was taken; the batches reported
      persisted are those of the newest. */
  lemma NewestSnapshotsAreKept(n: nat, events: seq<Event>, i: nat) returns (e: nat)
    requires n >= 1 && Run(n, events).Some? && i < n && i < |Told(events).written|
    ensures
      var s, h := Run(n, events).value, Told(events);
      var count := h.written[|h.written| - 1 - i];
      && e in s.disk.snapshots && RefIds(s.disk.snapshots[e]) <= s.disk.segments.Keys && count <= |h.log|
      && RootBag(Loaded(s.disk.segments, s.disk.snapshots[e])) == ApplyAll(h.log[..count])
      && (i == 0 ==> s.acked == count && e == Max(s.disk.snapshots.Keys))
  {
    hide Run, Told, Inv, RootBag, ApplyAll, SamePrepared, SameTaken, Loaded, RefIds;
    RunIsTold(n, events);
    var s, h := Run(n, events).value, Told(events);
    KeptN(n, events);
    var live := s.policy.liveEpochs;
    e := live[|live| - 1 - i];
    LiveAreOnDisk(s);
    SnapshotsInOrder(s);
    SnapshotFilesAreBatches(n, events, e);
  }

  lemma SnapshotsInOrder(s: State)
    requires Inv(s) && s.policy.liveEpochs != []
    ensures Max(s.disk.snapshots.Keys) == Last(s.policy.liveEpochs)
  {
    hide Roots, Pendings, Logs, Persisting, Files;
    NewestIsLast(s);
  }

  lemma {:induction false} KeptN(n: nat, events: seq<Event>)
    requires Run(n, events).Some?
    ensures Run(n, events).value.policy.n == n
  {
    hide Enabled;
    if events == [] {
      LoadedLive(n, map[], {});
    } else {
      var s, ev := Run(n, events[..|events| - 1]).value, events[|events| - 1];
      KeptN(n, events[..|events| - 1]);
      StepKeepsN(s, ev);
    }
  }

  lemma StepKeepsN(s: State, ev: Event)
    requires Enabled(s, ev)
    ensures Next(s, ev).policy.n == s.policy.n
  {
    hide SegmentRoot, MergeRoot, PersistRoot, Skips, InMemory, Equivalent, Without, Prepare, Ids, MayClean, Offsets, LoadPolicy;
    LoadedLive(s.policy.n, s.disk.snapshots, s.disk.snapshots.Keys);
  }
}
