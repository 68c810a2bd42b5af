/** What every reachable state of the text index keeps, and the theorems that follow. */
module IndexSafety {
  import opened Basics
  import opened Segments
  import opened Introducer
  import opened LiveDocuments
  import opened DeletionPolicy
  import opened IndexProtocol

  // ---------------------------------------------------------------- the invariant

  ghost predicate PreparedIn(past: set<Snapshot>, next: Introduction) {
    && (next.data.Some? ==> next.data.value != [])
    && exists h :: h in past && next == Prepare(h.segment, next.id, next.data, next.idTerms)
  }

  ghost predicate PlannedIn(past: set<Snapshot>, m: Merge) {
    && m.empties == {} && DistinctIds(m.sources)
    && exists h :: h in past && forall q :: q in m.sources ==> q in h.segment
  }

  ghost predicate FilesAgree(segs: seq<SegmentSnapshot>, files: map<nat, seq<Doc>>) {
    forall q :: q in segs ==>
      (q.persisted ==> q.id in files) && (q.id in files ==> files[q.id] == q.docs)
  }

  ghost predicate Roots(s: State) {
    && s.root in s.past
    && s.root.epoch < s.nextEpoch
    && forall h :: h in s.past ==>
      && WellFormedRoot(h.segment) && Older(h.segment, s.root.segment)
      && h.offsets == Offsets(h.segment)
      && forall x :: x in Ids(h.segment) ==> x <= s.lastId && x !in s.pending
  }

  ghost predicate PendingOk(s: State, id: nat)
    requires id in s.pending
  {
    && id <= s.lastId && id !in s.policy.known
    && match s.pending[id]
       case PendingBatch(next) => next.id == id && PreparedIn(s.past, next) && id !in s.disk.segments
       case PendingMerge(m) =>
         m.id == id && PlannedIn(s.past, m) &&
         (if m.sources == [] then id !in s.disk.segments
          else id in s.disk.segments && s.disk.segments[id] == MergedDocs(m.sources))
       case Orphan => true
  }

  ghost predicate Pendings(s: State) {
    forall id :: id in s.pending ==> PendingOk(s, id)
  }

  /** The first k introduced batches. */
  ghost predicate Holds(segs: seq<SegmentSnapshot>, log: seq<Batch>, k: nat) {
    k <= |log| && WellFormedRoot(segs) && RootBag(segs) == ApplyAll(log[..k])
  }

  ghost predicate Logs(s: State) {
    && s.root.epoch in s.logAt && s.logAt[s.root.epoch] == |s.log|
    && Holds(s.root.segment, s.log, |s.log|)
    && (forall e :: e in s.logAt ==> e <= s.root.epoch && s.logAt[e] <= |s.log|)
    && (forall e, f :: e in s.logAt && f in s.logAt && e <= f ==> s.logAt[e] <= s.logAt[f])
  }

  /** The files the policy knows of and the root uses are all in this snapshot. */
  ghost predicate Shielded(known: set<nat>, used: set<nat>, shield: set<nat>) {
    forall x :: x in known && x in used ==> x in shield
  }

  ghost predicate SnapOk(s: State, snap: Snapshot) {
    && s.lastPersisted < snap.epoch && snap.epoch in s.logAt
    && Holds(snap.segment, s.log, s.logAt[snap.epoch])
    && FilesAgree(snap.segment, s.disk.segments)
    && (forall x :: x in Ids(snap.segment) ==> x <= s.lastId && x !in s.pending)
    && Shielded(s.policy.known, Ids(s.root.segment), Ids(snap.segment))
  }

  ghost predicate Persisting(s: State) {
    match s.persister
    case Idle => true
    case Merging(snap, id) =>
      && SnapOk(s, snap) && snap in s.past && id in s.pending
      && s.pending[id] == PendingMerge(Merge(id, InMemory(snap.segment), {}))
      && InMemory(snap.segment) != []
    case Writing(snap) => SnapOk(s, snap) && (InMemory(snap.segment) != [] ==> snap in s.past)
    case Swapped(snap) => SnapOk(s, snap) && Ids(snap.segment) <= s.disk.segments.Keys
  }

  ghost predicate Files(s: State) {
    && FilesAgree(s.root.segment, s.disk.segments)
    && (forall x :: x in s.disk.segments ==> x <= s.lastId)
    && (forall x :: x in s.policy.known ==> x <= s.lastId)
  }

  /** The snapshot file of an epoch denotes the documents its root had. */
  ghost predicate Denotes(s: State, e: nat)
    requires e in s.disk.snapshots
  {
    e in s.logAt && Holds(Loaded(s.disk.segments, s.disk.snapshots[e]), s.log, s.logAt[e])
  }

  ghost predicate Snapshots(s: State) {
    && s.policy.n >= 1 && s.policy.Valid() && Covers(s.policy, s.disk) && Complete(s.disk)
    && (forall e :: e in s.disk.snapshots ==> Denotes(s, e))
    && (forall e :: e in s.policy.Committed() ==> e <= s.lastPersisted)
    && (s.policy.liveEpochs == [] ==> s.policy.deletableEpochs == [] && s.acked == 0)
    && (s.policy.liveEpochs != [] ==>
          && Last(s.policy.liveEpochs) in s.logAt && s.acked <= s.logAt[Last(s.policy.liveEpochs)]
          && Shielded(s.policy.known, Ids(s.root.segment), s.policy.liveSegments[Last(s.policy.liveEpochs)]))
    && (s.policy.liveEpochs == [] ==> Shielded(s.policy.known, Ids(s.root.segment), {}))
  }

  ghost predicate Inv(s: State) {
    Roots(s) && Pendings(s) && Logs(s) && Persisting(s) && Files(s) && Snapshots(s)
  }

  // ---------------------------------------------------------------- replacing the root

  /** A new root holds only segments of the old one, with at least their deletions,
      and the segments just introduced. */
  ghost predicate Advances(from: seq<SegmentSnapshot>, to: seq<SegmentSnapshot>, introduced: set<nat>) {
    forall q :: q in to && q.id !in introduced ==>
      exists p :: p in from && p.id == q.id && p.docs == q.docs && p.deleted <= q.deleted
  }

  lemma AdvancesIds(from: seq<SegmentSnapshot>, to: seq<SegmentSnapshot>, introduced: set<nat>)
    requires Advances(from, to, introduced)
    ensures Ids(to) <= Ids(from) + introduced
  {
    forall q | q in to ensures q.id in Ids(from) + introduced {
      if q.id !in introduced {
        var p :| p in from && p.id == q.id && p.docs == q.docs && p.deleted <= q.deleted;
      }
    }
  }

  lemma OlderAdvances(past: seq<SegmentSnapshot>, from: seq<SegmentSnapshot>, to: seq<SegmentSnapshot>, introduced: set<nat>)
    requires Older(past, from) && Advances(from, to, introduced) && Ids(past) !! introduced
    ensures Older(past, to)
  {
    forall p, q | p in past && q in to && p.id == q.id ensures p.docs == q.docs && p.deleted <= q.deleted {
      assert p.id in Ids(past) && OlderThan(p, from);
      var r :| r in from && r.id == q.id && r.docs == q.docs && r.deleted <= q.deleted;
    }
  }

  lemma HoldsLonger(segs: seq<SegmentSnapshot>, log: seq<Batch>, log': seq<Batch>, k: nat)
    requires Holds(segs, log, k) && log <= log'
    ensures Holds(segs, log', k)
  {
    assert log[..k] == log'[..k];
  }

  lemma OlderRefl(segs: seq<SegmentSnapshot>)
    requires DistinctIds(segs)
    ensures Older(segs, segs)
  {
  }

  lemma ReplaceKeepsRoots(s: State, segs: seq<SegmentSnapshot>, log: seq<Batch>, gone: set<nat>)
    requires Inv(s) && gone <= s.pending.Keys
    requires WellFormedRoot(segs) && Advances(s.root.segment, segs, gone)
    ensures Roots(Replace(s, segs, log, gone)) && Pendings(Replace(s, segs, log, gone))
  {
    var t := Replace(s, segs, log, gone);
    OlderRefl(segs);
    AdvancesIds(s.root.segment, segs, gone);
    forall h | h in s.past ensures Older(h.segment, segs) {
      assert Ids(h.segment) !! gone;
      OlderAdvances(h.segment, s.root.segment, segs, gone);
    }
    forall x | x in Ids(segs) ensures x <= t.lastId && x !in t.pending {
      if x in gone { assert PendingOk(s, x); }
    }
    forall id | id in t.pending ensures PendingOk(t, id) {
      assert PendingOk(s, id);
    }
  }

  lemma KnownShrinks(s: State, segs: seq<SegmentSnapshot>, gone: set<nat>)
    requires Pendings(s) && gone <= s.pending.Keys && Advances(s.root.segment, segs, gone)
    ensures forall x :: x in s.policy.known && x in Ids(segs) ==> x in Ids(s.root.segment)
  {
    AdvancesIds(s.root.segment, segs, gone);
    forall x | x in gone ensures x !in s.policy.known {
      assert PendingOk(s, x);
    }
  }

  lemma ReplaceKeepsPersisting(s: State, segs: seq<SegmentSnapshot>, log: seq<Batch>, gone: set<nat>)
    requires Inv(s) && gone <= s.pending.Keys
    requires Advances(s.root.segment, segs, gone)
    requires s.log <= log
    requires s.persister.Merging? ==> s.persister.id !in gone
    ensures Persisting(Replace(s, segs, log, gone))
  {
    var t := Replace(s, segs, log, gone);
    KnownShrinks(s, segs, gone);
    if !s.persister.Idle? {
      var snap := s.persister.snap;
      HoldsLonger(snap.segment, s.log, log, s.logAt[snap.epoch]);
      assert SnapOk(t, snap);
    }
  }

  lemma ReplaceKeepsSnapshots(s: State, segs: seq<SegmentSnapshot>, log: seq<Batch>, gone: set<nat>)
    requires Inv(s) && gone <= s.pending.Keys
    requires Advances(s.root.segment, segs, gone)
    requires s.log <= log
    ensures Snapshots(Replace(s, segs, log, gone))
  {
    var t := Replace(s, segs, log, gone);
    KnownShrinks(s, segs, gone);
    forall e | e in s.disk.snapshots ensures Denotes(t, e) {
      assert Denotes(s, e);
      HoldsLonger(Loaded(s.disk.segments, s.disk.snapshots[e]), s.log, log, s.logAt[e]);
    }
  }

  lemma ReplaceKeepsInv(s: State, segs: seq<SegmentSnapshot>, log: seq<Batch>, gone: set<nat>)
    requires Inv(s) && gone <= s.pending.Keys
    requires Advances(s.root.segment, segs, gone)
    requires s.log <= log && Holds(segs, log, |log|)
    requires FilesAgree(segs, s.disk.segments)
    requires s.persister.Merging? ==> s.persister.id !in gone
    ensures Inv(Replace(s, segs, log, gone))
  {
    ReplaceKeepsRoots(s, segs, log, gone);
    ReplaceKeepsPersisting(s, segs, log, gone);
    ReplaceKeepsSnapshots(s, segs, log, gone);
  }

  // ---------------------------------------------------------------- batches

  lemma PrepareBatchStep(s: State, from: Snapshot, docs: seq<Doc>, idTerms: set<Term>)
    requires Inv(s) && from in s.past
    ensures Inv(PrepareIn(s, from, docs, idTerms))
  {
    hide Holds, WellFormedRoot, Older, Loaded, FilesAgree, PlannedIn, PreparedIn, MergedDocs, Snapshots, Prepare, Shielded,
         Ids, Offsets, InMemory;
    var t := PrepareIn(s, from, docs, idTerms);
    var id := s.lastId + 1;
    var next := t.pending[id].next;
    FreshBatch(s.past, from, id, docs, idTerms);
    forall i | i in t.pending ensures PendingOk(t, i) {
      if i != id { assert PendingOk(s, i); }
    }
    NewPendingKeepsSnapshots(s, t);
  }

  lemma FreshBatch(past: set<Snapshot>, from: Snapshot, id: nat, docs: seq<Doc>, idTerms: set<Term>)
    requires from in past
    ensures
      var next := Prepare(from.segment, id, if docs == [] then None else Some(docs), idTerms);
      next.id == id && PreparedIn(past, next)
  {
  }

  lemma NewPendingKeepsSnapshots(s: State, t: State)
    requires Snapshots(s) && t == s.(lastId := t.lastId, pending := t.pending)
    ensures Snapshots(t)
  {
    forall e | e in t.disk.snapshots ensures Denotes(t, e) { assert Denotes(s, e); }
  }

  lemma SurvivorsAdvance(segs: seq<SegmentSnapshot>, next: Introduction)
    requires WellFormedRoot(segs) && ObsoletesAgree(segs, next)
    ensures Advances(segs, SegmentRoot(segs, next), {next.id})
  {
    SurvivorsBag(segs, next);
  }

  lemma SegmentRootFiles(segs: seq<SegmentSnapshot>, next: Introduction, files: map<nat, seq<Doc>>)
    requires WellFormedRoot(segs) && ObsoletesAgree(segs, next)
    requires FilesAgree(segs, files) && next.id !in files
    ensures FilesAgree(SegmentRoot(segs, next), files)
  {
    SurvivorsBag(segs, next);
  }

  lemma IntroducedFacts(s: State, next: Introduction)
    requires Inv(s) && next.id in s.pending && s.pending[next.id] == PendingBatch(next)
    ensures
      var to, log := SegmentRoot(s.root.segment, next), s.log + [next.AsBatch()];
      && Holds(to, log, |log|) && Advances(s.root.segment, to, {next.id}) && FilesAgree(to, s.disk.segments)
  {
    hide *;
    var segs := s.root.segment;
    PendingBatchFacts(s, next);
    BatchIntroduced(segs, next);
    SurvivorsAdvance(segs, next);
    SegmentRootFiles(segs, next, s.disk.segments);
    HoldsOneMore(segs, SegmentRoot(segs, next), s.log, next.AsBatch());
  }

  /** What the invariant says of a batch about to be introduced. */
  lemma PendingBatchFacts(s: State, next: Introduction)
    requires Inv(s) && next.id in s.pending && s.pending[next.id] == PendingBatch(next)
    ensures ObsoletesAgree(s.root.segment, next) && next.id !in Ids(s.root.segment) && next.id !in s.disk.segments
    ensures next.data.Some? ==> next.data.value != []
    ensures WellFormedRoot(s.root.segment) && Holds(s.root.segment, s.log, |s.log|) && FilesAgree(s.root.segment, s.disk.segments)
  {
    hide Prepare, Snapshots, Persisting, Offsets, Ids, FilesAgree, ObsoletesAgree, RootBag, ApplyAll;
    assert PendingOk(s, next.id);
    var h :| h in s.past && next == Prepare(h.segment, next.id, next.data, next.idTerms);
    StalePreparationAgrees(h.segment, s.root.segment, next.id, next.data, next.idTerms);
  }

  lemma HoldsOneMore(from: seq<SegmentSnapshot>, to: seq<SegmentSnapshot>, log: seq<Batch>, b: Batch)
    requires Holds(from, log, |log|) && WellFormedRoot(to) && RootBag(to) == ApplyBatch(RootBag(from), b)
    ensures Holds(to, log + [b], |log + [b]|)
  {
    hide RootBag, ApplyBatch, WellFormedRoot;
    var more := log + [b];
    assert more[..|more| - 1] == log && more[..|more|] == more && log[..|log|] == log;
  }

  lemma IntroduceBatchStep(s: State, next: Introduction)
    requires Inv(s) && next.id in s.pending && s.pending[next.id] == PendingBatch(next)
    ensures Inv(IntroduceBatchIn(s, next))
  {
    hide Inv, Holds, Advances, FilesAgree, SegmentRoot, Replace;
    IntroducedFacts(s, next);
    BatchIsNotMemoryMerge(s, next.id);
    ReplaceKeepsInv(s, SegmentRoot(s.root.segment, next), s.log + [next.AsBatch()], {next.id});
  }

  lemma BatchIsNotMemoryMerge(s: State, id: nat)
    requires Inv(s) && id in s.pending && s.pending[id].PendingBatch?
    ensures OtherMerge(s, id)
  {
  }

  // ---------------------------------------------------------------- merges

  lemma {:induction false} NonEmptyAll(task: seq<SegmentSnapshot>)
    requires forall q :: q in task ==> q.LiveSize() > 0
    ensures NonEmpty(task) == task
  {
    if task != [] {
      var init, last := task[..|task| - 1], task[|task| - 1];
      assert task == init + [last];
      NonEmptyAll(init);
    }
  }

  lemma NoEmptyIds(task: seq<SegmentSnapshot>)
    requires forall q :: q in task ==> q.LiveSize() > 0
    ensures EmptyIds(task) == {}
  {
  }

  lemma PlanInPendings(s: State, m: Merge)
    requires Roots(s) && Pendings(s) && Files(s) && m.id == s.lastId + 1 && PlannedIn(s.past, m)
    ensures Roots(PlanIn(s, m)) && Pendings(PlanIn(s, m)) && Files(PlanIn(s, m))
  {
    var t := PlanIn(s, m);
    forall i | i in t.pending ensures PendingOk(t, i) {
      if i != m.id { assert PendingOk(s, i); }
    }
    forall q | q in s.root.segment ensures q.id <= s.lastId { assert q.id in Ids(s.root.segment); }
  }

  lemma PlanInSnapshots(s: State, m: Merge)
    requires Snapshots(s) && Files(s) && m.id == s.lastId + 1
    ensures Snapshots(PlanIn(s, m))
  {
    var t := PlanIn(s, m);
    forall e | e in t.disk.snapshots ensures Denotes(t, e) {
      assert Denotes(s, e);
      LoadedSame(s.disk.segments, t.disk.segments, s.disk.snapshots[e]);
    }
  }

  lemma PlanInPersisting(s: State, m: Merge)
    requires Persisting(s) && Pendings(s) && m.id == s.lastId + 1
    ensures Persisting(PlanIn(s, m))
  {
    hide Holds, MergedDocs, InMemory, Shielded, PlannedIn, PreparedIn;
    if s.persister.Merging? { assert PendingOk(s, s.persister.id); }
    if !s.persister.Idle? {
      var snap := s.persister.snap;
      forall q | q in snap.segment ensures q.id <= s.lastId { assert q.id in Ids(snap.segment); }
      assert SnapOk(PlanIn(s, m), snap);
    }
  }

  /** Planning keeps the invariant, for sources taken from any past root. */
  lemma PlanInStep(s: State, m: Merge)
    requires Inv(s) && m.id == s.lastId + 1 && PlannedIn(s.past, m)
    ensures Inv(PlanIn(s, m))
  {
    hide Roots, Pendings, Persisting, Files, Snapshots, Holds, PlannedIn, MergedDocs;
    PlanInPendings(s, m);
    PlanInSnapshots(s, m);
    PlanInPersisting(s, m);
    PlanInLogs(s, m);
  }

  lemma PlanInLogs(s: State, m: Merge)
    requires Logs(s)
    ensures Logs(PlanIn(s, m))
  {
  }

  /** A snapshot file reads the same while the segment files it lists do not change. */
  lemma LoadedSame(files: map<nat, seq<Doc>>, files': map<nat, seq<Doc>>, refs: seq<SegmentRef>)
    requires forall id :: id in RefIds(refs) && id in files ==> id in files' && files'[id] == files[id]
    requires RefIds(refs) <= files.Keys
    ensures Loaded(files', refs) == Loaded(files, refs)
  {
    forall i | 0 <= i < |refs| ensures Loaded(files', refs)[i] == Loaded(files, refs)[i] {
      assert refs[i] in refs && refs[i].id in RefIds(refs);
    }
  }

  /** Roots hold no segment without live documents, so a task never lists one. */
  lemma TaskIsPlanned(s: State, from: Snapshot, task: seq<SegmentSnapshot>)
    requires Roots(s) && from in s.past && DistinctIds(task)
    requires forall q :: q in task ==> q in from.segment
    ensures PlannedIn(s.past, Merge(s.lastId + 1, NonEmpty(task), EmptyIds(task)))
  {
    assert forall q :: q in task ==> q.LiveSize() > 0;
    NonEmptyAll(task);
    NoEmptyIds(task);
  }

  lemma PlanMergeStep(s: State, from: Snapshot, task: seq<SegmentSnapshot>)
    requires Inv(s) && from in s.past && DistinctIds(task)
    requires forall q :: q in task ==> q in from.segment
    ensures Inv(PlanIn(s, Merge(s.lastId + 1, NonEmpty(task), EmptyIds(task))))
  {
    TaskIsPlanned(s, from, task);
    hide Inv, PlannedIn, PlanIn, NonEmpty, EmptyIds;
    PlanInStep(s, Merge(s.lastId + 1, NonEmpty(task), EmptyIds(task)));
  }

  lemma PlannedMergeIsGood(s: State, m: Merge)
    requires Inv(s) && m.id in s.pending && s.pending[m.id] == PendingMerge(m)
    ensures PlannedFrom(m.sources, {}, m.Old(), m.Nums(), m.Merged())
    ensures Older(m.sources, s.root.segment)
    ensures m.empties == {} && m.id !in Ids(s.root.segment)
  {
    assert PendingOk(s, m.id);
    var h :| h in s.past && forall q :: q in m.sources ==> q in h.segment;
    assert Older(h.segment, s.root.segment);
  }

  lemma MergeRootAdvances(segs: seq<SegmentSnapshot>, m: Merge)
    requires DistinctIds(segs)
    ensures Advances(segs, MergeRoot(segs, m.id, m.Old(), m.Nums(), m.Merged()), {m.id})
  {
    StayingFacts(segs, m.Old().Keys);
  }

  lemma MergeRootFiles(segs: seq<SegmentSnapshot>, m: Merge, files: map<nat, seq<Doc>>)
    requires DistinctIds(segs) && FilesAgree(segs, files)
    requires m.sources != [] ==> m.id in files && files[m.id] == MergedDocs(m.sources)
    ensures FilesAgree(MergeRoot(segs, m.id, m.Old(), m.Nums(), m.Merged()), files)
  {
    StayingFacts(segs, m.Old().Keys);
  }

  lemma MergeRootFacts(s: State, m: Merge)
    requires Inv(s) && m.id in s.pending && s.pending[m.id] == PendingMerge(m)
    ensures
      var to := MergeRoot(s.root.segment, m.id, m.Old(), m.Nums(), m.Merged());
      && Holds(to, s.log, |s.log|) && Advances(s.root.segment, to, {m.id}) && FilesAgree(to, s.disk.segments)
  {
    PlannedMergeIsGood(s, m);
    assert PendingOk(s, m.id);
    MergeIntroduced(s.root.segment, m.id, m.sources, {}, m.Old(), m.Nums(), m.Merged());
    MergeRootAdvances(s.root.segment, m);
    MergeRootFiles(s.root.segment, m, s.disk.segments);
  }

  /** Introducing a merge keeps the log as it is: the documents are the same. */
  lemma ReplaceByMerge(s: State, m: Merge)
    requires Inv(s) && m.id in s.pending && s.pending[m.id] == PendingMerge(m)
    requires s.persister.Merging? ==> s.persister.id != m.id
    ensures Inv(Replace(s, MergeRoot(s.root.segment, m.id, m.Old(), m.Nums(), m.Merged()), s.log, {m.id}))
  {
    hide MergeRoot, Holds, Advances, FilesAgree, Inv, Replace;
    var to := MergeRoot(s.root.segment, m.id, m.Old(), m.Nums(), m.Merged());
    MergeRootFacts(s, m);
    ReplaceKeepsInv(s, to, s.log, {m.id});
  }

  lemma SkippedLeavesNoId(s: State, m: Merge)
    requires Inv(s) && m.id in s.pending && s.pending[m.id] == PendingMerge(m) && Skips(s, m)
    ensures m.id !in Ids(MergeRoot(s.root.segment, m.id, m.Old(), m.Nums(), m.Merged()))
  {
    PlannedMergeIsGood(s, m);
    StayingFacts(s.root.segment, m.Old().Keys);
    var staying := Staying(s.root.segment, m.Old().Keys);
    assert staying + [] == staying;
  }

  lemma IntroduceMergeInKeeps(s: State, m: Merge)
    requires Inv(s) && m.id in s.pending && s.pending[m.id] == PendingMerge(m)
    requires s.persister.Merging? ==> s.persister.id != m.id
    ensures Inv(IntroduceMergeIn(s, m))
  {
    hide Inv, Skips, MergeRoot, MakeSnapshot, Ids;
    ReplaceByMerge(s, m);
    if Skips(s, m) {
      var to := MergeRoot(s.root.segment, m.id, m.Old(), m.Nums(), m.Merged());
      SkippedLeavesNoId(s, m);
      FreedId(s, m.id);
      NewRootSegments(s.nextEpoch, to);
      OrphanKeeps(Replace(s, to, s.log, {m.id}), m.id);
    }
  }

  lemma FreedId(s: State, id: nat)
    requires Inv(s) && id in s.pending
    ensures id <= s.lastId && id !in s.policy.known
    ensures forall h :: h in s.past ==> id !in Ids(h.segment)
    ensures !s.persister.Idle? ==> id !in Ids(s.persister.snap.segment)
  {
    hide Logs, Files, Snapshots, Holds, FilesAgree, Ids, WellFormedRoot, Older, Offsets, Shielded, PlannedIn, PreparedIn, InMemory;
    assert PendingOk(s, id);
  }

  lemma NewRootSegments(epoch: nat, segs: seq<SegmentSnapshot>)
    ensures MakeSnapshot(epoch, segs).segment == segs
  {
  }

  /** An id no root and no snapshot being written uses may be kept for its leftover file. */
  lemma OrphanKeeps(t: State, id: nat)
    requires Inv(t) && id !in t.pending && id <= t.lastId && id !in t.policy.known
    requires forall h :: h in t.past ==> id !in Ids(h.segment)
    requires !t.persister.Idle? ==> id !in Ids(t.persister.snap.segment)
    ensures Inv(t.(pending := t.pending[id := Orphan]))
  {
    var u := t.(pending := t.pending[id := Orphan]);
    forall i | i in u.pending ensures PendingOk(u, i) {
      if i != id { assert PendingOk(t, i); }
    }
    if !t.persister.Idle? { assert SnapOk(u, t.persister.snap); }
  }

  lemma PendingIds(s: State, id: nat)
    requires Pendings(s) && id in s.pending
    ensures s.pending[id].PendingBatch? ==> s.pending[id].next.id == id
    ensures s.pending[id].PendingMerge? ==> s.pending[id].merge.id == id
  {
    assert PendingOk(s, id);
  }

  lemma AbandonStep(s: State, id: nat)
    requires Inv(s) && id in s.pending && OtherMerge(s, id)
    ensures Inv(AbandonIn(s, id))
  {
    hide Holds, WellFormedRoot, Older, Loaded, FilesAgree, PlannedIn, PreparedIn, MergedDocs, Snapshots;
    var t := AbandonIn(s, id);
    forall i | i in t.pending ensures PendingOk(t, i) { assert PendingOk(s, i); }
    if !s.persister.Idle? { assert SnapOk(t, s.persister.snap); }
    NewPendingKeepsSnapshots(s, t);
  }

  /** The leftover file of a skipped merge is in no root and in no snapshot file. */
  lemma OrphanFile(s: State, id: nat)
    requires Inv(s) && id in s.pending
    ensures forall q :: q in s.root.segment ==> q.id != id
    ensures !s.persister.Idle? ==> forall q :: q in s.persister.snap.segment ==> q.id != id
    ensures forall e :: e in s.disk.snapshots ==> id !in RefIds(s.disk.snapshots[e])
  {
    FreedId(s, id);
    forall q | q in s.root.segment ensures q.id != id { assert q.id in Ids(s.root.segment); }
    if !s.persister.Idle? {
      forall q | q in s.persister.snap.segment ensures q.id != id { assert q.id in Ids(s.persister.snap.segment); }
    }
    forall e | e in s.disk.snapshots ensures id !in RefIds(s.disk.snapshots[e]) {
      assert s.policy.liveSegments[e] <= s.policy.known;
    }
  }

  lemma OrphanSnapshots(s: State, id: nat)
    requires Inv(s) && id in s.pending && s.pending[id].Orphan?
    ensures Snapshots(RemoveOrphanIn(s, id))
  {
    hide Holds, Roots, Pendings, Files;
    OrphanFile(s, id);
    var t := RemoveOrphanIn(s, id);
    forall e | e in t.disk.snapshots ensures Denotes(t, e) {
      assert Denotes(s, e);
      LoadedSame(s.disk.segments - {id}, s.disk.segments, s.disk.snapshots[e]);
    }
  }

  lemma RemoveOrphanStep(s: State, id: nat)
    requires Inv(s) && id in s.pending && s.pending[id].Orphan?
    ensures Inv(RemoveOrphanIn(s, id))
  {
    hide Holds, WellFormedRoot, Older, Loaded, PlannedIn, PreparedIn, MergedDocs, Snapshots;
    var t := RemoveOrphanIn(s, id);
    OrphanFile(s, id);
    OrphanSnapshots(s, id);
    forall i | i in t.pending ensures PendingOk(t, i) { assert PendingOk(s, i); }
    if !s.persister.Idle? { assert SnapOk(t, s.persister.snap); }
  }

  // ---------------------------------------------------------------- the persister

  lemma TakeSnapshotStep(s: State)
    requires Inv(s) && s.root.epoch > s.lastPersisted
    ensures Inv(s.(persister := Writing(s.root)))
  {
    var t := s.(persister := Writing(s.root));
    SameButPersister(s, t);
    assert s.root in s.past;
    assert SnapOk(t, s.root);
  }

  lemma SameButPersister(s: State, t: State)
    requires Inv(s) && t == s.(persister := t.persister)
    ensures Roots(t) && Pendings(t) && Logs(t) && Files(t) && Snapshots(t)
  {
    forall i | i in t.pending ensures PendingOk(t, i) { assert PendingOk(s, i); }
    forall e | e in t.disk.snapshots ensures Denotes(t, e) { assert Denotes(s, e); }
  }

  lemma {:induction false} MemoryAndDisk(segs: seq<SegmentSnapshot>)
    ensures RootBag(segs) == RootBag(OnDisk(segs)) + RootBag(InMemory(segs))
  {
    if segs != [] {
      var init, last := segs[..|segs| - 1], segs[|segs| - 1];
      var a, b, one := RootBag(OnDisk(init)), RootBag(InMemory(init)), SegBag(last);
      calc {
        RootBag(segs);
        RootBag(init) + one;
        { MemoryAndDisk(init); }
        (a + b) + one;
        { Regroup(a, b, one); }
        (a + if last.persisted then one else multiset{}) + (b + if !last.persisted then one else multiset{});
        { RootBagSnocIf(OnDisk(init), last.persisted, last); RootBagSnocIf(InMemory(init), !last.persisted, last); }
        RootBag(OnDisk(segs)) + RootBag(InMemory(segs));
      }
    }
  }

  lemma {:induction false} MemoryAndDiskMembers(segs: seq<SegmentSnapshot>)
    requires DistinctIds(segs)
    ensures forall q :: q in InMemory(segs) <==> q in segs && !q.persisted
    ensures forall q :: q in OnDisk(segs) <==> q in segs && q.persisted
    ensures DistinctIds(InMemory(segs)) && DistinctIds(OnDisk(segs))
  {
    if segs != [] {
      var init, last := segs[..|segs| - 1], segs[|segs| - 1];
      MemoryAndDiskMembers(init);
      assert segs == init + [last];
      assert forall q :: q in init ==> q.id != last.id;
    }
  }

  lemma PlanMemoryMergeStep(s: State, snap: Snapshot)
    requires Inv(s) && s.persister == Writing(snap) && InMemory(snap.segment) != []
    ensures Inv(PlanMemoryMergeIn(s, snap))
  {
    hide Inv, PlannedIn, PlanIn, SnapOk, InMemory;
    var m := Merge(s.lastId + 1, InMemory(snap.segment), {});
    MemoryMergeIsPlanned(s, snap);
    PlanInStep(s, m);
    PlannedFields(s, m);
    BeginMerging(PlanIn(s, m), snap, m.id);
  }

  lemma MemoryMergeIsPlanned(s: State, snap: Snapshot)
    requires Inv(s) && s.persister == Writing(snap) && InMemory(snap.segment) != []
    ensures PlannedIn(s.past, Merge(s.lastId + 1, InMemory(snap.segment), {})) && snap in s.past
  {
    MemoryAndDiskMembers(snap.segment);
    assert snap in s.past;
  }

  lemma PlannedFields(s: State, m: Merge)
    ensures
      var t := PlanIn(s, m);
      t.past == s.past && t.persister == s.persister && m.id in t.pending && t.pending[m.id] == PendingMerge(m)
  {
  }

  lemma BeginMerging(t: State, snap: Snapshot, id: nat)
    requires Inv(t) && t.persister == Writing(snap) && snap in t.past && InMemory(snap.segment) != []
    requires id in t.pending && t.pending[id] == PendingMerge(Merge(id, InMemory(snap.segment), {}))
    ensures Inv(t.(persister := Merging(snap, id)))
  {
    hide Roots, Pendings, Logs, Files, Snapshots, Holds, FilesAgree;
    SameButPersister(t, t.(persister := Merging(snap, id)));
  }

  /** The equivalent snapshot has the documents of the snapshot the persister took. */
  lemma EquivalentHolds(s: State, snap: Snapshot, id: nat)
    requires SnapOk(s, snap) && InMemory(snap.segment) != [] && id !in Ids(snap.segment)
    ensures Holds(Equivalent(snap, id).segment, s.log, s.logAt[snap.epoch])
    ensures Equivalent(snap, id).epoch == snap.epoch
    ensures Ids(Equivalent(snap, id).segment) == Ids(OnDisk(snap.segment)) + {id}
    ensures Ids(snap.segment) == Ids(OnDisk(snap.segment)) + Ids(InMemory(snap.segment))
    ensures InMemory(Equivalent(snap, id).segment) == []
  {
    var mem, disk := InMemory(snap.segment), OnDisk(snap.segment);
    MemoryAndDiskMembers(snap.segment);
    MemoryAndDisk(snap.segment);
    var added := SegmentSnapshot(id, MergedDocs(mem), true, {});
    MemoryAndDiskIds(snap.segment);
    MergedBagUnmasked(mem);
    SomethingLive(mem);
    assert id !in Ids(disk);
    SnocWellFormed(disk, added);
    RootBagSnoc(disk, added);
    InMemoryNone(disk + [added]);
  }

  lemma SomethingLive(segs: seq<SegmentSnapshot>)
    requires segs != [] && forall q :: q in segs ==> q.WellFormed() && q.LiveSize() > 0
    ensures |RootBag(segs)| > 0
  {
    var last := segs[|segs| - 1];
    assert last in segs;
    NothingLive(last);
  }

  lemma {:induction false} InMemoryNone(segs: seq<SegmentSnapshot>)
    requires forall q :: q in segs ==> q.persisted
    ensures InMemory(segs) == []
  {
    if segs != [] {
      assert forall q :: q in segs[..|segs| - 1] ==> q in segs;
      InMemoryNone(segs[..|segs| - 1]);
    }
  }

  lemma SkippedMemoryMergeStep(s: State, snap: Snapshot, m: Merge)
    requires Inv(s) && s.persister == Merging(snap, m.id) && m.id in s.pending && s.pending[m.id] == PendingMerge(m)
    ensures Inv(IntroduceMergeIn(s, m).(persister := Writing(snap)))
  {
    hide Inv, IntroduceMergeIn;
    var t := s.(persister := Writing(snap));
    WritingAgain(s, snap, m.id);
    IntroduceMergeInKeeps(t, m);
    IntroduceIgnoresPersister(s, t, m);
  }

  lemma IntroduceIgnoresPersister(s: State, t: State, m: Merge)
    requires t == s.(persister := t.persister)
    ensures IntroduceMergeIn(t, m) == IntroduceMergeIn(s, m).(persister := t.persister)
  {
    hide MergeRoot, LateNumbers, MergeSkipped;
  }

  lemma WritingAgain(s: State, snap: Snapshot, id: nat)
    requires Inv(s) && s.persister == Merging(snap, id)
    ensures Inv(s.(persister := Writing(snap))) && Inv(s.(persister := Idle))
  {
    SameButPersister(s, s.(persister := Writing(snap)));
    SameButPersister(s, s.(persister := Idle));
    assert SnapOk(s.(persister := Writing(snap)), snap) by { assert SnapOk(s, snap); }
  }

  lemma MergedIdsLeave(s: State, m: Merge)
    requires Inv(s) && m.id in s.pending && s.pending[m.id] == PendingMerge(m)
    ensures Ids(MergeRoot(s.root.segment, m.id, m.Old(), m.Nums(), m.Merged()))
         <= Ids(s.root.segment) - Ids(m.sources) + {m.id}
  {
    PlannedMergeIsGood(s, m);
    OldMapAt(m.sources);
    MergeIntroduced(s.root.segment, m.id, m.sources, {}, m.Old(), m.Nums(), m.Merged());
  }

  lemma DoneMemoryMergeStep(s: State, snap: Snapshot, m: Merge)
    requires Inv(s) && s.persister == Merging(snap, m.id) && m.id in s.pending && s.pending[m.id] == PendingMerge(m)
    requires !Skips(s, m)
    ensures Inv(IntroduceMergeIn(s, m).(persister := Writing(Equivalent(snap, m.id))))
  {
    hide Inv, MergeRoot, Equivalent, SnapOk, IntroduceMergeIn, Skips, InMemory, MergedDocs, Ids;
    var s0 := s.(persister := Idle);
    WritingAgain(s, snap, m.id);
    MemoryMergeFacts(s, snap, m);
    MergedIdsLeave(s, m);
    IntroducedFields(s, s0, m);
    IntroduceMergeInKeeps(s0, m);
    EquivalentHolds(s, snap, m.id);
    EquivalentSnapOk(s, snap, m, IntroduceMergeIn(s0, m));
    BeginWriting(IntroduceMergeIn(s0, m), Equivalent(snap, m.id));
  }

  lemma IntroducedFields(s: State, s0: State, m: Merge)
    requires s0 == s.(persister := Idle) && !Skips(s, m)
    ensures
      var t := IntroduceMergeIn(s0, m);
      && IntroduceMergeIn(s, m) == t.(persister := s.persister)
      && t.persister == Idle && t.lastPersisted == s.lastPersisted && t.disk == s.disk && t.policy == s.policy
      && t.lastId == s.lastId && t.log == s.log && t.logAt == s.logAt[s.nextEpoch := |s.log|]
      && t.pending == s.pending - {m.id}
      && t.root.segment == MergeRoot(s.root.segment, m.id, m.Old(), m.Nums(), m.Merged())
  {
    hide MergeRoot, LateNumbers, MergeSkipped;
  }

  lemma BeginWriting(t: State, snap: Snapshot)
    requires Inv(t) && SnapOk(t, snap) && InMemory(snap.segment) == []
    ensures Inv(t.(persister := Writing(snap)))
  {
    hide Roots, Pendings, Logs, Files, Snapshots, Holds, FilesAgree;
    SameButPersister(t, t.(persister := Writing(snap)));
  }

  lemma MemoryMergeFacts(s: State, snap: Snapshot, m: Merge)
    requires Inv(s) && s.persister == Merging(snap, m.id) && m.id in s.pending && s.pending[m.id] == PendingMerge(m)
    ensures SnapOk(s, snap) && m.sources == InMemory(snap.segment) && m.sources != []
    ensures m.id !in Ids(snap.segment) && m.id !in s.policy.known && m.id <= s.lastId
    ensures m.id in s.disk.segments && s.disk.segments[m.id] == MergedDocs(m.sources)
    ensures snap.epoch < s.nextEpoch
  {
    FreedId(s, m.id);
    assert PendingOk(s, m.id);
  }

  lemma EquivalentSnapOk(s: State, snap: Snapshot, m: Merge, t: State)
    requires SnapOk(s, snap) && m.sources == InMemory(snap.segment) && m.sources != []
    requires m.id !in Ids(snap.segment) && m.id !in s.policy.known && m.id <= s.lastId
    requires m.id in s.disk.segments && s.disk.segments[m.id] == MergedDocs(m.sources)
    requires t.lastPersisted == s.lastPersisted && t.disk == s.disk && t.policy == s.policy && t.lastId == s.lastId
    requires t.log == s.log && snap.epoch in t.logAt && t.logAt[snap.epoch] == s.logAt[snap.epoch]
    requires t.pending == s.pending - {m.id}
    requires Ids(t.root.segment) <= Ids(s.root.segment) - Ids(m.sources) + {m.id}
    ensures SnapOk(t, Equivalent(snap, m.id))
  {
    hide Equivalent, Holds, FilesAgree, InMemory, OnDisk, MergedDocs, Ids, DistinctIds;
    EquivalentHolds(s, snap, m.id);
    EquivalentFiles(s, snap, m);
  }

  lemma MemoryAndDiskIds(segs: seq<SegmentSnapshot>)
    requires DistinctIds(segs)
    ensures Ids(segs) == Ids(OnDisk(segs)) + Ids(InMemory(segs))
  {
    MemoryAndDiskMembers(segs);
  }

  lemma EquivalentFiles(s: State, snap: Snapshot, m: Merge)
    requires SnapOk(s, snap) && m.sources == InMemory(snap.segment)
    requires m.id in s.disk.segments && s.disk.segments[m.id] == MergedDocs(m.sources)
    ensures FilesAgree(Equivalent(snap, m.id).segment, s.disk.segments)
  {
    MemoryAndDiskMembers(snap.segment);
  }

  /** Writing the file of a segment not yet on disk does not change what is there. */
  lemma WriteKeepsSnapshots(s: State, seg: SegmentSnapshot)
    requires Snapshots(s) && (seg.id in s.disk.segments ==> s.disk.segments[seg.id] == seg.docs)
    ensures Snapshots(s.(disk := s.disk.(segments := s.disk.segments[seg.id := seg.docs])))
  {
    var t := s.(disk := s.disk.(segments := s.disk.segments[seg.id := seg.docs]));
    forall e | e in t.disk.snapshots ensures Denotes(t, e) {
      assert Denotes(s, e);
      LoadedSame(s.disk.segments, t.disk.segments, s.disk.snapshots[e]);
    }
  }

  lemma WriteKeepsAgreement(segs: seq<SegmentSnapshot>, files: map<nat, seq<Doc>>, seg: SegmentSnapshot)
    requires FilesAgree(segs, files) && OlderThan(seg, segs)
    ensures FilesAgree(segs, files[seg.id := seg.docs])
  {
  }

  lemma SameIdSameSegment(segs: seq<SegmentSnapshot>, seg: SegmentSnapshot)
    requires DistinctIds(segs) && seg in segs
    ensures forall q :: q in segs && q.id == seg.id ==> q == seg
  {
  }

  lemma WriteSegmentStep(s: State, snap: Snapshot, seg: SegmentSnapshot)
    requires Inv(s) && s.persister == Writing(snap) && seg in snap.segment && !seg.persisted
    ensures Inv(WriteSegmentIn(s, seg))
  {
    hide Holds, FilesAgree, InMemory, Snapshots, WellFormedRoot, Older, OlderThan, Ids, PreparedIn, PlannedIn, MergedDocs;
    var files := s.disk.segments[seg.id := seg.docs];
    var t := s.(disk := s.disk.(segments := files));
    WrittenFacts(s, snap, seg);
    WriteKeepsSnapshots(s, seg);
    WriteKeepsAgreement(s.root.segment, s.disk.segments, seg);
    WriteKeepsAgreement(snap.segment, s.disk.segments, seg);
    forall i | i in t.pending ensures PendingOk(t, i) { assert PendingOk(s, i); }
    assert SnapOk(t, snap);
  }

  lemma WrittenFacts(s: State, snap: Snapshot, seg: SegmentSnapshot)
    requires Inv(s) && s.persister == Writing(snap) && seg in snap.segment && !seg.persisted
    ensures OlderThan(seg, s.root.segment) && OlderThan(seg, snap.segment)
    ensures seg.id in Ids(snap.segment)
    ensures seg.id in s.disk.segments ==> s.disk.segments[seg.id] == seg.docs
  {
    MemoryAndDiskMembers(snap.segment);
    assert seg in InMemory(snap.segment) && snap in s.past;
    SameIdSameSegment(snap.segment, seg);
    assert Older(snap.segment, s.root.segment);
  }

  lemma SwapInStep(s: State, snap: Snapshot)
    requires Inv(s) && s.persister == Writing(snap) && Ids(snap.segment) <= s.disk.segments.Keys
    ensures Inv(SwapPersistedIn(s, snap))
  {
    hide Inv, PersistRoot, InMemory, Holds, Advances, FilesAgree, Replace;
    var to := PersistRoot(s.root.segment, Ids(InMemory(snap.segment)));
    SwappedFacts(s, snap);
    ReplaceKeepsInv(s, to, s.log, {});
    ReplacedFields(s, to, s.log);
    BeginSwapped(Replace(s, to, s.log, {}), snap);
  }

  lemma ReplacedFields(s: State, segs: seq<SegmentSnapshot>, log: seq<Batch>)
    ensures
      var t := Replace(s, segs, log, {});
      t.persister == s.persister && t.disk == s.disk
  {
  }

  lemma BeginSwapped(t: State, snap: Snapshot)
    requires Inv(t) && t.persister == Writing(snap) && Ids(snap.segment) <= t.disk.segments.Keys
    ensures Inv(t.(persister := Swapped(snap)))
  {
    hide Roots, Pendings, Logs, Files, Snapshots, Holds, FilesAgree, InMemory, Ids;
    SameButPersister(t, t.(persister := Swapped(snap)));
  }

  lemma SwappedFacts(s: State, snap: Snapshot)
    requires Inv(s) && s.persister == Writing(snap) && Ids(snap.segment) <= s.disk.segments.Keys
    ensures
      var to := PersistRoot(s.root.segment, Ids(InMemory(snap.segment)));
      && Holds(to, s.log, |s.log|) && Advances(s.root.segment, to, {}) && FilesAgree(to, s.disk.segments)
  {
    var ids := Ids(InMemory(snap.segment));
    MemoryAndDiskIds(snap.segment);
    PersistRootFacts(s.root.segment, ids);
    SwappedFiles(s.root.segment, ids, s.disk.segments);
  }

  lemma SwappedFiles(segs: seq<SegmentSnapshot>, ids: set<nat>, files: map<nat, seq<Doc>>)
    requires FilesAgree(segs, files) && ids <= files.Keys
    ensures FilesAgree(PersistRoot(segs, ids), files)
  {
    var to := PersistRoot(segs, ids);
    forall q | q in to ensures (q.persisted ==> q.id in files) && (q.id in files ==> files[q.id] == q.docs) {
      var i :| 0 <= i < |to| && to[i] == q;
      assert segs[i] in segs;
    }
  }

  lemma PersistRootFacts(segs: seq<SegmentSnapshot>, ids: set<nat>)
    requires WellFormedRoot(segs)
    ensures WellFormedRoot(PersistRoot(segs, ids)) && RootBag(PersistRoot(segs, ids)) == RootBag(segs)
    ensures Advances(segs, PersistRoot(segs, ids), {})
  {
    hide RootBag;
    PersistKeepsBag(segs, ids);
    PersistRootMembers(segs, ids);
  }

  lemma PersistRootMembers(segs: seq<SegmentSnapshot>, ids: set<nat>)
    ensures forall q :: q in PersistRoot(segs, ids) ==>
      exists p :: p in segs && p.id == q.id && p.docs == q.docs && p.deleted == q.deleted
  {
    var to := PersistRoot(segs, ids);
    forall q | q in to
      ensures exists p :: p in segs && p.id == q.id && p.docs == q.docs && p.deleted == q.deleted
    {
      var i :| 0 <= i < |to| && to[i] == q;
      assert segs[i] in segs;
    }
  }

  // ---------------------------------------------------------------- snapshot files

  lemma RefsIds(segs: seq<SegmentSnapshot>)
    ensures RefIds(Refs(segs)) == Ids(segs)
  {
    forall q | q in segs ensures q.id in RefIds(Refs(segs)) {
      var i :| 0 <= i < |segs| && segs[i] == q;
      assert Refs(segs)[i] in Refs(segs);
    }
    forall r | r in Refs(segs) ensures r.id in Ids(segs) {
      var i :| 0 <= i < |segs| && Refs(segs)[i] == r;
      assert segs[i] in segs;
    }
  }

  /** Reading a snapshot back gives the same segments, all persisted. */
  lemma ReadBack(segs: seq<SegmentSnapshot>, files: map<nat, seq<Doc>>)
    requires FilesAgree(segs, files) && Ids(segs) <= files.Keys
    ensures Loaded(files, Refs(segs)) == PersistRoot(segs, Ids(segs))
  {
    forall i | 0 <= i < |segs| ensures Loaded(files, Refs(segs))[i] == PersistRoot(segs, Ids(segs))[i] {
      assert segs[i] in segs && segs[i].id in Ids(segs);
    }
  }

  lemma WrittenHolds(segs: seq<SegmentSnapshot>, files: map<nat, seq<Doc>>, log: seq<Batch>, k: nat)
    requires Holds(segs, log, k) && FilesAgree(segs, files) && Ids(segs) <= files.Keys
    ensures Holds(Loaded(files, Refs(segs)), log, k)
  {
    ReadBack(segs, files);
    PersistRootFacts(segs, Ids(segs));
  }

  ghost predicate AllWritten(s: State, snap: Snapshot) {
    SnapOk(s, snap) && Ids(snap.segment) <= s.disk.segments.Keys
  }

  lemma {:induction false} NothingInMemory(segs: seq<SegmentSnapshot>)
    requires InMemory(segs) == []
    ensures forall q :: q in segs ==> q.persisted
  {
    if segs != [] {
      var init, last := segs[..|segs| - 1], segs[|segs| - 1];
      NothingInMemory(init);
      assert segs == init + [last];
    }
  }

  lemma ReadyIsWritten(s: State)
    requires Inv(s)
    requires ReadyToWrite(s)
    ensures AllWritten(s, s.persister.snap)
  {
    var snap := s.persister.snap;
    if s.persister.Writing? {
      NothingInMemory(snap.segment);
      forall q | q in snap.segment ensures q.id in s.disk.segments { assert q.persisted; }
    }
  }

  lemma WrittenPolicy(s: State, snap: Snapshot)
    requires Snapshots(s) && s.lastPersisted < snap.epoch
    ensures
      var p, ids := WriteSnapshotIn(s, snap).policy, Ids(snap.segment);
      && p.n >= 1 && p.Valid() && p.liveEpochs != [] && Last(p.liveEpochs) == snap.epoch
      && p.liveSegments == s.policy.liveSegments[snap.epoch := ids] && p.known == s.policy.known + ids
      && (forall e :: e in p.Committed() ==> e <= snap.epoch)
  {
    hide Denotes, Shielded, Commit, Ascending, Covers, Complete, RefIds, Refs, Ids;
    RefsIds(snap.segment);
    CommitKeepsValid(s.policy, snap.epoch, Ids(snap.segment));
  }

  lemma WrittenSnapshots(s: State, snap: Snapshot)
    requires Inv(s) && AllWritten(s, snap)
    ensures Snapshots(WriteSnapshotIn(s, snap))
  {
    hide Holds, FilesAgree, WellFormedRoot, Ids, Refs, Loaded, Roots, Pendings, Commit;
    var t := WriteSnapshotIn(s, snap);
    WrittenPolicy(s, snap);
    RefsIds(snap.segment);
    WrittenHolds(snap.segment, s.disk.segments, s.log, s.logAt[snap.epoch]);
    forall e | e in t.disk.snapshots ensures Denotes(t, e) {
      if e != snap.epoch { assert Denotes(s, e); }
    }
    forall e | e in t.disk.snapshots ensures RefIds(t.disk.snapshots[e]) <= t.disk.segments.Keys {
      if e != snap.epoch { assert e in s.disk.snapshots; }
    }
  }

  lemma WriteSnapshotStep(s: State)
    requires Inv(s)
    requires ReadyToWrite(s)
    ensures Inv(WriteSnapshotIn(s, s.persister.snap))
  {
    hide Holds, FilesAgree, WellFormedRoot, Ids, Refs, Loaded, Commit, PreparedIn, PlannedIn, MergedDocs, InMemory, Snapshots;
    var snap := s.persister.snap;
    ReadyIsWritten(s);
    WrittenSnapshots(s, snap);
    WrittenPolicy(s, snap);
    var t := WriteSnapshotIn(s, snap);
    forall i | i in t.pending ensures PendingOk(t, i) { assert PendingOk(s, i); }
  }

  // ---------------------------------------------------------------- cleanup

  lemma CleanedPolicy(s: State, gone: set<nat>, removed: set<nat>)
    requires Snapshots(s) && MayClean(s, gone, removed)
    ensures
      var t := CleanUpIn(s, gone, removed);
      && t.policy.Valid() && Covers(t.policy, t.disk) && Complete(t.disk) && t.policy.liveEpochs == s.policy.liveEpochs
      && CleanedBy(s.policy, s.disk, gone, removed, t.policy, t.disk)
      && (forall e :: e in t.policy.Committed() ==> e in s.policy.Committed())
      && (t.policy.liveEpochs == [] ==> t.policy.deletableEpochs == [])
  {
    hide Denotes, Shielded, Ascending;
    var t := CleanUpIn(s, gone, removed);
    assert CleanedBy(s.policy, s.disk, gone, removed, t.policy, t.disk);
    CleanupKeepsComplete(s.policy, s.disk, gone, removed, t.policy, t.disk);
    assert Elements(t.policy.Committed()) <= Elements(s.policy.Committed());
    assert forall e :: e in t.policy.Committed() ==> e in Elements(t.policy.Committed());
  }

  /** No file the root still needs is removed. */
  lemma RootFilesStay(s: State, gone: set<nat>, removed: set<nat>)
    requires Snapshots(s) && MayClean(s, gone, removed)
    ensures forall x :: x in removed ==> x !in Ids(s.root.segment)
    ensures s.policy.liveEpochs != [] ==>
      Last(s.policy.liveEpochs) in s.policy.liveSegments && Last(s.policy.liveEpochs) !in gone
  {
    hide Denotes, Ids, Covers, Complete;
    if s.policy.liveEpochs != [] {
      var e := Last(s.policy.liveEpochs);
      assert e in s.policy.liveEpochs && e in s.policy.Committed();
      assert e in Elements(s.policy.Committed());
      AscendingConcat(s.policy.deletableEpochs, s.policy.liveEpochs);
      var kept := s.policy.(liveSegments := s.policy.liveSegments - gone);
      assert e !in gone;
      assert e in kept.liveSegments && kept.liveSegments[e] == s.policy.liveSegments[e];
      assert forall x :: x in s.policy.liveSegments[e] ==> x in kept.Referenced();
    }
  }

  lemma CleanedDenotes(s: State, gone: set<nat>, removed: set<nat>, e: nat)
    requires Inv(s) && MayClean(s, gone, removed) && e in s.disk.snapshots && e !in gone
    ensures Denotes(CleanUpIn(s, gone, removed), e)
  {
    var t := CleanUpIn(s, gone, removed);
    CleanedPolicy(s, gone, removed);
    assert Denotes(s, e);
    assert RefIds(t.disk.snapshots[e]) <= t.disk.segments.Keys;
    LoadedSame(t.disk.segments, s.disk.segments, s.disk.snapshots[e]);
  }

  lemma CleanedRest(s: State, gone: set<nat>, removed: set<nat>)
    requires Inv(s) && MayClean(s, gone, removed)
    ensures
      var t := CleanUpIn(s, gone, removed);
      Roots(t) && Pendings(t) && Logs(t) && Files(t)
  {
    hide Holds, WellFormedRoot, Older, PreparedIn, PlannedIn, MergedDocs, Without, Complete, Covers, Denotes, Shielded;
    var t := CleanUpIn(s, gone, removed);
    RootFilesStay(s, gone, removed);
    forall i | i in t.pending ensures PendingOk(t, i) { assert PendingOk(s, i); }
    forall q | q in s.root.segment ensures q.id !in removed { assert q.id in Ids(s.root.segment); }
  }

  lemma CleanupStep(s: State, gone: set<nat>, removed: set<nat>)
    requires Inv(s) && MayClean(s, gone, removed)
    ensures Inv(CleanUpIn(s, gone, removed))
  {
    hide Roots, Pendings, Logs, Files, Denotes, CleanedBy, Without, MayClean, Ids, Covers, Complete;
    var t := CleanUpIn(s, gone, removed);
    CleanedRest(s, gone, removed);
    CleanedPolicy(s, gone, removed);
    IdleNow(s, gone, removed);
    RootFilesStay(s, gone, removed);
    forall e | e in t.disk.snapshots ensures Denotes(t, e) { CleanedDenotes(s, gone, removed, e); }
  }

  lemma IdleNow(s: State, gone: set<nat>, removed: set<nat>)
    requires MayClean(s, gone, removed)
    ensures s.persister == Idle
  {
  }

  // ---------------------------------------------------------------- reopening

  ghost predicate LoadedWell(p: Policy, n: nat, snapshots: map<nat, seq<SegmentRef>>, epochs: set<nat>, ids: set<nat>)
    requires epochs <= snapshots.Keys
  {
    && p.n == n && p.Valid() && p.liveSegments.Keys == epochs && p.known <= ids
    && (forall e :: e in epochs ==> p.liveSegments[e] == RefIds(snapshots[e]))
    && (forall e :: e in p.Committed() ==> e in epochs)
    && (epochs == {} ==> p.liveEpochs == [] && p.deletableEpochs == [])
    && (epochs != {} ==> p.liveEpochs != [] && Last(p.liveEpochs) == Max(epochs))
  }

  lemma LoadOneMore(p: Policy, n: nat, snapshots: map<nat, seq<SegmentRef>>, epochs: set<nat>, ids: set<nat>)
    requires n >= 1 && epochs <= snapshots.Keys && epochs != {}
    requires LoadedWell(p, n, snapshots, epochs - {Max(epochs)}, ids) && RefIds(snapshots[Max(epochs)]) <= ids
    ensures LoadedWell(Commit(p, Max(epochs), RefIds(snapshots[Max(epochs)])), n, snapshots, epochs, ids)
  {
    hide Commit, Ascending, RefIds, Elements;
    var e := Max(epochs);
    assert epochs == (epochs - {e}) + {e};
    CommitKeepsValid(p, e, RefIds(snapshots[e]));
  }

  lemma {:induction false} LoadPolicyFacts(n: nat, snapshots: map<nat, seq<SegmentRef>>, epochs: set<nat>, ids: set<nat>)
    requires n >= 1 && epochs <= snapshots.Keys
    requires forall e :: e in epochs ==> RefIds(snapshots[e]) <= ids
    ensures LoadedWell(LoadPolicy(n, snapshots, epochs), n, snapshots, epochs, ids)
  {
    if epochs == {} {
      NewPolicyIsEmpty(n);
    } else {
      hide LoadedWell, RefIds;
      var rest := epochs - {Max(epochs)};
      LoadPolicyFacts(n, snapshots, rest, ids);
      LoadOneMore(LoadPolicy(n, snapshots, rest), n, snapshots, epochs, ids);
    }
  }

  lemma NewPolicyIsEmpty(n: nat)
    ensures NewPolicy(n).Valid() && NewPolicy(n).Committed() == []
  {
    assert Elements([]) == {};
  }

  /** What the directory alone says about the batches. */
  ghost predicate DiskOk(disk: Disk, log: seq<Batch>, logAt: map<nat, nat>, acked: nat) {
    && Complete(disk)
    && (forall e :: e in disk.snapshots ==>
          e in logAt && logAt[e] <= |log| && Holds(Loaded(disk.segments, disk.snapshots[e]), log, logAt[e]))
    && (forall e, f :: e in logAt && f in logAt && e <= f ==> logAt[e] <= logAt[f])
    && (disk.snapshots == map[] ==> acked == 0)
    && (disk.snapshots != map[] ==> acked <= logAt[Max(disk.snapshots.Keys)])
  }

  lemma DiskSurvives(s: State)
    requires Inv(s)
    ensures DiskOk(s.disk, s.log, s.logAt, s.acked) && s.policy.n >= 1
  {
    hide Holds, Roots, Pendings, Files;
    forall e | e in s.disk.snapshots
      ensures e in s.logAt && Holds(Loaded(s.disk.segments, s.disk.snapshots[e]), s.log, s.logAt[e])
    {
      assert Denotes(s, e);
    }
    NewestIsLast(s);
  }

  lemma NewestIsLast(s: State)
    requires Snapshots(s)
    ensures s.policy.liveEpochs == [] ==> s.disk.snapshots == map[]
    ensures s.policy.liveEpochs != [] ==>
      s.disk.snapshots != map[] && Max(s.disk.snapshots.Keys) == Last(s.policy.liveEpochs)
  {
    hide Denotes, Shielded;
    var p := s.policy;
    if p.liveEpochs != [] {
      var last := Last(p.liveEpochs);
      assert p.Committed()[|p.Committed()| - 1] == last;
      assert last in Elements(p.Committed());
      forall e | e in s.disk.snapshots ensures e <= last {
        assert e in p.Committed();
        var i :| 0 <= i < |p.Committed()| && p.Committed()[i] == e;
      }
    } else {
      assert p.Committed() == [];
      assert Elements([]) == {};
    }
  }

  lemma {:induction false} LoadedPersisted(files: map<nat, seq<Doc>>, refs: seq<SegmentRef>)
    requires RefIds(refs) <= files.Keys
    ensures FilesAgree(Loaded(files, refs), files)
    ensures Ids(Loaded(files, refs)) == RefIds(refs)
  {
    var segs := Loaded(files, refs);
    forall q | q in segs ensures q.id in RefIds(refs) && q.id in files && files[q.id] == q.docs {
      var i :| 0 <= i < |segs| && segs[i] == q;
      assert refs[i] in refs;
    }
    forall r | r in refs ensures r.id in Ids(segs) {
      var i :| 0 <= i < |refs| && refs[i] == r;
      assert segs[i] in segs;
    }
  }

  lemma OpenPolicy(n: nat, disk: Disk)
    requires n >= 1 && Complete(disk)
    ensures
      var p := LoadPolicy(n, disk.snapshots, disk.snapshots.Keys);
      var q := p.(known := p.known + disk.segments.Keys);
      && q.n == n && q.Valid() && Covers(q, disk) && q.known == disk.segments.Keys
      && (forall e :: e in q.Committed() ==> e in disk.snapshots)
      && (disk.snapshots == map[] ==> q.liveEpochs == [] && q.deletableEpochs == [])
      && (disk.snapshots != map[] ==> q.liveEpochs != [] && Last(q.liveEpochs) == Max(disk.snapshots.Keys))
  {
    LoadPolicyFacts(n, disk.snapshots, disk.snapshots.Keys, disk.segments.Keys);
  }

  lemma OpenEmptyStep(n: nat, disk: Disk, log: seq<Batch>, logAt: map<nat, nat>, acked: nat)
    requires n >= 1 && DiskOk(disk, log, logAt, acked) && disk.snapshots == map[]
    ensures Inv(Open(n, disk, log, logAt, acked))
  {
    hide LoadPolicy;
    OpenPolicy(n, disk);
    var t := Open(n, disk, log, logAt, acked);
    assert Ids([]) == {};
    assert t.log[..0] == [];
  }

  lemma OpenRoot(disk: Disk, e: nat)
    requires Complete(disk) && e in disk.snapshots
    ensures
      var segs := Loaded(disk.segments, disk.snapshots[e]);
      FilesAgree(segs, disk.segments) && Ids(segs) <= disk.segments.Keys && Ids(segs) == RefIds(disk.snapshots[e])
  {
    LoadedPersisted(disk.segments, disk.snapshots[e]);
  }

  ghost predicate OpensAt(t: State, disk: Disk, log: seq<Batch>, logAt: map<nat, nat>, acked: nat, e: nat) {
    && DiskOk(disk, log, logAt, acked) && e in disk.snapshots && (forall x :: x in disk.snapshots ==> x <= e)
    && t.disk == disk && t.acked == acked
    && t.root.epoch == e && t.root.segment == Loaded(disk.segments, disk.snapshots[e])
    && t.log == log[..logAt[e]] && t.logAt == map x | x in logAt && x <= e :: logAt[x]
  }

  lemma HoldsShorter(segs: seq<SegmentSnapshot>, log: seq<Batch>, k: nat, n: nat)
    requires Holds(segs, log, k) && k <= n <= |log|
    ensures Holds(segs, log[..n], k)
  {
    assert log[..k] == log[..n][..k];
  }

  lemma OpenDenotes(t: State, disk: Disk, log: seq<Batch>, logAt: map<nat, nat>, acked: nat, e: nat, x: nat)
    requires OpensAt(t, disk, log, logAt, acked, e) && x in disk.snapshots
    ensures Denotes(t, x)
  {
    hide Loaded, Holds, Complete;
    HoldsShorter(Loaded(disk.segments, disk.snapshots[x]), log, logAt[x], logAt[e]);
  }

  lemma OpenLogs(t: State, disk: Disk, log: seq<Batch>, logAt: map<nat, nat>, acked: nat, e: nat)
    requires OpensAt(t, disk, log, logAt, acked, e)
    ensures Logs(t)
  {
    hide Loaded, Holds, Complete;
    HoldsShorter(t.root.segment, log, logAt[e], logAt[e]);
  }

  lemma OpenStep(n: nat, disk: Disk, log: seq<Batch>, logAt: map<nat, nat>, acked: nat)
    requires n >= 1 && DiskOk(disk, log, logAt, acked) && disk.snapshots != map[]
    ensures Inv(Open(n, disk, log, logAt, acked))
  {
    hide Loaded, Holds, Denotes, Logs, RefIds, DiskOk, OpensAt, Snapshots, FilesAgree, LoadPolicy;
    var t := Open(n, disk, log, logAt, acked);
    var e := Max(disk.snapshots.Keys);
    DiskParts(disk, log, logAt, acked);
    OpenRoot(disk, e);
    OpenSnapshots(n, disk, log, logAt, acked);
    OpensAtNewest(n, disk, log, logAt, acked);
    OpenLogs(t, disk, log, logAt, acked, e);
    OpenPolicy(n, disk);
    LogsRoot(t);
    OlderRefl(t.root.segment);
  }

  lemma OpenSnapshots(n: nat, disk: Disk, log: seq<Batch>, logAt: map<nat, nat>, acked: nat)
    requires n >= 1 && DiskOk(disk, log, logAt, acked) && disk.snapshots != map[]
    ensures Snapshots(Open(n, disk, log, logAt, acked))
  {
    hide Loaded, Holds, Denotes, Logs, RefIds, DiskOk, OpensAt, Policy.Valid, FilesAgree, LoadPolicy;
    var t := Open(n, disk, log, logAt, acked);
    var e := Max(disk.snapshots.Keys);
    DiskParts(disk, log, logAt, acked);
    OpenPolicy(n, disk);
    OpenRoot(disk, e);
    OpensAtNewest(n, disk, log, logAt, acked);
    forall x | x in disk.snapshots ensures Denotes(t, x) { OpenDenotes(t, disk, log, logAt, acked, e, x); }
  }

  lemma OpensAtNewest(n: nat, disk: Disk, log: seq<Batch>, logAt: map<nat, nat>, acked: nat)
    requires DiskOk(disk, log, logAt, acked) && disk.snapshots != map[]
    ensures OpensAt(Open(n, disk, log, logAt, acked), disk, log, logAt, acked, Max(disk.snapshots.Keys))
  {
    hide Loaded, Holds, LoadPolicy;
  }

  lemma LogsRoot(t: State)
    requires Logs(t)
    ensures WellFormedRoot(t.root.segment) && t.root.epoch in t.logAt
  {
  }

  lemma DiskParts(disk: Disk, log: seq<Batch>, logAt: map<nat, nat>, acked: nat)
    requires DiskOk(disk, log, logAt, acked) && disk.snapshots != map[]
    ensures Complete(disk)
    ensures
      var e := Max(disk.snapshots.Keys);
      e in disk.snapshots && e in logAt && logAt[e] <= |log| && acked <= logAt[e]
  {
  }
}
