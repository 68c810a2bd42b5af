/** Theorems about every run of the text index. */
module IndexTheorems {
  import opened Basics
  import opened Segments
  import opened Introducer
  import opened LiveDocuments
  import opened DeletionPolicy
  import opened IndexProtocol
  import opened IndexSafety

  lemma StepKeepsInv(s: State, ev: Event)
    requires Inv(s) && Enabled(s, ev)
    ensures Inv(Next(s, ev))
  {
    hide Inv, PrepareIn, IntroduceBatchIn, PlanIn, IntroduceMergeIn, AbandonIn, RemoveOrphanIn, PlanMemoryMergeIn,
         IntroduceMemoryMergeIn, GiveUpMergeIn, WriteSegmentIn, SwapPersistedIn, WriteSnapshotIn, CleanUpIn, CrashIn, MayClean,
         NonEmpty, EmptyIds, DistinctIds, InMemory, Ids;
    match ev
    case PrepareBatch(from, docs, idTerms) => PrepareBatchStep(s, from, docs, idTerms);
    case IntroduceBatch(id) => IdMatches(s, id); IntroduceBatchStep(s, s.pending[id].next);
    case PlanMerge(from, task) => PlanMergeStep(s, from, task);
    case IntroduceMerge(id) => IdMatches(s, id); IntroduceMergeInKeeps(s, s.pending[id].merge);
    case Abandon(id) => AbandonStep(s, id);
    case RemoveOrphan(id) => RemoveOrphanStep(s, id);
    case TakeSnapshot => TakeSnapshotStep(s);
    case PlanMemoryMerge => PlanMemoryMergeStep(s, s.persister.snap);
    case IntroduceMemoryMerge => IdMatches(s, s.persister.id); MemoryMergeStep(s);
    case GiveUpMerge => GiveUpMergeStep(s, s.persister.id);
    case WriteSegment(seg) => WriteSegmentStep(s, s.persister.snap, seg);
    case SwapIn => SwapInStep(s, s.persister.snap);
    case WriteSnapshot => WriteSnapshotStep(s);
    case GiveUp => GiveUpStep(s);
    case Cleanup(gone, removed) => CleanupStep(s, gone, removed);
    case Crash => CrashStep(s);
  }

  lemma IdMatches(s: State, id: nat)
    requires Inv(s) && id in s.pending
    ensures s.pending[id].PendingBatch? ==> s.pending[id].next.id == id
    ensures s.pending[id].PendingMerge? ==> s.pending[id].merge.id == id
  {
    PendingIds(s, id);
  }

  lemma MemoryMergeStep(s: State)
    requires Inv(s) && s.persister.Merging? && s.persister.id in s.pending
    requires s.pending[s.persister.id].PendingMerge? && s.pending[s.persister.id].merge.id == s.persister.id
    ensures Inv(IntroduceMemoryMergeIn(s, s.persister.snap, s.pending[s.persister.id].merge))
  {
    hide Inv, Skips, Equivalent, IntroduceMergeIn;
    var snap, m := s.persister.snap, s.pending[s.persister.id].merge;
    if Skips(s, m) { SkippedMemoryMergeStep(s, snap, m); } else { DoneMemoryMergeStep(s, snap, m); }
  }

  lemma GiveUpStep(s: State)
    requires Inv(s)
    ensures Inv(s.(persister := Idle))
  {
    hide Roots, Pendings, Logs, Files, Snapshots, SnapOk;
    SameButPersister(s, s.(persister := Idle));
  }

  lemma GiveUpMergeStep(s: State, id: nat)
    requires Inv(s) && id in s.pending
    ensures Inv(GiveUpMergeIn(s, id))
  {
    hide Inv, AbandonIn;
    GiveUpStep(s);
    AbandonStep(s.(persister := Idle), id);
  }

  lemma CrashStep(s: State)
    requires Inv(s)
    ensures Inv(CrashIn(s))
  {
    hide Inv, DiskOk, Open;
    DiskSurvives(s);
    if s.disk.snapshots == map[] {
      OpenEmptyStep(s.policy.n, s.disk, s.log, s.logAt, s.acked);
    } else {
      OpenStep(s.policy.n, s.disk, s.log, s.logAt, s.acked);
    }
  }

  lemma InitialInv(n: nat)
    requires n >= 1
    ensures Inv(Initial(n))
  {
    hide Inv, Open;
    EmptyDiskOk();
    OpenEmptyStep(n, Disk(map[], map[]), [], map[], 0);
  }

  lemma EmptyDiskOk()
    ensures DiskOk(Disk(map[], map[]), [], map[], 0)
  {
  }

  lemma {:induction false} RunKeepsInv(n: nat, events: seq<Event>)
    requires n >= 1 && Run(n, events).Some?
    ensures Inv(Run(n, events).value)
  {
    hide Inv, Next, Enabled, Initial;
    if events == [] {
      InitialInv(n);
    } else {
      var init, ev := events[..|events| - 1], events[|events| - 1];
      RunKeepsInv(n, init);
      StepKeepsInv(Run(n, init).value, ev);
    }
  }

  // ---------------------------------------------------------------- the theorems

  /** In every run the documents a reader of the root finds are those of a plain bag to
      which the batches of the log are applied in turn. */
  lemma RootHoldsLog(n: nat, events: seq<Event>)
    requires n >= 1 && Run(n, events).Some?
    ensures
      var s := Run(n, events).value;
      RootBag(s.root.segment) == ApplyAll(s.log)
  {
    RunKeepsInv(n, events);
    var s := Run(n, events).value;
    hide Run, Next, Enabled, Roots, Pendings, Persisting, Files, Snapshots;
    assert s.log[..|s.log|] == s.log;
  }

  /** In every run each snapshot file on disk has all its segment files, and reading it
      gives exactly the first batches: those its root held. */
  lemma SnapshotFilesAreBatches(n: nat, events: seq<Event>, e: nat)
    requires n >= 1 && Run(n, events).Some? && e in Run(n, events).value.disk.snapshots
    ensures
      var s := Run(n, events).value;
      && RefIds(s.disk.snapshots[e]) <= s.disk.segments.Keys
      && e in s.logAt && s.logAt[e] <= |s.log|
      && RootBag(Loaded(s.disk.segments, s.disk.snapshots[e])) == ApplyAll(s.log[..s.logAt[e]])
  {
    RunKeepsInv(n, events);
    hide Run, Next, Enabled, Roots, Pendings, Persisting, Files, Logs;
    assert Denotes(Run(n, events).value, e);
  }

  /** Reopening after a crash at any point gives the batches of the newest snapshot,
      which include every batch reported persisted. */
  lemma CrashKeepsPersisted(n: nat, events: seq<Event>)
    requires n >= 1 && Run(n, events).Some?
    ensures
      var s := Run(n, events).value;
      var t := Next(s, Crash);
      t.log <= s.log && s.acked <= |t.log| && RootBag(t.root.segment) == ApplyAll(t.log)
  {
    hide Run, Inv, PrepareIn, IntroduceBatchIn, PlanIn, IntroduceMergeIn, AbandonIn, RemoveOrphanIn, PlanMemoryMergeIn,
         IntroduceMemoryMergeIn, GiveUpMergeIn, WriteSegmentIn, SwapPersistedIn, WriteSnapshotIn, CleanUpIn, CrashIn, MayClean, RootBag, ApplyAll;
    RunKeepsInv(n, events);
    CrashedLog(Run(n, events).value);
  }

  lemma CrashedLog(s: State)
    requires Inv(s)
    ensures
      var t := CrashIn(s);
      t.log <= s.log && s.acked <= |t.log| && t.acked == s.acked && RootBag(t.root.segment) == ApplyAll(t.log)
  {
    hide Roots, Pendings, Persisting, Files, Snapshots, LoadPolicy, Loaded;
    DiskSurvives(s);
    CrashStep(s);
    var t := CrashIn(s);
    assert t.log[..|t.log|] == t.log;
    if s.disk.snapshots != map[] { DiskParts(s.disk, s.log, s.logAt, s.acked); }
  }

  /** Whatever happens next, a batch reported persisted stays in the log at its place. */
  lemma StepKeepsPersisted(s: State, ev: Event)
    requires Inv(s) && Enabled(s, ev)
    ensures
      var t := Next(s, ev);
      s.acked <= t.acked <= |t.log| && s.acked <= |s.log| && s.log[..s.acked] <= t.log
  {
    hide Inv, Enabled, PrepareIn, IntroduceBatchIn, PlanIn, IntroduceMergeIn, AbandonIn, RemoveOrphanIn, PlanMemoryMergeIn,
         IntroduceMemoryMergeIn, GiveUpMergeIn, WriteSegmentIn, SwapPersistedIn, WriteSnapshotIn, CleanUpIn, CrashIn, RootBag, ApplyAll;
    StepKeepsInv(s, ev);
    PersistedInLog(s);
    PersistedInLog(Next(s, ev));
    match ev {
      case Crash => CrashedLog(s);
      case WriteSnapshot => MayWrite(s); AckedGrows(s);
      case _ => OtherStepsKeepLog(s, ev);
    }
  }

  lemma MayWrite(s: State)
    requires Enabled(s, WriteSnapshot)
    ensures ReadyToWrite(s)
  {
  }

  lemma PersistedInLog(s: State)
    requires Inv(s)
    ensures s.acked <= |s.log|
  {
    hide Roots, Pendings, Persisting, Files, Holds, Denotes;
  }

  lemma AckedGrows(s: State)
    requires Inv(s) && ReadyToWrite(s)
    ensures
      var t := WriteSnapshotIn(s, s.persister.snap);
      s.acked <= t.acked && t.log == s.log
  {
    hide Roots, Pendings, Files, Holds, FilesAgree, Denotes, Refs, Ids, InMemory, Commit, Shielded;
    if s.policy.liveEpochs != [] {
      assert Last(s.policy.liveEpochs) in s.policy.Committed();
    }
  }

  lemma OtherStepsKeepLog(s: State, ev: Event)
    requires Enabled(s, ev) && !ev.Crash? && !ev.WriteSnapshot?
    ensures s.log <= Next(s, ev).log && Next(s, ev).acked == s.acked
  {
    hide SegmentRoot, MergeRoot, PersistRoot, Skips, InMemory, Equivalent, Without, Prepare, Ids, MayClean, Offsets;
  }

  lemma PersistedChain(s: State, p: State, t: State)
    requires s.acked <= p.acked <= t.acked && s.acked <= |s.log| && p.acked <= |p.log|
    requires s.log[..s.acked] <= p.log && p.log[..p.acked] <= t.log
    ensures s.log[..s.acked] <= t.log
  {
    assert s.log[..s.acked] == p.log[..s.acked] == p.log[..p.acked][..s.acked];
  }

  lemma RunPrefix(n: nat, events: seq<Event>, ev: Event)
    requires Run(n, events + [ev]).Some?
    ensures Run(n, events).Some? && Enabled(Run(n, events).value, ev)
    ensures Run(n, events + [ev]) == Some(Next(Run(n, events).value, ev))
  {
    assert (events + [ev])[..|events|] == events;
  }

  lemma {:induction false} PersistedForever(n: nat, events: seq<Event>, later: seq<Event>)
    requires n >= 1 && Run(n, events).Some? && Run(n, events + later).Some?
    ensures
      var s, t := Run(n, events).value, Run(n, events + later).value;
      s.acked <= t.acked && s.acked <= |s.log| && s.log[..s.acked] <= t.log
  {
    hide Inv, Next, Enabled, Run;
    RunKeepsInv(n, events);
    PersistedInLog(Run(n, events).value);
    if later == [] {
      assert events + later == events;
    } else {
      var init, ev := later[..|later| - 1], later[|later| - 1];
      assert events + later == (events + init) + [ev];
      RunPrefix(n, events + init, ev);
      PersistedForever(n, events, init);
      RunKeepsInv(n, events + init);
      StepKeepsPersisted(Run(n, events + init).value, ev);
      PersistedInLog(Run(n, events + init).value);
      PersistedChain(Run(n, events).value, Run(n, events + init).value, Run(n, events + later).value);
    }
  }

  /** A merge offered to the introducer never makes it look up a missing document
      number or a missing segment snapshot. */
  lemma MergesAreIntroducible(n: nat, events: seq<Event>, id: nat)
    requires n >= 1 && Run(n, events).Some?
    requires id in Run(n, events).value.pending && Run(n, events).value.pending[id].PendingMerge?
    ensures
      var s := Run(n, events).value;
      var m := s.pending[id].merge;
      DistinctIds(s.root.segment) && Introducible(s.root.segment, m.Old(), m.Nums())
  {
    RunKeepsInv(n, events);
    var s := Run(n, events).value;
    hide Run, Next, Enabled;
    IdMatches(s, id);
    var m := s.pending[id].merge;
    PlannedMergeIsGood(s, m);
    PlannedIsIntroducible(s.root.segment, m.sources, {}, m.Old(), m.Nums(), m.Merged());
  }

  // ---------------------------------------------------------------- keeping no snapshot

  lemma RunOneMore(n: nat, events: seq<Event>, ev: Event)
    requires Run(n, events).Some? && Enabled(Run(n, events).value, ev)
    ensures Run(n, events + [ev]) == Some(Next(Run(n, events).value, ev))
  {
    assert (events + [ev])[..|events|] == events;
  }

  const ONE_DOC := Doc({}, "only document")

  function OneSegment(persisted: bool): seq<SegmentSnapshot> {
    [SegmentSnapshot(2, [ONE_DOC], persisted, {})]
  }

  ghost function EmptyWriter(n: nat): State {
    State(Snapshot(0, [], []), {Snapshot(0, [], [])}, 1, 1, map[], Idle, 0, NewPolicy(n), Disk(map[], map[]),
          [], map[0 := 0], 0)
  }

  lemma StartsEmpty(n: nat)
    ensures Initial(n) == EmptyWriter(n)
  {
    var p := LoadPolicy(n, map[], {});
    assert p.known + {} == p.known;
    assert Offsets([]) == [];
  }

  /** One batch of one document, introduced and taken by the persister. */
  lemma Taken(n: nat) returns (events: seq<Event>, s: State)
    ensures Run(n, events) == Some(s)
    ensures s.root.segment == OneSegment(false) && s.root.epoch == 1 && s.nextEpoch == 2 && s.persister == Writing(s.root)
    ensures s.policy == NewPolicy(n) && s.disk == Disk(map[], map[])
  {
    StartsEmpty(n);
    var s0 := EmptyWriter(n);
    var prepare := PrepareBatch(s0.root, [ONE_DOC], {});
    RunOneMore(n, [], prepare);
    var s1 := Next(s0, prepare);
    assert [] + [prepare] == [prepare];
    RunOneMore(n, [prepare], IntroduceBatch(2));
    var s2 := Next(s1, IntroduceBatch(2));
    assert Survivors([], s1.pending[2].next) == [];
    events := [prepare, IntroduceBatch(2)];
    assert [prepare] + [IntroduceBatch(2)] == events;
    assert s2.root.segment == OneSegment(false);
    RunOneMore(n, events, TakeSnapshot);
    events, s := events + [TakeSnapshot], Next(s2, TakeSnapshot);
  }

  lemma OneSegmentFacts()
    ensures InMemory(OneSegment(false)) == OneSegment(false) && InMemory(OneSegment(true)) == []
    ensures Ids(OneSegment(false)) == {2} == Ids(OneSegment(true))
    ensures PersistRoot(OneSegment(false), {2}) == OneSegment(true)
    ensures Refs(OneSegment(true)) == Refs(OneSegment(false)) == [SegmentRef(2, {})]
  {
    hide InMemory, Ids, PersistRoot, Refs;
    OneInMemory(SegmentSnapshot(2, [ONE_DOC], false, {}));
    OneInMemory(SegmentSnapshot(2, [ONE_DOC], true, {}));
    OneId(SegmentSnapshot(2, [ONE_DOC], false, {}));
    OneId(SegmentSnapshot(2, [ONE_DOC], true, {}));
    OnePersisted(SegmentSnapshot(2, [ONE_DOC], false, {}));
  }

  lemma OneId(q: SegmentSnapshot)
    ensures Ids([q]) == {q.id} && Refs([q]) == [SegmentRef(q.id, q.deleted)]
  {
  }

  lemma OnePersisted(q: SegmentSnapshot)
    requires !q.persisted
    ensures PersistRoot([q], {q.id}) == [q.(persisted := true)]
  {
    assert [q][..0] == [] && PersistRoot([], {q.id}) == [];
  }

  lemma OneInMemory(q: SegmentSnapshot)
    ensures InMemory([q]) == if q.persisted then [] else [q]
  {
    assert [q][..0] == [] && InMemory([]) == [];
  }

  lemma SegmentWritten(n: nat) returns (events: seq<Event>, s: State)
    ensures Run(n, events) == Some(s)
    ensures s.root.segment == OneSegment(false) && s.root.epoch == 1 && s.nextEpoch == 2 && s.persister == Writing(s.root)
    ensures s.policy == NewPolicy(n) && s.disk == Disk(map[2 := [ONE_DOC]], map[])
  {
    var s0;
    events, s0 := Taken(n);
    var write := WriteSegment(OneSegment(false)[0]);
    RunOneMore(n, events, write);
    events, s := events + [write], Next(s0, write);
  }

  lemma SegmentSwapped(n: nat) returns (events: seq<Event>, s: State)
    ensures Run(n, events) == Some(s)
    ensures s.root.segment == OneSegment(true) && s.root.epoch == 2
    ensures s.persister.Swapped? && s.persister.snap.segment == OneSegment(false) && s.persister.snap.epoch == 1
    ensures s.policy == NewPolicy(n) && s.disk == Disk(map[2 := [ONE_DOC]], map[])
  {
    var s0;
    events, s0 := SegmentWritten(n);
    OneSegmentFacts();
    RunOneMore(n, events, SwapIn);
    events, s := events + [SwapIn], Next(s0, SwapIn);
  }

  /** The same batch written: with n == 0 its snapshot is deletable at once. */
  lemma WrittenAndSwapped() returns (events: seq<Event>, s: State)
    ensures Run(0, events) == Some(s)
    ensures s.root.segment == OneSegment(true) && s.root.epoch == 2 && s.persister == Idle && s.lastPersisted == 1
    ensures s.disk == Disk(map[2 := [ONE_DOC]], map[1 := [SegmentRef(2, {})]])
    ensures s.policy == Policy(0, [], [1], map[1 := {2}], {2})
  {
    hide Run;
    var s0;
    events, s0 := SegmentSwapped(0);
    OneSegmentFacts();
    RunOneMore(0, events, WriteSnapshot);
    events, s := events + [WriteSnapshot], Next(s0, WriteSnapshot);
    assert RefIds([SegmentRef(2, {})]) == {2};
    assert s.policy == Commit(NewPolicy(0), 1, {2});
  }

  /** With n == 0 the next snapshot is written for a segment file already removed. */
  lemma KeepingNoneLosesFiles() returns (events: seq<Event>)
    ensures Run(0, events).Some? && !Complete(Run(0, events).value.disk)
  {
    var s0;
    events, s0 := WrittenAndSwapped();
    OneSegmentFacts();
    var clean := Event.Cleanup({1}, {2});
    assert s0.policy.(liveSegments := s0.policy.liveSegments - {1}).Referenced() == {};
    RunOneMore(0, events, clean);
    var s1 := Next(s0, clean);
    RunOneMore(0, events + [clean], TakeSnapshot);
    var s2 := Next(s1, TakeSnapshot);
    RunOneMore(0, events + [clean] + [TakeSnapshot], WriteSnapshot);
    var s3 := Next(s2, WriteSnapshot);
    events := events + [clean] + [TakeSnapshot] + [WriteSnapshot];
    assert s3.disk.snapshots[2] == [SegmentRef(2, {})];
    assert SegmentRef(2, {}) in s3.disk.snapshots[2];
    assert 2 in RefIds(s3.disk.snapshots[2]) && 2 !in s3.disk.segments;
  }

  /** Snapshot files are always readable exactly when the policy keeps at least one. */
  lemma ReadableExactlyWhenOneIsKept(n: nat)
    ensures (forall events :: Run(n, events).Some? ==> Complete(Run(n, events).value.disk)) <==> n >= 1
  {
    if n >= 1 {
      forall events | Run(n, events).Some? ensures Complete(Run(n, events).value.disk) {
        RunKeepsInv(n, events);
      }
    } else {
      var events := KeepingNoneLosesFiles();
    }
  }
}
