/** The text index as a state machine: batches, merges and persists race to replace
    the root, files are written and reclaimed, and the process may stop between any
    two of these steps and reopen the directory. */
module IndexProtocol {
  import opened Basics
  import opened Segments
  import opened Introducer
  import opened LiveDocuments
  import opened DeletionPolicy

  // ---------------------------------------------------------------- state

  datatype Merge = Merge(id: nat, sources: seq<SegmentSnapshot>, empties: set<nat>)
  {
    function Old(): OldMap {
      OldMapOf(sources) + NoEntries(empties)
    }

    function Nums(): DocNums {
      DocNumsOf(sources)
    }

    function Merged(): Option<seq<Doc>> {
      if sources == [] then None else Some(MergedDocs(sources))
    }
  }

  /** Work between its preparation and its introduction, by the segment id it was given. */
  datatype Pending = PendingBatch(next: Introduction) | PendingMerge(merge: Merge) | Orphan

  /** What the persister is busy with; snap is the snapshot it will write. */
  datatype Persister =
    | Idle
    | Merging(snap: Snapshot, id: nat)
    | Writing(snap: Snapshot)
    | Swapped(snap: Snapshot)

  /** log, logAt and acked are history: the batches introduced so far, how many of them
      were in the root of each epoch, and how many were reported persisted. */
  datatype State = State(
    root: Snapshot, past: set<Snapshot>, nextEpoch: nat, lastId: nat, pending: map<nat, Pending>,
    persister: Persister, lastPersisted: nat, policy: Policy, disk: Disk,
    log: seq<Batch>, logAt: map<nat, nat>, acked: nat)

  datatype Event =
    | PrepareBatch(from: Snapshot, docs: seq<Doc>, idTerms: set<Term>)
    | IntroduceBatch(id: nat)
    | PlanMerge(from: Snapshot, task: seq<SegmentSnapshot>)
    | IntroduceMerge(id: nat)
    | Abandon(id: nat)
    | RemoveOrphan(id: nat)
    | TakeSnapshot
    | PlanMemoryMerge
    | IntroduceMemoryMerge
    | GiveUpMerge
    | WriteSegment(seg: SegmentSnapshot)
    | SwapIn
    | WriteSnapshot
    | GiveUp
    | Cleanup(gone: set<nat>, removed: set<nat>)
    | Crash

  ghost function Max(s: set<nat>): (m: nat)
    requires s != {}
    ensures m in s && forall x :: x in s ==> x <= m
  {
    var y :| y in s;
    var rest := s - {y};
    assert s == rest + {y};
    if rest == {} then y else if Max(rest) < y then y else Max(rest)
  }

  function Last(s: seq<nat>): nat
    requires s != []
  {
    s[|s| - 1]
  }

  // ---------------------------------------------------------------- pieces of the steps

  function NonEmpty(task: seq<SegmentSnapshot>): seq<SegmentSnapshot> {
    if task == [] then []
    else
      var s := task[|task| - 1];
      NonEmpty(task[..|task| - 1]) + if s.LiveSize() == 0 then [] else [s]
  }

  function EmptyIds(task: seq<SegmentSnapshot>): set<nat> {
    set s | s in task && s.LiveSize() == 0 :: s.id
  }

  function InMemory(segs: seq<SegmentSnapshot>): seq<SegmentSnapshot> {
    if segs == [] then []
    else
      var s := segs[|segs| - 1];
      InMemory(segs[..|segs| - 1]) + if s.persisted then [] else [s]
  }

  function OnDisk(segs: seq<SegmentSnapshot>): seq<SegmentSnapshot> {
    if segs == [] then []
    else
      var s := segs[|segs| - 1];
      OnDisk(segs[..|segs| - 1]) + if s.persisted then [s] else []
  }

  /** The snapshot written after an in-memory merge: the segments that were already
      on disk, and the merged segment in place of the others. */
  function Equivalent(snap: Snapshot, id: nat): Snapshot {
    MakeSnapshot(snap.epoch,
      OnDisk(snap.segment) + [SegmentSnapshot(id, MergedDocs(InMemory(snap.segment)), true, {})])
  }

  function Refs(segs: seq<SegmentSnapshot>): seq<SegmentRef> {
    seq(|segs|, i requires 0 <= i < |segs| => SegmentRef(segs[i].id, segs[i].deleted))
  }

  /** A snapshot file read back with its segment files. */
  function Loaded(files: map<nat, seq<Doc>>, refs: seq<SegmentRef>): seq<SegmentSnapshot> {
    seq(|refs|, i requires 0 <= i < |refs| =>
      SegmentSnapshot(refs[i].id, if refs[i].id in files then files[refs[i].id] else [], true, refs[i].deleted))
  }

  /** Every snapshot found on disk is committed to a fresh policy, oldest first. */
  ghost function LoadPolicy(n: nat, snapshots: map<nat, seq<SegmentRef>>, epochs: set<nat>): Policy
    requires epochs <= snapshots.Keys
  {
    if epochs == {} then NewPolicy(n)
    else
      var e := Max(epochs);
      Commit(LoadPolicy(n, snapshots, epochs - {e}), e, RefIds(snapshots[e]))
  }

  function Skips(s: State, m: Merge): bool {
    MergeSkipped(m.Merged(), LateNumbers(s.root.segment, m.Old(), m.Nums(), m.Old().Keys))
  }

  function Replace(s: State, segs: seq<SegmentSnapshot>, log: seq<Batch>, gone: set<nat>): State {
    var root := MakeSnapshot(s.nextEpoch, segs);
    s.(root := root, past := s.past + {root}, nextEpoch := s.nextEpoch + 1, pending := s.pending - gone,
       log := log, logAt := s.logAt[s.nextEpoch := |log|])
  }

  function IntroduceMergeIn(s: State, m: Merge): State {
    var t := Replace(s, MergeRoot(s.root.segment, m.id, m.Old(), m.Nums(), m.Merged()), s.log, {m.id});
    if Skips(s, m) then t.(pending := t.pending[m.id := Orphan]) else t
  }

  /** Opening the directory: the newest snapshot becomes the root. */
  ghost function Open(n: nat, disk: Disk, log: seq<Batch>, logAt: map<nat, nat>, acked: nat): State {
    var lastId := if disk.segments == map[] then 1 else Max(disk.segments.Keys) + 1;
    var policy := LoadPolicy(n, disk.snapshots, disk.snapshots.Keys);
    var tracked := policy.(known := policy.known + disk.segments.Keys);
    if disk.snapshots == map[] then
      var root := MakeSnapshot(0, []);
      State(root, {root}, 1, lastId, map[], Idle, 0, tracked, disk, [], map[0 := 0], acked)
    else
      var e := Max(disk.snapshots.Keys);
      var root := MakeSnapshot(e, Loaded(disk.segments, disk.snapshots[e]));
      State(root, {root}, e + 1, lastId, map[], Idle, e, tracked, disk,
            if e in logAt && logAt[e] <= |log| then log[..logAt[e]] else log,
            map x | x in logAt && x <= e :: logAt[x], acked)
  }

  ghost function Initial(n: nat): State {
    Open(n, Disk(map[], map[]), [], map[], 0)
  }

  // ---------------------------------------------------------------- what each step does

  function PrepareIn(s: State, from: Snapshot, docs: seq<Doc>, idTerms: set<Term>): State {
    var id := s.lastId + 1;
    var next := Prepare(from.segment, id, if docs == [] then None else Some(docs), idTerms);
    s.(lastId := id, pending := s.pending[id := PendingBatch(next)])
  }

  function IntroduceBatchIn(s: State, next: Introduction): State {
    Replace(s, SegmentRoot(s.root.segment, next), s.log + [next.AsBatch()], {next.id})
  }

  /** The merged file is written before the merge is offered to the introducer. */
  function PlanIn(s: State, m: Merge): State {
    s.(lastId := m.id, pending := s.pending[m.id := PendingMerge(m)],
       disk := if m.sources == [] then s.disk
               else s.disk.(segments := s.disk.segments[m.id := MergedDocs(m.sources)]))
  }

  function AbandonIn(s: State, id: nat): State
    requires id in s.pending
  {
    s.(pending := if s.pending[id].PendingBatch? then s.pending - {id} else s.pending[id := Orphan])
  }

  function RemoveOrphanIn(s: State, id: nat): State {
    s.(pending := s.pending - {id}, disk := s.disk.(segments := s.disk.segments - {id}))
  }

  function PlanMemoryMergeIn(s: State, snap: Snapshot): State {
    var m := Merge(s.lastId + 1, InMemory(snap.segment), {});
    PlanIn(s, m).(persister := Merging(snap, m.id))
  }

  function IntroduceMemoryMergeIn(s: State, snap: Snapshot, m: Merge): State {
    IntroduceMergeIn(s, m).(persister := Writing(if Skips(s, m) then snap else Equivalent(snap, m.id)))
  }

  /** The merged file cannot be loaded or the writer closes: the file is left to be removed,
      and the persister starts over with a later snapshot or ends. */
  function GiveUpMergeIn(s: State, id: nat): State
    requires id in s.pending
  {
    AbandonIn(s.(persister := Idle), id)
  }

  function WriteSegmentIn(s: State, seg: SegmentSnapshot): State {
    s.(disk := s.disk.(segments := s.disk.segments[seg.id := seg.docs]))
  }

  function SwapPersistedIn(s: State, snap: Snapshot): State {
    Replace(s, PersistRoot(s.root.segment, Ids(InMemory(snap.segment))), s.log, {}).(persister := Swapped(snap))
  }

  /** The snapshot file is written, then committed to the deletion policy; the batches
      it holds are reported persisted. */
  function WriteSnapshotIn(s: State, snap: Snapshot): State {
    s.(disk := s.disk.(snapshots := s.disk.snapshots[snap.epoch := Refs(snap.segment)]),
       policy := Commit(s.policy, snap.epoch, RefIds(Refs(snap.segment))),
       persister := Idle, lastPersisted := snap.epoch,
       acked := if snap.epoch in s.logAt then s.logAt[snap.epoch] else s.acked)
  }

  function CleanUpIn(s: State, gone: set<nat>, removed: set<nat>): State {
    s.(policy := s.policy.(deletableEpochs := Without(s.policy.deletableEpochs, gone),
                           liveSegments := s.policy.liveSegments - gone, known := s.policy.known - removed),
       disk := Disk(s.disk.segments - removed, s.disk.snapshots - gone))
  }

  ghost predicate MayClean(s: State, gone: set<nat>, removed: set<nat>) {
    && s.persister.Idle? && gone <= Elements(s.policy.deletableEpochs) && removed <= s.policy.known
    && removed !! s.policy.(liveSegments := s.policy.liveSegments - gone).Referenced()
  }

  ghost function CrashIn(s: State): State {
    Open(s.policy.n, s.disk, s.log, s.logAt, s.acked)
  }

  // ---------------------------------------------------------------- steps

  predicate ReadyToWrite(s: State) {
    s.persister.Swapped? || (s.persister.Writing? && InMemory(s.persister.snap.segment) == [])
  }

  predicate OtherMerge(s: State, id: nat) {
    s.persister.Merging? ==> s.persister.id != id
  }

  ghost predicate Enabled(s: State, ev: Event) {
    match ev
    case PrepareBatch(from, _, _) => from in s.past
    case IntroduceBatch(id) => id in s.pending && s.pending[id].PendingBatch?
    case PlanMerge(from, task) =>
      from in s.past && DistinctIds(task) && forall q :: q in task ==> q in from.segment && q.persisted
    case IntroduceMerge(id) => id in s.pending && s.pending[id].PendingMerge? && OtherMerge(s, id)
    case Abandon(id) => id in s.pending && OtherMerge(s, id)
    case RemoveOrphan(id) => id in s.pending && s.pending[id].Orphan?
    case TakeSnapshot => s.persister.Idle? && s.root.epoch > s.lastPersisted
    case PlanMemoryMerge => s.persister.Writing? && InMemory(s.persister.snap.segment) != []
    case IntroduceMemoryMerge =>
      s.persister.Merging? && s.persister.id in s.pending && s.pending[s.persister.id].PendingMerge?
    case GiveUpMerge => s.persister.Merging? && s.persister.id in s.pending
    case WriteSegment(seg) => s.persister.Writing? && seg in s.persister.snap.segment && !seg.persisted
    case SwapIn => s.persister.Writing? && Ids(s.persister.snap.segment) <= s.disk.segments.Keys
    case WriteSnapshot => ReadyToWrite(s)
    case GiveUp => s.persister.Writing? || s.persister.Swapped?
    case Cleanup(gone, removed) => MayClean(s, gone, removed)
    case Crash => true
  }

  ghost function Next(s: State, ev: Event): State
    requires Enabled(s, ev)
  {
    match ev
    case PrepareBatch(from, docs, idTerms) => PrepareIn(s, from, docs, idTerms)
    case IntroduceBatch(id) => IntroduceBatchIn(s, s.pending[id].next)
    case PlanMerge(from, task) => PlanIn(s, Merge(s.lastId + 1, NonEmpty(task), EmptyIds(task)))
    case IntroduceMerge(id) => IntroduceMergeIn(s, s.pending[id].merge)
    case Abandon(id) => AbandonIn(s, id)
    case RemoveOrphan(id) => RemoveOrphanIn(s, id)
    case TakeSnapshot => s.(persister := Writing(s.root))
    case PlanMemoryMerge => PlanMemoryMergeIn(s, s.persister.snap)
    case IntroduceMemoryMerge => IntroduceMemoryMergeIn(s, s.persister.snap, s.pending[s.persister.id].merge)
    case GiveUpMerge => GiveUpMergeIn(s, s.persister.id)
    case WriteSegment(seg) => WriteSegmentIn(s, seg)
    case SwapIn => SwapPersistedIn(s, s.persister.snap)
    case WriteSnapshot => WriteSnapshotIn(s, s.persister.snap)
    case GiveUp => s.(persister := Idle)
    case Cleanup(gone, removed) => CleanUpIn(s, gone, removed)
    case Crash => CrashIn(s)
  }

  /** The state after these events from an empty directory, if each was possible. */
  ghost function Run(n: nat, events: seq<Event>): Option<State> {
    if events == [] then Some(Initial(n))
    else
      match Run(n, events[..|events| - 1])
      case None => None
      case Some(p) => if Enabled(p, events[|events| - 1]) then Some(Next(p, events[|events| - 1])) else None
  }
}
