/** One vector space's directory and the processes that use it: a writer that publishes
    and reclaims generations, and readers that pin them. Each step is one file
    operation, and a process may end between any two. */
module Generations {
  import opened Basics
  import opened VectorChanges
  import opened VectorRevisions

  /** A commit file records the checksums of the two payload files, and so their contents. */
  datatype Commit = Commit(index: Flat, revisions: Revisions)

  /** What a generation was published with, and the text revisions of that moment. */
  datatype Published = Published(commit: Commit, text: Revisions)

  datatype Entry = IndexFile(n: nat) | MetadataFile(n: nat) | CommitFile(n: nat) | LeaseFile(n: nat)
                 | RetiredCommit(n: nat) | Staging(n: nat)

  datatype Reader = Opening | Chosen(gen: nat) | Holding(gen: nat, inode: nat)

  datatype Actor = TheWriter | AReader(r: nat)

  datatype Phase =
    | Idle
    | Poisoned
    | Staged(gen: nat, commit: Commit)
    | IndexPublished(gen: nat, commit: Commit)
    | MetadataPublished(gen: nat, commit: Commit)
    | Gated(gen: nat, commit: Commit)
    | CommitPublished(gen: nat, commit: Commit)
    | Locking(at: nat, retire: set<nat>)
    | Retiring(retired: set<nat>)
    | Checking(orphans: set<nat>)
    | Deleting(garbage: set<Entry>)

  datatype Writer = Down | Up(cached: nat, phase: Phase)

  datatype Space = Space(
    spec: SpaceSpec,
    catalog: seq<nat>,
    index: map<nat, Flat>,
    metadata: map<nat, Revisions>,
    commits: map<nat, Commit>,
    leases: map<nat, nat>,
    retired: set<nat>,
    staging: set<nat>,
    inodes: nat,
    gate: Option<Actor>,
    readers: map<nat, Reader>,
    writer: Writer,
    text: Revisions,
    corrupt: bool,
    log: map<nat, Published>)

  // ---------------------------------------------------------------- reading the directory

  /** The newest catalogued generation, 0 if there is none. */
  function Newest(catalog: seq<nat>): nat {
    if catalog == [] then 0 else catalog[|catalog| - 1]
  }

  ghost predicate Ascending(catalog: seq<nat>) {
    && (forall i :: 0 <= i < |catalog| ==> catalog[i] > 0)
    && forall i, j :: 0 <= i < j < |catalog| ==> catalog[i] < catalog[j]
  }

  /** The catalog is in order and every commit it names exists. */
  ghost predicate CatalogReadable(s: Space) {
    Ascending(s.catalog) && forall n :: n in s.catalog ==> n in s.commits
  }

  /** Every catalogued generation has its payload files too. */
  ghost predicate PayloadsPresent(s: Space) {
    forall n :: n in s.catalog ==> n in s.commits && n in s.index && n in s.metadata
  }

  /** The payloads of a generation, if all files exist and the checksums match. */
  function Load(s: Space, n: nat): Option<Commit> {
    if n == 0 then Some(Commit(Flat(map[], map[]), map[]))
    else if n in s.commits && n in s.index && n in s.metadata && s.commits[n] == Commit(s.index[n], s.metadata[n])
    then Some(s.commits[n])
    else None
  }

  predicate Numbered(s: Space, n: nat) {
    n in s.index || n in s.metadata || n in s.commits
  }

  /** One more than the largest number on any generation file, leases aside. */
  ghost predicate IsNext(s: Space, gen: nat) {
    && 1 <= gen < UINT64_SIZE && (forall n: nat :: Numbered(s, n) ==> n < gen)
    && (gen > 1 ==> Numbered(s, gen - 1))
  }

  predicate Present(s: Space, e: Entry) {
    match e
    case IndexFile(n) => n in s.index
    case MetadataFile(n) => n in s.metadata
    case CommitFile(n) => n in s.commits
    case LeaseFile(n) => n in s.leases
    case RetiredCommit(n) => n in s.retired
    case Staging(n) => n in s.staging
  }

  /** What a sweep removes: files of uncatalogued generations, retired commits, staging. */
  predicate Abandoned(s: Space, e: Entry) {
    Present(s, e) && (e.RetiredCommit? || e.Staging? || e.n !in s.catalog)
  }

  /** Some reader has a shared lock on the lease file that now carries the number. */
  ghost predicate Busy(s: Space, n: nat) {
    n in s.leases && exists r :: r in s.readers && s.readers[r].Holding? && s.readers[r].inode == s.leases[n]
  }

  function Remaining(catalog: seq<nat>, retire: set<nat>): seq<nat> {
    if catalog == [] then []
    else
      var last := catalog[|catalog| - 1];
      Remaining(catalog[..|catalog| - 1], retire) + if last in retire then [] else [last]
  }

  // ---------------------------------------------------------------- steps

  datatype WriterStep =
    | OpenWriter | EndWriter
    | Text(id: Id, revision: Revision) | TextFailed(id: Id, revision: Revision, visible: bool)
    | Upsert(gen: nat, records: seq<VectorRecord>, stale: seq<Change>)
    | PublishIndex | PublishMetadata | TakeGate | PublishCommit | PublishCatalog(tidy: bool) | FailCatalog(visible: bool)
    | GiveUp(tidy: bool)

  datatype MaintenanceStep =
    | StartMaintenance | LockOld | WriteRetirement | FailRetirement(visible: bool)
    | RenameCommit(n: nat) | StartSweep(orphans: set<nat>) | CheckOrphan(n: nat) | StartDeleting(garbage: set<Entry>)
    | Delete(e: Entry) | EndMaintenance

  datatype ReaderStep =
    | TakeReaderGate(r: nat) | LoadCatalog(r: nat) | UseCached(r: nat) | Pin(r: nat) | Ready(r: nat) | EndReader(r: nat)

  datatype Event = Writes(w: WriterStep) | Maintains(m: MaintenanceStep) | Reads(d: ReaderStep)

  predicate InPhase(s: Space, idle: Phase) {
    s.writer.Up? && s.writer.phase == idle
  }

  function Move(s: Space, phase: Phase): Space
    requires s.writer.Up?
  {
    s.(writer := Up(s.writer.cached, phase))
  }

  /** Back to idle, releasing the coordinator if the writer holds it. */
  function Rest(s: Space): Space
    requires s.writer.Up?
  {
    Move(s, Idle).(gate := if s.gate == Some(TheWriter) then None else s.gate)
  }

  function Corrupt(s: Space): Space {
    s.(corrupt := true)
  }

  function WithText(text: Revisions, id: Id, revision: Revision): Revisions {
    if revision == "" then text - {id} else text[id := revision]
  }

  /** Staged content: the current generation's, changed by the records. */
  ghost predicate Acceptable(s: Space, records: seq<VectorRecord>, stale: seq<Change>, base: Commit) {
    && records != [] && Unique(records)
    && (forall r :: r in records ==> GoodRecord(s.spec, r) && RevisionOf(s.text, r.id) == r.revision)
    && Deletions(stale, base.revisions.Keys - Kept(base.revisions, s.text, IdsOf(records)).Keys)
  }

  function Prepared(s: Space, records: seq<VectorRecord>, stale: seq<Change>, base: Commit): Option<Commit> {
    match FlatAfter(base.index, stale + AllChanges(s.spec, records))
    case Err(_) => None
    case Ok(index) => Some(Commit(index, NextRevisions(base.revisions, s.text, records)))
  }

  function Catalogued(s: Space, gen: nat, commit: Commit): Space {
    s.(catalog := s.catalog + [gen], log := s.log[gen := Published(commit, s.text)])
  }

  function Lease(s: Space, n: nat): Space {
    var isNew := n !in s.leases;
    s.(leases := if isNew then s.leases[n := s.inodes] else s.leases, inodes := s.inodes + if isNew then 1 else 0)
  }

  function Without(s: Space, e: Entry): Space {
    match e
    case IndexFile(n) => s.(index := s.index - {n})
    case MetadataFile(n) => s.(metadata := s.metadata - {n})
    case CommitFile(n) => s.(commits := s.commits - {n})
    case LeaseFile(n) => s.(leases := s.leases - {n})
    case RetiredCommit(n) => s.(retired := s.retired - {n})
    case Staging(n) => s.(staging := s.staging - {n})
  }

  predicate Publishing(p: Phase) {
    p.Staged? || p.IndexPublished? || p.MetadataPublished? || p.Gated? || p.CommitPublished?
  }

  predicate Maintaining(p: Phase) {
    p.Locking? || p.Retiring? || p.Checking? || p.Deleting?
  }

  ghost predicate WriterCan(s: Space, e: WriterStep) {
    match e
    case OpenWriter => s.writer.Down?
    case EndWriter => s.writer.Up?
    case Text(id, _) => InPhase(s, Idle) && id != ""
    case TextFailed(id, _, _) => InPhase(s, Idle) && id != ""
    case Upsert(gen, records, stale) =>
      && InPhase(s, Idle) && IsNext(s, gen)
      && var base := Load(s, s.writer.cached);
         base.Some? ==> Acceptable(s, records, stale, base.value)
    case PublishIndex => s.writer.Up? && s.writer.phase.Staged?
    case PublishMetadata => s.writer.Up? && s.writer.phase.IndexPublished?
    case TakeGate => s.writer.Up? && s.writer.phase.MetadataPublished? && s.gate.None?
    case PublishCommit => s.writer.Up? && s.writer.phase.Gated?
    case PublishCatalog(_) => s.writer.Up? && s.writer.phase.CommitPublished?
    case FailCatalog(_) => s.writer.Up? && s.writer.phase.CommitPublished?
    case GiveUp(_) => s.writer.Up? && (Publishing(s.writer.phase) || Maintaining(s.writer.phase)) && !s.writer.phase.CommitPublished?
  }

  ghost predicate MaintenanceCan(s: Space, e: MaintenanceStep) {
    match e
    case StartMaintenance => InPhase(s, Idle) && s.gate.None?
    case LockOld => s.writer.Up? && s.writer.phase.Locking? && s.writer.phase.at + 1 < |s.catalog|
    case WriteRetirement => s.writer.Up? && s.writer.phase.Locking? && s.writer.phase.at + 1 >= |s.catalog|
    case FailRetirement(_) => s.writer.Up? && s.writer.phase.Locking? && s.writer.phase.at + 1 >= |s.catalog|
    case RenameCommit(n) => s.writer.Up? && s.writer.phase.Retiring? && n in s.writer.phase.retired
    case StartSweep(orphans) =>
      && s.writer.Up? && s.writer.phase == Retiring({})
      && forall n :: n in orphans <==> (Numbered(s, n) || n in s.leases) && n !in s.catalog
    case CheckOrphan(n) => s.writer.Up? && s.writer.phase.Checking? && n in s.writer.phase.orphans
    case StartDeleting(garbage) =>
      s.writer.Up? && s.writer.phase == Checking({}) && forall x :: x in garbage <==> Abandoned(s, x)
    case Delete(x) => s.writer.Up? && s.writer.phase.Deleting? && x in s.writer.phase.garbage
    case EndMaintenance => s.writer.Up? && s.writer.phase == Deleting({})
  }

  predicate ReaderCan(s: Space, e: ReaderStep) {
    match e
    case TakeReaderGate(r) => r !in s.readers && s.gate.None?
    case LoadCatalog(r) => r in s.readers && s.readers[r].Opening?
    case UseCached(r) => r in s.readers && s.readers[r].Opening? && InPhase(s, Idle)
    case Pin(r) => r in s.readers && s.readers[r].Chosen?
    case Ready(r) => r in s.readers && s.readers[r].Holding? && s.gate == Some(AReader(r))
    case EndReader(r) => r in s.readers
  }

  ghost predicate Enabled(s: Space, e: Event) {
    match e
    case Writes(w) => WriterCan(s, w)
    case Maintains(m) => MaintenanceCan(s, m)
    case Reads(d) => ReaderCan(s, d)
  }

  ghost function WriterNext(s: Space, e: WriterStep): Space
    requires WriterCan(s, e)
  {
    match e
    case OpenWriter => if CatalogReadable(s) then s.(writer := Up(Newest(s.catalog), Idle)) else Corrupt(s)
    case EndWriter => Rest(s).(writer := Down)
    case Text(id, revision) => s.(text := WithText(s.text, id, revision))
    case TextFailed(id, revision, visible) =>
      Move(if visible then s.(text := WithText(s.text, id, revision)) else s, Poisoned)
    case Upsert(gen, records, stale) =>
      var base := Load(s, s.writer.cached);
      if base.None? then Corrupt(s)
      else
        var next := Prepared(s, records, stale, base.value);
        if next.None? then s else Move(s, Staged(gen, next.value)).(staging := s.staging + {gen})
    case PublishIndex =>
      var p := s.writer.phase;
      Move(s, IndexPublished(p.gen, p.commit)).(index := s.index[p.gen := p.commit.index])
    case PublishMetadata =>
      var p := s.writer.phase;
      Move(s, MetadataPublished(p.gen, p.commit)).(metadata := s.metadata[p.gen := p.commit.revisions])
    case TakeGate =>
      var p := s.writer.phase;
      if CatalogReadable(s) && Newest(s.catalog) == s.writer.cached
      then Move(s, Gated(p.gen, p.commit)).(gate := Some(TheWriter))
      else Corrupt(Rest(s))
    case PublishCommit =>
      var p := s.writer.phase;
      if p.gen in s.index && p.gen in s.metadata
      then Move(s, CommitPublished(p.gen, p.commit)).(commits := s.commits[p.gen := Commit(s.index[p.gen], s.metadata[p.gen])])
      else Corrupt(Rest(s))
    case PublishCatalog(tidy) =>
      var p := s.writer.phase;
      var t := Catalogued(Rest(s), p.gen, p.commit);
      t.(writer := Up(p.gen, Idle), staging := if tidy then s.staging - {p.gen} else s.staging)
    case FailCatalog(visible) =>
      var p := s.writer.phase;
      Move(if visible then Catalogued(Rest(s), p.gen, p.commit) else Rest(s), Poisoned)
    case GiveUp(tidy) =>
      if tidy && Publishing(s.writer.phase) then Rest(s).(staging := s.staging - {s.writer.phase.gen}) else Rest(s)
  }

  /** Tries an exclusive lock on the lease of one older generation. */
  ghost function TryLock(s: Space, at: nat, retire: set<nat>): Space
    requires s.writer.Up? && at < |s.catalog|
  {
    var n := s.catalog[at];
    if Busy(s, n) then Move(s, Locking(at + 1, retire)) else Move(Lease(s, n), Locking(at + 1, retire + {n}))
  }

  function Retired(catalog: seq<nat>, retire: set<nat>): seq<nat> {
    if retire == {} then catalog else Remaining(catalog, retire)
  }

  function Renamed(s: Space, n: nat, retired: set<nat>): Space
    requires s.writer.Up?
  {
    Move(s, Retiring(retired - {n})).(commits := s.commits - {n}, retired := s.retired + {n})
  }

  /** An uncatalogued generation with a lock on its lease is reported as corruption. */
  ghost function Checked(s: Space, n: nat, orphans: set<nat>): Space
    requires s.writer.Up?
  {
    if Busy(s, n) then Corrupt(Rest(s)) else Move(s, Checking(orphans - {n}))
  }

  function Deleted(s: Space, x: Entry, garbage: set<Entry>): Space
    requires s.writer.Up?
  {
    Without(Move(s, Deleting(garbage - {x})), x)
  }

  ghost function MaintenanceNext(s: Space, e: MaintenanceStep): Space
    requires MaintenanceCan(s, e)
  {
    match e
    case StartMaintenance =>
      if CatalogReadable(s) && PayloadsPresent(s)
      then Move(s, Locking(0, {})).(gate := Some(TheWriter))
      else Corrupt(s)
    case LockOld => TryLock(s, s.writer.phase.at, s.writer.phase.retire)
    case WriteRetirement =>
      Move(s, Retiring(s.writer.phase.retire)).(catalog := Retired(s.catalog, s.writer.phase.retire))
    case FailRetirement(visible) =>
      Rest(s).(catalog := if visible then Retired(s.catalog, s.writer.phase.retire) else s.catalog)
    case RenameCommit(n) => Renamed(s, n, s.writer.phase.retired)
    case StartSweep(orphans) => Move(s, Checking(orphans))
    case CheckOrphan(n) => Checked(s, n, s.writer.phase.orphans)
    case StartDeleting(garbage) => Move(s, Deleting(garbage))
    case Delete(x) => Deleted(s, x, s.writer.phase.garbage)
    case EndMaintenance => Rest(s)
  }

  ghost function ReaderNext(s: Space, e: ReaderStep): Space
    requires ReaderCan(s, e)
  {
    match e
    case TakeReaderGate(r) => s.(readers := s.readers[r := Opening], gate := Some(AReader(r)))
    case LoadCatalog(r) => if CatalogReadable(s) then s.(readers := s.readers[r := Chosen(Newest(s.catalog))]) else Corrupt(s)
    case UseCached(r) => s.(readers := s.readers[r := Chosen(s.writer.cached)])
    case Pin(r) =>
      var g := s.readers[r].gen;
      if g == 0 then s.(readers := s.readers[r := Holding(0, 0)])
      else
        var t := Lease(s, g);
        t.(readers := s.readers[r := Holding(g, t.leases[g])])
    case Ready(_) => s.(gate := None)
    case EndReader(r) => s.(readers := s.readers - {r}, gate := if s.gate == Some(AReader(r)) then None else s.gate)
  }

  /** The space after an enabled event. An error that reports corruption is recorded. */
  ghost function Next(s: Space, e: Event): Space
    requires Enabled(s, e)
  {
    match e
    case Writes(w) => WriterNext(s, w)
    case Maintains(m) => MaintenanceNext(s, m)
    case Reads(d) => ReaderNext(s, d)
  }

  /** A registered space with nothing published. */
  predicate Initial(s: Space) {
    && s.catalog == [] && s.index == map[] && s.metadata == map[] && s.commits == map[] && s.leases == map[]
    && s.retired == {} && s.staging == {} && s.inodes == 1 && s.gate == None && s.readers == map[]
    && s.writer == Down && s.text == map[] && !s.corrupt && s.log == map[]
  }

  ghost predicate IsRun(states: seq<Space>, events: seq<Event>) {
    && |states| == |events| + 1 && Initial(states[0])
    && forall i :: 0 <= i < |events| ==> Enabled(states[i], events[i]) && states[i + 1] == Next(states[i], events[i])
  }
}
