/** What every step of publishing, pinning and reclaiming generations keeps. */
module GenerationSafety {
  import opened Basics
  import opened VectorChanges
  import opened VectorRevisions
  import opened Generations

  // ---------------------------------------------------------------- the invariant

  /** Catalogued generations are in order, were published, and have all their files. */
  ghost predicate Whole(s: Space, n: nat) {
    && n in s.log && n in s.index && n in s.metadata && n in s.commits
    && s.log[n].commit == Commit(s.index[n], s.metadata[n]) == s.commits[n]
  }

  ghost predicate CatalogInv(s: Space) {
    && Ascending(s.catalog)
    && (forall n :: n in s.catalog ==> Whole(s, n))
    && (forall n :: n in s.log ==> 0 < n <= Newest(s.catalog))
  }

  /** Every generation ever published agreed with the text of its moment. */
  ghost predicate Sound(spec: SpaceSpec, p: Published) {
    Agreement(spec, p.commit.index, p.commit.revisions) && Current(p.commit.revisions, p.text)
  }

  ghost predicate LogInv(s: Space) {
    forall n :: n in s.log ==> Sound(s.spec, s.log[n])
  }

  ghost predicate LeaseInv(s: Space) {
    && s.inodes >= 1
    && (forall n :: n in s.leases ==> 0 < s.leases[n] < s.inodes)
    && (forall n, m :: n in s.leases && m in s.leases && n != m ==> s.leases[n] != s.leases[m])
  }

  ghost predicate ReaderOk(s: Space, r: nat, reader: Reader) {
    match reader
    case Opening => s.gate == Some(AReader(r))
    case Chosen(g) => s.gate == Some(AReader(r)) && g == Newest(s.catalog) && (g == 0 || g in s.catalog)
    case Holding(g, inode) =>
      && (if g == 0 then inode == 0 else g in s.catalog && g in s.leases && s.leases[g] == inode)
      && (s.gate == Some(AReader(r)) ==> g == Newest(s.catalog))
  }

  /** A pinned generation is catalogued, and its lock is on the lease file of its number;
      while its reader has the coordinator it is the newest. */
  ghost predicate ReadersInv(s: Space) {
    && (forall r :: r in s.readers ==> ReaderOk(s, r, s.readers[r]))
    && (s.gate.Some? && s.gate.value.AReader? ==> s.gate.value.r in s.readers)
  }

  predicate NeedsGate(p: Phase) {
    p.Gated? || p.CommitPublished? || Maintaining(p)
  }

  ghost predicate GateInv(s: Space) {
    s.gate == Some(TheWriter) <==> s.writer.Up? && NeedsGate(s.writer.phase)
  }

  ghost predicate Held(s: Space, n: nat) {
    exists r :: r in s.readers && s.readers[r].Holding? && s.readers[r].gen == n
  }

  ghost predicate PublishOk(s: Space, gen: nat, commit: Commit) {
    && gen > Newest(s.catalog)
    && Agreement(s.spec, commit.index, commit.revisions) && Current(commit.revisions, s.text)
  }

  /** A file that belongs to no catalogued generation, or that only a sweep looks at. */
  predicate Removable(s: Space, e: Entry) {
    e.RetiredCommit? || e.Staging? || e.n !in s.catalog
  }

  ghost predicate PhaseOk(s: Space, p: Phase) {
    match p
    case Idle => true
    case Poisoned => true
    case Staged(gen, commit) => PublishOk(s, gen, commit)
    case IndexPublished(gen, commit) => PublishOk(s, gen, commit) && gen in s.index && s.index[gen] == commit.index
    case MetadataPublished(gen, commit) => PublishOk(s, gen, commit) && Payloads(s, gen, commit)
    case Gated(gen, commit) => PublishOk(s, gen, commit) && Payloads(s, gen, commit)
    case CommitPublished(gen, commit) =>
      PublishOk(s, gen, commit) && Payloads(s, gen, commit) && gen in s.commits && s.commits[gen] == commit
    case Locking(_, retire) => RetireOk(s, retire)
    case Retiring(retired) => forall n :: n in retired ==> n !in s.catalog
    case Checking(orphans) => forall n :: n in orphans ==> n !in s.catalog
    case Deleting(garbage) =>
      (forall e :: e in garbage ==> Removable(s, e)) && (forall e :: Abandoned(s, e) ==> e in garbage)
  }

  ghost predicate Payloads(s: Space, gen: nat, commit: Commit) {
    gen in s.index && s.index[gen] == commit.index && gen in s.metadata && s.metadata[gen] == commit.revisions
  }

  /** Generations about to be retired are older than the newest and held by no reader. */
  ghost predicate RetireOk(s: Space, retire: set<nat>) {
    forall n :: n in retire ==> n != Newest(s.catalog) && !Held(s, n)
  }

  ghost predicate WriterInv(s: Space) {
    s.writer.Up? ==>
      && (!s.writer.phase.Poisoned? ==> s.writer.cached == Newest(s.catalog))
      && PhaseOk(s, s.writer.phase)
  }

  ghost predicate Inv(s: Space) {
    && !s.corrupt && CatalogInv(s) && LogInv(s) && LeaseInv(s) && ReadersInv(s) && GateInv(s) && WriterInv(s)
  }

  // ---------------------------------------------------------------- small facts

  lemma NewestIsLast(catalog: seq<nat>)
    requires Ascending(catalog)
    ensures forall n :: n in catalog ==> 0 < n <= Newest(catalog)
    ensures catalog != [] ==> Newest(catalog) in catalog
  {
  }

  lemma AscendingSnoc(catalog: seq<nat>, gen: nat)
    requires Ascending(catalog) && gen > Newest(catalog)
    ensures Ascending(catalog + [gen]) && Newest(catalog + [gen]) == gen && gen !in catalog
  {
    NewestIsLast(catalog);
  }

  lemma {:induction false} RemainingFacts(catalog: seq<nat>, retire: set<nat>)
    requires Ascending(catalog)
    ensures Ascending(Remaining(catalog, retire))
    ensures forall n :: n in Remaining(catalog, retire) <==> n in catalog && n !in retire
    ensures Newest(catalog) !in retire ==> Newest(Remaining(catalog, retire)) == Newest(catalog)
  {
    if catalog != [] {
      var init, last := catalog[..|catalog| - 1], catalog[|catalog| - 1];
      RemainingFacts(init, retire);
      assert catalog == init + [last];
      if last !in retire { RemainingSnoc(init, last, Remaining(init, retire)); }
    }
  }

  lemma RemainingSnoc(init: seq<nat>, last: nat, part: seq<nat>)
    requires Ascending(init + [last]) && Ascending(part) && forall n :: n in part ==> n in init
    ensures Ascending(part + [last])
  {
    forall i | 0 <= i < |part| ensures part[i] < last {
      assert part[i] in init;
      var j :| 0 <= j < |init| && init[j] == part[i];
      assert (init + [last])[j] < (init + [last])[|init|];
    }
    assert (init + [last])[|init|] == last;
  }

  /** The lock test finds exactly the pinned generations. */
  lemma BusyIsHeld(s: Space, n: nat)
    requires LeaseInv(s) && ReadersInv(s) && n > 0
    ensures Busy(s, n) <==> Held(s, n)
  {
    if Busy(s, n) {
      var r :| r in s.readers && s.readers[r].Holding? && s.readers[r].inode == s.leases[n];
      assert ReaderOk(s, r, s.readers[r]);
      assert s.readers[r].gen == n;
    }
    if Held(s, n) {
      var r :| r in s.readers && s.readers[r].Holding? && s.readers[r].gen == n;
      assert ReaderOk(s, r, s.readers[r]);
    }
  }

  // ---------------------------------------------------------------- what a step leaves alone

  ghost predicate SameHistory(s: Space, t: Space) {
    t.spec == s.spec && t.log == s.log && t.catalog == s.catalog
  }

  /** What the writer is in the middle of: a commit being published, or leases being tried. */
  datatype Work = NoWork | Publication(commit: Commit) | Retirement(at: nat, retire: set<nat>)

  function WorkOf(w: Writer): Work {
    if w.Down? then NoWork
    else if Publishing(w.phase) then Publication(w.phase.commit)
    else if w.phase.Locking? && w.phase.at > 0 then Retirement(w.phase.at, w.phase.retire)
    else NoWork
  }

  /** The text is the same, and the work is the same or over. */
  ghost predicate GoesOn(s: Space, t: Space) {
    t.text == s.text && (WorkOf(t.writer) == NoWork || WorkOf(t.writer) == WorkOf(s.writer))
  }

  ghost predicate SamePublished(s: Space, t: Space) {
    && t.spec == s.spec && t.catalog == s.catalog && t.log == s.log
    && t.index == s.index && t.metadata == s.metadata && t.commits == s.commits
  }

  lemma PublishedKept(s: Space, t: Space)
    requires CatalogInv(s) && LogInv(s) && SamePublished(s, t)
    ensures CatalogInv(t) && LogInv(t)
  {
    forall n | n in t.catalog ensures Whole(t, n) { assert Whole(s, n); }
  }

  /** Files of uncatalogued numbers may come and go. */
  lemma OtherFilesKeep(s: Space, t: Space)
    requires CatalogInv(s) && LogInv(s) && t.spec == s.spec && t.catalog == s.catalog && t.log == s.log
    requires forall n :: n in s.catalog ==>
      && (n in s.index ==> n in t.index && t.index[n] == s.index[n])
      && (n in s.metadata ==> n in t.metadata && t.metadata[n] == s.metadata[n])
      && (n in s.commits ==> n in t.commits && t.commits[n] == s.commits[n])
    ensures CatalogInv(t) && LogInv(t)
  {
    forall n | n in t.catalog ensures Whole(t, n) { assert Whole(s, n); }
  }

  lemma LeasesKept(s: Space, t: Space)
    requires LeaseInv(s) && t.leases == s.leases && t.inodes == s.inodes
    ensures LeaseInv(t)
  {
  }

  ghost predicate SameReaderGate(s: Space, t: Space) {
    forall r: nat :: s.gate == Some(AReader(r)) <==> t.gate == Some(AReader(r))
  }

  lemma ReadersKept(s: Space, t: Space)
    requires ReadersInv(s) && t.readers == s.readers && t.catalog == s.catalog && t.leases == s.leases
    requires SameReaderGate(s, t)
    ensures ReadersInv(t)
  {
    forall r | r in t.readers ensures ReaderOk(t, r, t.readers[r]) { assert ReaderOk(s, r, s.readers[r]); }
    if t.gate.Some? && t.gate.value.AReader? { assert s.gate == Some(AReader(t.gate.value.r)); }
  }

  /** Only the writer's own phase, the gate, the text or staging changed. */
  lemma FilesKept(s: Space, t: Space)
    requires CatalogInv(s) && LogInv(s) && LeaseInv(s) && ReadersInv(s)
    requires SamePublished(s, t) && t.leases == s.leases && t.inodes == s.inodes && t.readers == s.readers
    requires SameReaderGate(s, t)
    ensures CatalogInv(t) && LogInv(t) && LeaseInv(t) && ReadersInv(t)
  {
    PublishedKept(s, t);
    LeasesKept(s, t);
    ReadersKept(s, t);
  }

  // ---------------------------------------------------------------- steps of the writer

  lemma CatalogIsReadable(s: Space)
    requires CatalogInv(s)
    ensures CatalogReadable(s) && PayloadsPresent(s)
  {
    forall n | n in s.catalog ensures n in s.commits && n in s.index && n in s.metadata { assert Whole(s, n); }
  }

  lemma OpenWriterKeeps(s: Space)
    requires Inv(s) && s.writer.Down?
    ensures Inv(WriterNext(s, OpenWriter))
    ensures SameHistory(s, WriterNext(s, OpenWriter)) && GoesOn(s, WriterNext(s, OpenWriter))
  {
    hide CatalogInv, LogInv, LeaseInv, ReadersInv;
    CatalogIsReadable(s);
    FilesKept(s, WriterNext(s, OpenWriter));
  }

  lemma EndWriterKeeps(s: Space)
    requires Inv(s) && s.writer.Up?
    ensures Inv(WriterNext(s, EndWriter))
    ensures SameHistory(s, WriterNext(s, EndWriter)) && GoesOn(s, WriterNext(s, EndWriter))
  {
    hide CatalogInv, LogInv, LeaseInv, ReadersInv;
    FilesKept(s, WriterNext(s, EndWriter));
  }

  lemma AnyPhase(s: Space)
    ensures PhaseOk(s, Idle) && PhaseOk(s, Poisoned)
  {
  }

  lemma TextSetKeeps(s: Space, e: WriterStep)
    requires Inv(s) && e.Text? && WriterCan(s, e)
    ensures Inv(WriterNext(s, e))
    ensures SameHistory(s, WriterNext(s, e)) && WorkOf(WriterNext(s, e).writer) == NoWork
    ensures WriterNext(s, e).text == WithText(s.text, e.id, e.revision)
  {
    hide CatalogInv, LogInv, LeaseInv, ReadersInv, PhaseOk, WithText;
    AnyPhase(WriterNext(s, e));
    FilesKept(s, WriterNext(s, e));
  }

  lemma TextFailedKeeps(s: Space, e: WriterStep)
    requires Inv(s) && e.TextFailed? && WriterCan(s, e)
    ensures Inv(WriterNext(s, e))
    ensures SameHistory(s, WriterNext(s, e)) && WorkOf(WriterNext(s, e).writer) == NoWork
    ensures WriterNext(s, e).text == if e.visible then WithText(s.text, e.id, e.revision) else s.text
  {
    hide CatalogInv, LogInv, LeaseInv, ReadersInv, PhaseOk, WithText;
    AnyPhase(WriterNext(s, e));
    FilesKept(s, WriterNext(s, e));
  }

  lemma TextKeeps(s: Space, e: WriterStep)
    requires Inv(s) && (e.Text? || e.TextFailed?) && WriterCan(s, e)
    ensures Inv(WriterNext(s, e))
    ensures SameHistory(s, WriterNext(s, e)) && WorkOf(WriterNext(s, e).writer) == NoWork
    ensures
      WriterNext(s, e).text == if e.Text? || e.visible then WithText(s.text, e.id, e.revision) else s.text
  {
    hide Inv, WriterNext, WithText;
    if e.Text? { TextSetKeeps(s, e); } else { TextFailedKeeps(s, e); }
  }

  /** Staging starts from the newest generation's payloads, which can always be loaded,
      and its result agrees with the current text. */
  lemma UpsertKeeps(s: Space, gen: nat, records: seq<VectorRecord>, stale: seq<Change>)
    requires Inv(s) && WriterCan(s, Upsert(gen, records, stale))
    ensures
      var t := WriterNext(s, Upsert(gen, records, stale));
      Inv(t) && SameHistory(s, t) && t.writer.Up? && t.writer.phase.Staged?
  {
    hide CatalogInv, LogInv, LeaseInv, ReadersInv, IsNext, Acceptable, Agreement, FlatAfter, NextRevisions;
    NewestLoads(s);
    var base := Load(s, s.writer.cached).value;
    PreparedAgrees(s, records, stale, base);
    NextIsNewer(s, gen);
    FilesKept(s, WriterNext(s, Upsert(gen, records, stale)));
  }

  lemma NewestLoads(s: Space)
    requires CatalogInv(s) && LogInv(s)
    ensures Load(s, Newest(s.catalog)).Some?
    ensures
      var c := Load(s, Newest(s.catalog)).value;
      Agreement(s.spec, c.index, c.revisions)
  {
    var n := Newest(s.catalog);
    NewestIsLast(s.catalog);
    if n != 0 { assert Whole(s, n) && Sound(s.spec, s.log[n]); }
  }

  lemma NextIsNewer(s: Space, gen: nat)
    requires CatalogInv(s) && IsNext(s, gen)
    ensures gen > Newest(s.catalog)
  {
    var n := Newest(s.catalog);
    NewestIsLast(s.catalog);
    if n != 0 { assert Whole(s, n) && Numbered(s, n); }
  }

  lemma PreparedAgrees(s: Space, records: seq<VectorRecord>, stale: seq<Change>, base: Commit)
    requires Agreement(s.spec, base.index, base.revisions) && Acceptable(s, records, stale, base)
    ensures Prepared(s, records, stale, base).Some?
    ensures
      var c := Prepared(s, records, stale, base).value;
      Agreement(s.spec, c.index, c.revisions) && Current(c.revisions, s.text)
  {
    AppliedAgrees(s.spec, base.index, base.revisions, s.text, records, stale);
    NextIsCurrent(base.revisions, s.text, records);
  }

  lemma PublishPayloadKeeps(s: Space, e: WriterStep)
    requires Inv(s) && (e.PublishIndex? || e.PublishMetadata?) && WriterCan(s, e)
    ensures Inv(WriterNext(s, e))
    ensures SameHistory(s, WriterNext(s, e)) && GoesOn(s, WriterNext(s, e))
  {
    hide CatalogInv, LogInv, LeaseInv, ReadersInv, Agreement;
    var t := WriterNext(s, e);
    NewerIsUncatalogued(s, s.writer.phase.gen);
    OtherFilesKeep(s, t);
    LeasesKept(s, t);
    ReadersKept(s, t);
  }

  lemma NewerIsUncatalogued(s: Space, gen: nat)
    requires CatalogInv(s) && gen > Newest(s.catalog)
    ensures gen !in s.catalog && gen !in s.log
  {
    NewestIsLast(s.catalog);
  }

  lemma TakeGateKeeps(s: Space)
    requires Inv(s) && WriterCan(s, TakeGate)
    ensures Inv(WriterNext(s, TakeGate))
    ensures SameHistory(s, WriterNext(s, TakeGate)) && GoesOn(s, WriterNext(s, TakeGate))
  {
    hide CatalogInv, LogInv, LeaseInv, ReadersInv, Agreement;
    CatalogIsReadable(s);
    FilesKept(s, WriterNext(s, TakeGate));
  }

  lemma PublishCommitKeeps(s: Space)
    requires Inv(s) && WriterCan(s, PublishCommit)
    ensures Inv(WriterNext(s, PublishCommit))
    ensures SameHistory(s, WriterNext(s, PublishCommit)) && GoesOn(s, WriterNext(s, PublishCommit))
  {
    hide CatalogInv, LogInv, LeaseInv, ReadersInv, Agreement;
    var t := WriterNext(s, PublishCommit);
    NewerIsUncatalogued(s, s.writer.phase.gen);
    OtherFilesKeep(s, t);
    LeasesKept(s, t);
    ReadersKept(s, t);
  }

  /** The moment of publication: the new number tops the catalog and the log records it. */
  lemma CataloguedKeeps(s: Space, gen: nat, commit: Commit, t: Space)
    requires CatalogInv(s) && LogInv(s) && PublishOk(s, gen, commit) && Payloads(s, gen, commit)
    requires gen in s.commits && s.commits[gen] == commit
    requires t.spec == s.spec && t.catalog == s.catalog + [gen] && t.log == s.log[gen := Published(commit, s.text)]
    requires t.index == s.index && t.metadata == s.metadata && t.commits == s.commits
    ensures CatalogInv(t) && LogInv(t) && Newest(t.catalog) == gen
  {
    hide Agreement;
    AscendingSnoc(s.catalog, gen);
    NewestIsLast(s.catalog);
    forall n | n in t.catalog ensures Whole(t, n) {
      if n != gen { assert Whole(s, n); }
    }
    forall n | n in t.log ensures Sound(t.spec, t.log[n]) && 0 < n <= gen {
      if n != gen { assert Sound(s.spec, s.log[n]); }
    }
  }

  lemma ReadersSeeMore(s: Space, t: Space)
    requires ReadersInv(s) && t.readers == s.readers && t.leases == s.leases
    requires forall n :: n in s.catalog ==> n in t.catalog
    requires SameReaderGate(s, t) && s.gate == Some(TheWriter)
    ensures ReadersInv(t)
  {
    forall r | r in t.readers ensures ReaderOk(t, r, t.readers[r]) { assert ReaderOk(s, r, s.readers[r]); }
    forall r: nat ensures t.gate != Some(AReader(r)) { assert s.gate != Some(AReader(r)); }
  }

  /** The catalog grew by one number, newer than all before, and the log by its entry. */
  ghost predicate PublishedAs(s: Space, t: Space, gen: nat, commit: Commit) {
    && t.spec == s.spec && gen > Newest(s.catalog) && gen !in s.log
    && t.catalog == s.catalog + [gen] && t.log == s.log[gen := Published(commit, s.text)]
    && t.text == s.text && WorkOf(t.writer) == NoWork
  }

  lemma PublishCatalogKeeps(s: Space, tidy: bool)
    requires Inv(s) && WriterCan(s, PublishCatalog(tidy))
    ensures Inv(WriterNext(s, PublishCatalog(tidy)))
    ensures PublishedAs(s, WriterNext(s, PublishCatalog(tidy)), s.writer.phase.gen, s.writer.phase.commit)
  {
    hide CatalogInv, LogInv, LeaseInv, ReadersInv, Agreement;
    var t, p := WriterNext(s, PublishCatalog(tidy)), s.writer.phase;
    NewerIsUncatalogued(s, p.gen);
    CataloguedKeeps(s, p.gen, p.commit, t);
    LeasesKept(s, t);
    ReadersSeeMore(s, t);
  }

  lemma FailCatalogKeeps(s: Space, visible: bool)
    requires Inv(s) && WriterCan(s, FailCatalog(visible))
    ensures
      var t := WriterNext(s, FailCatalog(visible));
      Inv(t) && if visible then PublishedAs(s, t, s.writer.phase.gen, s.writer.phase.commit) else SameHistory(s, t) && GoesOn(s, t)
  {
    hide CatalogInv, LogInv, LeaseInv, ReadersInv, Agreement;
    var t, p := WriterNext(s, FailCatalog(visible)), s.writer.phase;
    if visible {
      NewerIsUncatalogued(s, p.gen);
      CataloguedKeeps(s, p.gen, p.commit, t);
      LeasesKept(s, t);
      ReadersSeeMore(s, t);
    } else {
      FilesKept(s, t);
    }
  }

  lemma GiveUpKeeps(s: Space, tidy: bool)
    requires Inv(s) && WriterCan(s, GiveUp(tidy))
    ensures Inv(WriterNext(s, GiveUp(tidy)))
    ensures SameHistory(s, WriterNext(s, GiveUp(tidy))) && GoesOn(s, WriterNext(s, GiveUp(tidy)))
  {
    hide CatalogInv, LogInv, LeaseInv, ReadersInv, PhaseOk;
    FilesKept(s, WriterNext(s, GiveUp(tidy)));
    AnyPhase(WriterNext(s, GiveUp(tidy)));
  }

  predicate Publishes(e: WriterStep) {
    e.PublishCatalog? || e.FailCatalog?
  }

  lemma WriterStepKeeps(s: Space, e: WriterStep)
    requires Inv(s) && WriterCan(s, e)
    ensures Inv(WriterNext(s, e))
    ensures !Publishes(e) ==> SameHistory(s, WriterNext(s, e))
    ensures !Publishes(e) && !e.Text? && !e.TextFailed? && !e.Upsert? ==> GoesOn(s, WriterNext(s, e))
    ensures e.FailCatalog? && !e.visible ==> SameHistory(s, WriterNext(s, e)) && GoesOn(s, WriterNext(s, e))
    ensures Publishes(e) && (e.FailCatalog? ==> e.visible) ==>
      PublishedAs(s, WriterNext(s, e), s.writer.phase.gen, s.writer.phase.commit)
  {
    hide Inv, WriterNext, SameHistory, PublishedAs, GoesOn;
    match e
    case OpenWriter => OpenWriterKeeps(s);
    case EndWriter => EndWriterKeeps(s);
    case Text(_, _) => TextKeeps(s, e);
    case TextFailed(_, _, _) => TextKeeps(s, e);
    case Upsert(gen, records, stale) => UpsertKeeps(s, gen, records, stale);
    case PublishIndex => PublishPayloadKeeps(s, e);
    case PublishMetadata => PublishPayloadKeeps(s, e);
    case TakeGate => TakeGateKeeps(s);
    case PublishCommit => PublishCommitKeeps(s);
    case PublishCatalog(tidy) => PublishCatalogKeeps(s, tidy);
    case FailCatalog(visible) => FailCatalogKeeps(s, visible);
    case GiveUp(tidy) => GiveUpKeeps(s, tidy);
  }

  // ---------------------------------------------------------------- steps of maintenance

  lemma StartMaintenanceKeeps(s: Space)
    requires Inv(s) && MaintenanceCan(s, StartMaintenance)
    ensures Inv(MaintenanceNext(s, StartMaintenance))
    ensures SameHistory(s, MaintenanceNext(s, StartMaintenance)) && GoesOn(s, MaintenanceNext(s, StartMaintenance))
  {
    hide CatalogInv, LogInv, LeaseInv, ReadersInv;
    CatalogIsReadable(s);
    FilesKept(s, MaintenanceNext(s, StartMaintenance));
  }

  lemma LeaseKeeps(s: Space, n: nat)
    requires LeaseInv(s)
    ensures LeaseInv(Lease(s, n)) && n in Lease(s, n).leases
    ensures forall m :: m in s.leases ==> m in Lease(s, n).leases && Lease(s, n).leases[m] == s.leases[m]
  {
    if n !in s.leases { NewLease(s.leases, s.inodes, n); }
  }

  lemma NewLease(leases: map<nat, nat>, inodes: nat, n: nat)
    requires n !in leases && forall k :: k in leases ==> leases[k] < inodes
    requires forall k, m :: k in leases && m in leases && k != m ==> leases[k] != leases[m]
    ensures
      var more := leases[n := inodes];
      forall k, m :: k in more && m in more && k != m ==> more[k] != more[m]
  {
  }

  lemma ReadersKeepLeases(s: Space, t: Space)
    requires ReadersInv(s) && t.readers == s.readers && t.catalog == s.catalog && SameReaderGate(s, t)
    requires forall m :: m in s.leases && m in s.catalog ==> m in t.leases && t.leases[m] == s.leases[m]
    ensures ReadersInv(t)
  {
    forall r | r in t.readers ensures ReaderOk(t, r, t.readers[r]) { assert ReaderOk(s, r, s.readers[r]); }
    if t.gate.Some? && t.gate.value.AReader? { assert s.gate == Some(AReader(t.gate.value.r)); }
  }

  lemma LockOldKeeps(s: Space)
    requires Inv(s) && MaintenanceCan(s, LockOld)
    ensures Inv(MaintenanceNext(s, LockOld))
    ensures SameHistory(s, MaintenanceNext(s, LockOld)) && MaintenanceNext(s, LockOld).text == s.text
    ensures
      var p, n := s.writer.phase, s.catalog[s.writer.phase.at];
      MaintenanceNext(s, LockOld).writer == Up(s.writer.cached, Locking(p.at + 1, if Held(s, n) then p.retire else p.retire + {n}))
  {
    hide CatalogInv, LogInv, LeaseInv, ReadersInv, Busy, PhaseOk, Lease, Held;
    var n := s.catalog[s.writer.phase.at];
    OlderThanNewest(s, s.writer.phase.at);
    BusyIsHeld(s, n);
    LeaseLeaves(s, n);
    LockingIsOk(s, MaintenanceNext(s, LockOld), n);
    if Busy(s, n) {
      FilesKept(s, MaintenanceNext(s, LockOld));
    } else {
      LockFreeKeeps(s, n, MaintenanceNext(s, LockOld));
    }
  }

  lemma LockFreeKeeps(s: Space, n: nat, t: Space)
    requires CatalogInv(s) && LogInv(s) && LeaseInv(s) && ReadersInv(s)
    requires t == Lease(s, n).(writer := t.writer)
    ensures CatalogInv(t) && LogInv(t) && LeaseInv(t) && ReadersInv(t)
    ensures t.gate == s.gate && SameHistory(s, t) && t.text == s.text && t.corrupt == s.corrupt
  {
    hide CatalogInv, LogInv, LeaseInv, ReadersInv, Lease;
    LeaseLeaves(s, n);
    LeaseKeeps(s, n);
    PublishedKept(s, t);
    LeasesKept(Lease(s, n), t);
    ReadersKeepLeases(s, t);
  }

  lemma LeaseLeaves(s: Space, n: nat)
    ensures
      var t := Lease(s, n);
      t == s.(leases := t.leases, inodes := t.inodes)
  {
  }

  lemma LockingIsOk(s: Space, t: Space, n: nat)
    requires s.writer.Up? && s.writer.phase.Locking? && PhaseOk(s, s.writer.phase)
    requires t.readers == s.readers && t.catalog == s.catalog && n != Newest(s.catalog)
    requires t.writer.Up? && t.writer.phase.Locking?
    requires if Held(s, n) then t.writer.phase.retire == s.writer.phase.retire else t.writer.phase.retire == s.writer.phase.retire + {n}
    ensures PhaseOk(t, t.writer.phase)
  {
    SameHeld(s, t);
    hide Held;
  }

  lemma OlderThanNewest(s: Space, at: nat)
    requires CatalogInv(s) && at + 1 < |s.catalog|
    ensures 0 < s.catalog[at] != Newest(s.catalog)
  {
  }

  lemma SameHeld(s: Space, t: Space)
    requires s.readers == t.readers
    ensures forall n :: Held(s, n) <==> Held(t, n)
  {
  }

  /** Retiring shortens the catalog by generations no reader holds. */
  lemma RetiredKeeps(s: Space, t: Space, retire: set<nat>)
    requires CatalogInv(s) && LogInv(s) && ReadersInv(s) && RetireOk(s, retire) && s.gate == Some(TheWriter)
    requires t.spec == s.spec && t.catalog == Retired(s.catalog, retire) && t.log == s.log && t.readers == s.readers
    requires t.index == s.index && t.metadata == s.metadata && t.commits == s.commits && t.leases == s.leases
    requires SameReaderGate(s, t)
    ensures CatalogInv(t) && LogInv(t) && ReadersInv(t) && RetiredFrom(s, t)
    ensures forall n :: n in retire ==> n !in t.catalog
  {
    RemainingFacts(s.catalog, retire);
    forall n | n in t.catalog ensures Whole(t, n) { assert Whole(s, n); }
    forall r | r in t.readers ensures ReaderOk(t, r, t.readers[r]) {
      assert ReaderOk(s, r, s.readers[r]);
      assert s.readers[r].Holding? ==> Held(s, s.readers[r].gen);
    }
    forall r: nat ensures t.gate != Some(AReader(r)) { assert s.gate != Some(AReader(r)); }
  }

  /** The catalog may have lost the retired generations, but not the newest. */
  ghost predicate RetiredFrom(s: Space, t: Space) {
    && t.spec == s.spec && t.log == s.log && Newest(t.catalog) == Newest(s.catalog)
    && (forall n :: n in t.catalog ==> n in s.catalog)
    && forall n :: n in s.catalog && n !in t.catalog ==> !Held(s, n) && n != Newest(s.catalog)
  }

  lemma WriteRetirementKeeps(s: Space)
    requires Inv(s) && MaintenanceCan(s, WriteRetirement)
    ensures Inv(MaintenanceNext(s, WriteRetirement))
    ensures RetiredFrom(s, MaintenanceNext(s, WriteRetirement)) && GoesOn(s, MaintenanceNext(s, WriteRetirement))
  {
    hide CatalogInv, LogInv, LeaseInv, ReadersInv, PhaseOk, Retired, Held;
    var t, retire := MaintenanceNext(s, WriteRetirement), s.writer.phase.retire;
    LeasesKept(s, t);
    LockingMeans(s);
    RetiredKeeps(s, t, retire);
    RetiringMeans(t, retire);
  }

  lemma FailRetirementKeeps(s: Space, visible: bool)
    requires Inv(s) && MaintenanceCan(s, FailRetirement(visible))
    ensures Inv(MaintenanceNext(s, FailRetirement(visible)))
    ensures RetiredFrom(s, MaintenanceNext(s, FailRetirement(visible))) && GoesOn(s, MaintenanceNext(s, FailRetirement(visible)))
  {
    hide CatalogInv, LogInv, LeaseInv, ReadersInv, PhaseOk, Retired, Held;
    var t, retire := MaintenanceNext(s, FailRetirement(visible)), s.writer.phase.retire;
    AnyPhase(t);
    LeasesKept(s, t);
    if visible {
      LockingMeans(s);
      RetiredKeeps(s, t, retire);
    } else {
      FilesKept(s, t);
    }
  }

  lemma LockingMeans(s: Space)
    requires s.writer.Up? && s.writer.phase.Locking? && PhaseOk(s, s.writer.phase)
    ensures RetireOk(s, s.writer.phase.retire)
  {
  }

  lemma RetiringMeans(s: Space, retired: set<nat>)
    ensures PhaseOk(s, Retiring(retired)) <==> forall n :: n in retired ==> n !in s.catalog
  {
  }

  lemma RenameCommitKeeps(s: Space, n: nat)
    requires Inv(s) && MaintenanceCan(s, RenameCommit(n))
    ensures Inv(MaintenanceNext(s, RenameCommit(n)))
    ensures SameHistory(s, MaintenanceNext(s, RenameCommit(n))) && GoesOn(s, MaintenanceNext(s, RenameCommit(n)))
  {
    hide CatalogInv, LogInv, LeaseInv, ReadersInv;
    var t := MaintenanceNext(s, RenameCommit(n));
    OtherFilesKeep(s, t);
    LeasesKept(s, t);
    ReadersKept(s, t);
  }

  /** No reader holds a generation that is not catalogued. */
  lemma OrphansAreFree(s: Space, n: nat)
    requires LeaseInv(s) && ReadersInv(s)
    ensures Busy(s, n) ==> n in s.catalog
  {
    if Busy(s, n) {
      var r :| r in s.readers && s.readers[r].Holding? && s.readers[r].inode == s.leases[n];
      assert ReaderOk(s, r, s.readers[r]);
    }
  }

  lemma SweepKeeps(s: Space, e: MaintenanceStep)
    requires Inv(s) && (e.StartSweep? || e.CheckOrphan? || e.StartDeleting? || e.EndMaintenance?) && MaintenanceCan(s, e)
    ensures Inv(MaintenanceNext(s, e))
    ensures SameHistory(s, MaintenanceNext(s, e)) && GoesOn(s, MaintenanceNext(s, e))
  {
    hide CatalogInv, LogInv, LeaseInv, ReadersInv, PhaseOk;
    SweepPhase(s, e);
    FilesKept(s, MaintenanceNext(s, e));
  }

  /** A sweep looks at uncatalogued generations, finds none locked, and lists all garbage. */
  lemma SweepPhase(s: Space, e: MaintenanceStep)
    requires LeaseInv(s) && ReadersInv(s) && s.writer.Up? && PhaseOk(s, s.writer.phase) && MaintenanceCan(s, e)
    requires e.StartSweep? || e.CheckOrphan? || e.StartDeleting? || e.EndMaintenance?
    ensures
      var t := MaintenanceNext(s, e);
      t.writer.Up? && PhaseOk(t, t.writer.phase) && t.corrupt == s.corrupt
  {
    hide LeaseInv, ReadersInv, Busy, Present;
    if e.CheckOrphan? { OrphansAreFree(s, e.n); }
    if e.StartDeleting? {
      var t := MaintenanceNext(s, e);
      forall x ensures Abandoned(t, x) <==> Abandoned(s, x) { MovedPresent(s, t, x); }
    }
  }

  /** Removing a file changes the directory in that file only. */
  lemma WithoutLeaves(s: Space, x: Entry)
    ensures
      var t := Without(s, x);
      && t.spec == s.spec && t.catalog == s.catalog && t.log == s.log && t.corrupt == s.corrupt && t.gate == s.gate
      && t.writer == s.writer && t.readers == s.readers && t.text == s.text && t.inodes == s.inodes
      && (forall e :: Present(t, e) <==> Present(s, e) && e != x)
  {
  }

  lemma WithoutKeepsContents(s: Space, x: Entry)
    requires Removable(s, x)
    ensures
      var t := Without(s, x);
      && (forall n :: n in s.catalog && n in s.index ==> n in t.index && t.index[n] == s.index[n])
      && (forall n :: n in s.catalog && n in s.metadata ==> n in t.metadata && t.metadata[n] == s.metadata[n])
      && (forall n :: n in s.catalog && n in s.commits ==> n in t.commits && t.commits[n] == s.commits[n])
      && (forall n :: n in s.catalog && n in s.leases ==> n in t.leases && t.leases[n] == s.leases[n])
  {
  }

  lemma WithoutKeepsLeases(s: Space, x: Entry)
    requires LeaseInv(s)
    ensures LeaseInv(Without(s, x))
  {
  }

  lemma DeleteKeeps(s: Space, x: Entry)
    requires Inv(s) && MaintenanceCan(s, Delete(x))
    ensures Inv(MaintenanceNext(s, Delete(x)))
    ensures SameHistory(s, MaintenanceNext(s, Delete(x))) && GoesOn(s, MaintenanceNext(s, Delete(x)))
  {
    hide CatalogInv, LogInv, ReadersInv, LeaseInv, Without, Present;
    var u := Move(s, Deleting(s.writer.phase.garbage - {x}));
    var t := MaintenanceNext(s, Delete(x));
    assert t == Without(u, x);
    LeasesKept(s, u);
    WithoutLeaves(u, x);
    WithoutKeepsContents(u, x);
    WithoutKeepsLeases(u, x);
    OtherFilesKeep(s, t);
    ReadersKeepLeases(s, t);
    forall e | Abandoned(t, e) ensures e in t.writer.phase.garbage {
      assert Present(u, e);
      MovedPresent(s, u, e);
      assert Abandoned(s, e);
    }
  }

  lemma MovedPresent(s: Space, u: Space, e: Entry)
    requires u == s.(writer := u.writer)
    ensures Present(u, e) <==> Present(s, e)
  {
  }

  lemma MaintenanceStepKeeps(s: Space, e: MaintenanceStep)
    requires Inv(s) && MaintenanceCan(s, e)
    ensures Inv(MaintenanceNext(s, e))
    ensures SameHistory(s, MaintenanceNext(s, e)) || RetiredFrom(s, MaintenanceNext(s, e))
    ensures e != LockOld ==> GoesOn(s, MaintenanceNext(s, e))
    ensures e == LockOld ==> SameHistory(s, MaintenanceNext(s, e))
  {
    hide Inv, MaintenanceNext, SameHistory, RetiredFrom, GoesOn;
    match e
    case StartMaintenance => StartMaintenanceKeeps(s);
    case LockOld => LockOldKeeps(s);
    case WriteRetirement => WriteRetirementKeeps(s);
    case FailRetirement(visible) => FailRetirementKeeps(s, visible);
    case RenameCommit(n) => RenameCommitKeeps(s, n);
    case StartSweep(_) => SweepKeeps(s, e);
    case CheckOrphan(_) => SweepKeeps(s, e);
    case StartDeleting(_) => SweepKeeps(s, e);
    case Delete(x) => DeleteKeeps(s, x);
    case EndMaintenance => SweepKeeps(s, e);
  }

  // ---------------------------------------------------------------- steps of readers

  lemma PhaseKept(s: Space, t: Space)
    requires s.writer.Up? && PhaseOk(s, s.writer.phase) && t.writer == s.writer
    requires SamePublished(s, t) && t.text == s.text && t.retired == s.retired && t.staging == s.staging
    requires s.writer.phase.Locking? ==> forall n :: Held(t, n) ==> Held(s, n)
    requires s.writer.phase.Deleting? ==> t.leases == s.leases
    ensures PhaseOk(t, t.writer.phase)
  {
    hide Agreement;
    if s.writer.phase.Deleting? {
      forall e | Abandoned(t, e) ensures e in t.writer.phase.garbage { assert Abandoned(s, e); }
    }
  }

  /** One reader's own state changed, and leases were only added. */
  lemma OneReaderChanged(s: Space, t: Space, r: nat)
    requires ReadersInv(s) && t.catalog == s.catalog
    requires forall m :: m in s.leases ==> m in t.leases && t.leases[m] == s.leases[m]
    requires forall q :: q in t.readers && q != r ==> q in s.readers && t.readers[q] == s.readers[q]
    requires forall q: nat :: q != r ==> (s.gate == Some(AReader(q)) <==> t.gate == Some(AReader(q)))
    requires forall q :: q in s.readers && q != r ==> q in t.readers
    requires r in t.readers ==> ReaderOk(t, r, t.readers[r])
    requires t.gate == Some(AReader(r)) ==> r in t.readers
    ensures ReadersInv(t)
  {
    forall q | q in t.readers ensures ReaderOk(t, q, t.readers[q]) {
      if q != r { assert ReaderOk(s, q, s.readers[q]); }
    }
    if t.gate.Some? && t.gate.value.AReader? && t.gate.value.r != r { assert s.gate == Some(AReader(t.gate.value.r)); }
  }

  lemma PinKeeps(s: Space, r: nat)
    requires Inv(s) && ReaderCan(s, Pin(r))
    ensures Inv(ReaderNext(s, Pin(r)))
    ensures SameHistory(s, ReaderNext(s, Pin(r))) && GoesOn(s, ReaderNext(s, Pin(r)))
  {
    hide CatalogInv, LogInv, LeaseInv, ReadersInv, PhaseOk, Lease, Held, Ascending;
    var t := ReaderNext(s, Pin(r));
    PinLeases(s, r);
    PublishedKept(s, t);
    if s.writer.Up? { PhaseKept(s, t); }
  }

  /** Pinning leaves every lease in place and locks the one of the chosen generation. */
  lemma PinLeases(s: Space, r: nat)
    requires Inv(s) && ReaderCan(s, Pin(r))
    ensures
      var t := ReaderNext(s, Pin(r));
      && LeaseInv(t) && ReadersInv(t) && t == s.(leases := t.leases, inodes := t.inodes, readers := t.readers)
      && !(s.writer.Up? && NeedsGate(s.writer.phase))
  {
    hide CatalogInv, LogInv, LeaseInv, ReadersInv, PhaseOk, Lease, Ascending;
    var t, g := ReaderNext(s, Pin(r)), s.readers[r].gen;
    ReaderIsOk(s, r);
    if g != 0 {
      LeaseKeeps(s, g);
      LeaseLeaves(s, g);
      LeasesKept(Lease(s, g), t);
    } else {
      LeasesKept(s, t);
    }
    OneReaderChanged(s, t, r);
  }

  lemma OtherReaderStepKeeps(s: Space, e: ReaderStep)
    requires Inv(s) && ReaderCan(s, e) && !e.Pin?
    ensures Inv(ReaderNext(s, e))
    ensures SameHistory(s, ReaderNext(s, e)) && GoesOn(s, ReaderNext(s, e))
  {
    hide CatalogInv, LogInv, LeaseInv, ReadersInv, PhaseOk, Lease, Held;
    var t := ReaderNext(s, e);
    CatalogIsReadable(s);
    NewestPinnable(s);
    if e.r in s.readers { ReaderIsOk(s, e.r); }
    LeasesKept(s, t);
    PublishedKept(s, t);
    OneReaderChanged(s, t, e.r);
    if s.writer.Up? {
      if NeedsGate(s.writer.phase) {
        NoPinWhileGated(s, e);
        FewerHeld(s, t);
      }
      PhaseKept(s, t);
    }
  }

  lemma ReaderStepKeeps(s: Space, e: ReaderStep)
    requires Inv(s) && ReaderCan(s, e)
    ensures Inv(ReaderNext(s, e))
    ensures SameHistory(s, ReaderNext(s, e)) && GoesOn(s, ReaderNext(s, e))
  {
    hide Inv, SameHistory, GoesOn;
    if e.Pin? { PinKeeps(s, e.r); } else { OtherReaderStepKeeps(s, e); }
  }

  lemma FewerHeld(s: Space, t: Space)
    requires forall r :: r in t.readers ==> r in s.readers && t.readers[r] == s.readers[r]
    ensures forall n :: Held(t, n) ==> Held(s, n)
  {
  }

  lemma ReaderIsOk(s: Space, r: nat)
    requires ReadersInv(s) && r in s.readers
    ensures ReaderOk(s, r, s.readers[r])
  {
  }

  /** While the writer holds the coordinator, readers can only end. */
  lemma NoPinWhileGated(s: Space, e: ReaderStep)
    requires Inv(s) && ReaderCan(s, e) && s.writer.Up? && NeedsGate(s.writer.phase)
    ensures e.EndReader?
  {
    if e.r in s.readers { ReaderIsOk(s, e.r); }
  }

  lemma NewestPinnable(s: Space)
    requires CatalogInv(s)
    ensures Newest(s.catalog) == 0 || Newest(s.catalog) in s.catalog
  {
    NewestIsLast(s.catalog);
  }
}
