/** What a run of a vector space amounts to, told from its events alone, and that what a
    reader gets is exactly that. */
module GenerationHistory {
  import opened Basics
  import opened VectorChanges
  import opened VectorRevisions
  import opened Generations
  import opened GenerationSafety
  import opened GenerationTheorems

  /** The embedding of a document: the revision it was computed from and the vector. */
  datatype Embedding = Embedding(revision: Revision, vector: Vector)

  type Embeddings = map<Id, Embedding>

  /** The text revisions, the embeddings staged last, and those published last. */
  datatype Account = Account(text: Revisions, staged: Embeddings, published: Embeddings)

  function Revised(text: Revisions, id: Id, revision: Revision): Revisions {
    if revision == "" then text - {id} else text[id := revision]
  }

  function Written(records: seq<VectorRecord>): Embeddings {
    if records == [] then map[]
    else
      var last := records[|records| - 1];
      Written(records[..|records| - 1])[last.id := Embedding(last.revision, last.vector)]
  }

  /** Embeddings of text that has changed are dropped, and the records' are put in. */
  function Upserted(text: Revisions, published: Embeddings, records: seq<VectorRecord>): Embeddings {
    (map id | id in published && id in text && text[id] == published[id].revision :: published[id]) + Written(records)
  }

  function Recorded(a: Account, e: Event): Account {
    match e
    case Writes(Text(id, revision)) => a.(text := Revised(a.text, id, revision))
    case Writes(TextFailed(id, revision, visible)) => if visible then a.(text := Revised(a.text, id, revision)) else a
    case Writes(Upsert(_, records, _)) => a.(staged := Upserted(a.text, a.published, records))
    case Writes(PublishCatalog(_)) => a.(published := a.staged)
    case Writes(FailCatalog(visible)) => if visible then a.(published := a.staged) else a
    case _ => a
  }

  function Told(events: seq<Event>): Account {
    if events == [] then Account(map[], map[], map[])
    else Recorded(Told(events[..|events| - 1]), events[|events| - 1])
  }

  /** A generation holds these embeddings and no others. */
  ghost predicate Contains(spec: SpaceSpec, c: Commit, es: Embeddings) {
    && c.revisions.Keys == es.Keys && (forall id :: id in es ==> c.revisions[id] == es[id].revision)
    && forall id :: Look(c.index, spec.field, id) == if id in es then Some(es[id].vector) else None
  }

  /** The catalogued state of the space. */
  ghost predicate Follows(s: Space, a: Account) {
    && s.text == a.text
    && Load(s, Newest(s.catalog)).Some? && Contains(s.spec, Load(s, Newest(s.catalog)).value, a.published)
    && (WorkOf(s.writer).Publication? ==> Contains(s.spec, WorkOf(s.writer).commit, a.staged))
  }

  // ---------------------------------------------------------------- staging

  lemma {:induction false} WrittenFacts(m: Revisions, records: seq<VectorRecord>)
    requires Unique(records)
    ensures forall id :: id in Written(records) <==> id in IdsOf(records)
    ensures forall r :: r in records ==> r.id in Written(records) && Written(records)[r.id] == Embedding(r.revision, r.vector)
  {
    hide IdsOf;
    if records == [] {
      NoIds();
    } else {
      var init, last := records[..|records| - 1], records[|records| - 1];
      WrittenFacts(m, init);
      assert records == init + [last];
      LastIsNew(records);
      IdsSnoc(init, last);
    }
  }

  /** What staging makes of a generation is what the plain account says. */
  lemma StagedContains(spec: SpaceSpec, base: Commit, es: Embeddings, text: Revisions, records: seq<VectorRecord>, c: Commit)
    requires Contains(spec, base, es) && Agreement(spec, base.index, base.revisions) && Unique(records)
    requires forall r :: r in records ==> GoodRecord(spec, r) && RevisionOf(text, r.id) == r.revision
    requires c.revisions == NextRevisions(base.revisions, text, records)
    requires NextGeneration(spec, base.index, c.index, c.revisions, records)
    ensures Contains(spec, c, Upserted(text, es, records))
  {
    hide GoodRecord, Look, NextRevisions, Written, IdsOf;
    var next := Upserted(text, es, records);
    WrittenFacts(base.revisions, records);
    StagedRevisions(spec, base, text, records);
    forall id ensures id in c.revisions <==> id in next
      ensures id in next ==> c.revisions[id] == next[id].revision && Look(c.index, spec.field, id) == Some(next[id].vector)
    {
      StagedOne(spec, base, es, text, records, c, id);
    }
    forall id | id !in next ensures Look(c.index, spec.field, id) == None { assert id !in c.revisions; }
  }

  lemma StagedRevisions(spec: SpaceSpec, base: Commit, text: Revisions, records: seq<VectorRecord>)
    requires Unique(records) && Agreement(spec, base.index, base.revisions)
    requires forall r :: r in records ==> RevisionOf(text, r.id) == r.revision
    ensures
      var next := NextRevisions(base.revisions, text, records);
      && (forall id :: id in next <==> id in IdsOf(records) || (id in base.revisions && RevisionOf(text, id) == base.revisions[id]))
      && (forall id :: id in next ==> next[id] == RevisionOf(text, id))
  {
    NextIsCurrent(base.revisions, text, records);
  }

  lemma StagedOne(spec: SpaceSpec, base: Commit, es: Embeddings, text: Revisions, records: seq<VectorRecord>, c: Commit, id: Id)
    requires Contains(spec, base, es) && Unique(records) && Agreement(spec, base.index, base.revisions)
    requires forall r :: r in records ==> GoodRecord(spec, r) && RevisionOf(text, r.id) == r.revision
    requires forall x :: x in Written(records) <==> x in IdsOf(records)
    requires forall r :: r in records ==> r.id in Written(records) && Written(records)[r.id] == Embedding(r.revision, r.vector)
    requires forall x :: x in c.revisions <==>
      x in IdsOf(records) || (x in base.revisions && RevisionOf(text, x) == base.revisions[x])
    requires forall x :: x in c.revisions ==> c.revisions[x] == RevisionOf(text, x)
    requires NextGeneration(spec, base.index, c.index, c.revisions, records)
    ensures
      var next := Upserted(text, es, records);
      && (id in c.revisions <==> id in next)
      && (id in next ==> c.revisions[id] == next[id].revision && Look(c.index, spec.field, id) == Some(next[id].vector))
  {
    hide Look, Written, GoodRecord;
    if id in IdsOf(records) {
      var r :| r in records && r.id == id;
    } else if id in base.revisions {
      assert base.revisions[id] == es[id].revision && base.revisions[id] != "";
    }
  }

  lemma UpsertFollows(s: Space, a: Account, gen: nat, records: seq<VectorRecord>, stale: seq<Change>)
    requires Inv(s) && Follows(s, a) && WriterCan(s, Upsert(gen, records, stale))
    ensures
      var e := Upsert(gen, records, stale);
      Follows(WriterNext(s, e), Recorded(a, Writes(e)))
  {
    hide CatalogInv, LogInv, LeaseInv, ReadersInv, IsNext, Agreement, FlatAfter, NextRevisions, Contains, NextGeneration,
         Upserted, GoodRecord, Unique, Deletions, Kept;
    NewestLoads(s);
    var base := Load(s, s.writer.cached).value;
    AppliedAgrees(s.spec, base.index, base.revisions, s.text, records, stale);
    StagedContains(s.spec, base, a.published, s.text, records, Prepared(s, records, stale, base).value);
    var e := Upsert(gen, records, stale);
    SameLoad(s, WriterNext(s, e));
  }

  lemma SameLoad(s: Space, t: Space)
    requires t.catalog == s.catalog && t.index == s.index && t.metadata == s.metadata && t.commits == s.commits
    ensures Load(t, Newest(t.catalog)) == Load(s, Newest(s.catalog))
  {
  }

  // ---------------------------------------------------------------- steps

  /** What is catalogued newest stays loadable and the same. */
  lemma NewestStays(s: Space, e: Event)
    requires Inv(s) && Enabled(s, e)
    ensures
      var t := Next(s, e);
      && t.spec == s.spec
      && (Newest(t.catalog) == Newest(s.catalog) ==> Load(t, Newest(t.catalog)) == Load(s, Newest(s.catalog)))
  {
    hide Inv, Enabled, Next;
    StepKeepsInv(s, e);
    StepGrows(s, e);
    NewestKnown(s);
    NewestKnown(Next(s, e));
  }

  lemma NewestKnown(s: Space)
    requires Inv(s)
    ensures Newest(s.catalog) == 0 || (Newest(s.catalog) in s.log && Load(s, Newest(s.catalog)) == Some(s.log[Newest(s.catalog)].commit))
    ensures Newest(s.catalog) == 0 ==> Load(s, Newest(s.catalog)) == Some(Commit(Flat(map[], map[]), map[]))
    ensures forall n :: n in s.log ==> n <= Newest(s.catalog)
  {
    NewestIsLast(s.catalog);
    if Newest(s.catalog) != 0 { CataloguedLoads(s, Newest(s.catalog)); }
  }

  /** Publishing makes the staged generation the newest. */
  lemma PublishFollows(s: Space, a: Account, w: WriterStep)
    requires Inv(s) && Follows(s, a) && WriterCan(s, w) && Publishes(w)
    ensures Follows(WriterNext(s, w), Recorded(a, Writes(w)))
  {
    hide Inv, Contains, Agreement, Load, Newest, PublishedAs, WriterNext;
    var t := WriterNext(s, w);
    WriterStepKeeps(s, w);
    NewestKnown(t);
    if w.FailCatalog? && !w.visible {
      NewestStays(s, Writes(w));
    } else {
      PublishedNewest(s, t);
    }
  }

  lemma PublishedNewest(s: Space, t: Space)
    requires s.writer.Up? && s.writer.phase.CommitPublished? && PublishedAs(s, t, s.writer.phase.gen, s.writer.phase.commit)
    ensures t.text == s.text && WorkOf(t.writer) == NoWork && t.spec == s.spec
    ensures Newest(t.catalog) == s.writer.phase.gen && t.log[Newest(t.catalog)].commit == s.writer.phase.commit
    ensures Newest(t.catalog) != 0
  {
  }

  /** Every other step leaves text, newest generation and staged content as told. */
  lemma OtherFollows(s: Space, a: Account, e: Event)
    requires Inv(s) && Follows(s, a) && Enabled(s, e) && !(e.Writes? && (Publishes(e.w) || e.w.Upsert?))
    ensures Follows(Next(s, e), Recorded(a, e))
  {
    hide Inv, Contains, Agreement, Load, Enabled, Next, Newest, WorkOf;
    NewestStays(s, e);
    SameNewest(s, e);
    WorkGoesOn(s, e);
    SameTextTold(a, e, Account(s.text, map[], map[]));
  }

  lemma SameTextTold(a: Account, e: Event, b: Account)
    requires a.text == b.text
    ensures Recorded(a, e).text == Recorded(b, e).text
    ensures !(e.Writes? && (Publishes(e.w) || e.w.Upsert?)) ==>
      Recorded(a, e).staged == a.staged && Recorded(a, e).published == a.published
  {
  }

  lemma SameNewest(s: Space, e: Event)
    requires Inv(s) && Enabled(s, e) && !(e.Writes? && Publishes(e.w))
    ensures Newest(Next(s, e).catalog) == Newest(s.catalog)
  {
    hide Inv, WriterNext, MaintenanceNext, ReaderNext, WriterCan, MaintenanceCan, ReaderCan;
    match e
    case Writes(w) => WriterStepKeeps(s, w);
    case Maintains(m) => MaintenanceStepKeeps(s, m);
    case Reads(d) => ReaderStepKeeps(s, d);
  }

  lemma WorkGoesOn(s: Space, e: Event)
    requires Inv(s) && Enabled(s, e) && !(e.Writes? && (Publishes(e.w) || e.w.Upsert?))
    ensures
      var t := Next(s, e);
      && (WorkOf(t.writer).Publication? ==> WorkOf(t.writer) == WorkOf(s.writer))
      && t.text == Recorded(Account(s.text, map[], map[]), e).text
  {
    hide Inv, WriterNext, MaintenanceNext, ReaderNext, WriterCan, MaintenanceCan, ReaderCan;
    match e
    case Writes(w) =>
      WriterStepKeeps(s, w);
      if w.Text? || w.TextFailed? { TextKeeps(s, w); }
    case Maintains(m) =>
      MaintenanceStepKeeps(s, m);
      if m.LockOld? { LockOldKeeps(s); }
    case Reads(d) => ReaderStepKeeps(s, d);
  }

  lemma StepFollows(s: Space, a: Account, e: Event)
    requires Inv(s) && Follows(s, a) && Enabled(s, e)
    ensures Follows(Next(s, e), Recorded(a, e))
  {
    hide Inv, Follows, WriterNext, MaintenanceNext, ReaderNext, WriterCan, MaintenanceCan, ReaderCan;
    if e.Writes? && e.w.Upsert? {
      UpsertFollows(s, a, e.w.gen, e.w.records, e.w.stale);
    } else if e.Writes? && Publishes(e.w) {
      PublishFollows(s, a, e.w);
    } else {
      OtherFollows(s, a, e);
    }
  }

  // ---------------------------------------------------------------- runs

  lemma StartFollows(s: Space)
    requires Initial(s)
    ensures Follows(s, Told([]))
  {
  }

  lemma {:induction false} RunFollows(states: seq<Space>, events: seq<Event>, i: nat)
    requires IsRun(states, events) && i < |states|
    ensures Inv(states[i]) && Follows(states[i], Told(events[..i]))
  {
    hide Inv, Follows, Enabled, Next, Recorded;
    RunKeepsInv(states, events, i);
    if i == 0 {
      StartFollows(states[0]);
    } else {
      RunFollows(states, events, i - 1);
      StepFollows(states[i - 1], Told(events[..i - 1]), events[i - 1]);
      assert events[..i][..i - 1] == events[..i - 1] && events[..i][i - 1] == events[i - 1];
    }
  }

  /** In every run the newest generation holds exactly the embeddings that a plain account
      of the events holds: the records upserted, as far as their text had not changed when
      a later generation was staged. */
  lemma NewestIsTold(states: seq<Space>, events: seq<Event>, i: nat)
    requires IsRun(states, events) && i < |states|
    ensures
      var s := states[i];
      Load(s, Newest(s.catalog)).Some? && Contains(s.spec, Load(s, Newest(s.catalog)).value, Told(events[..i]).published)
  {
    hide Inv, Told, Contains, IsRun, Load;
    RunFollows(states, events, i);
  }

  lemma PinnedIsOk(s: Space, r: nat)
    requires Inv(s) && r in s.readers
    ensures ReaderOk(s, r, s.readers[r])
  {
    hide CatalogInv, LogInv, LeaseInv, WriterInv, GateInv;
    ReaderIsOk(s, r);
  }

  /** A reader that has chosen a generation, or pinned it and not given back the coordinator,
      has the greatest number ever published. */
  lemma ReaderGetsNewest(states: seq<Space>, events: seq<Event>, i: nat, r: nat)
    requires IsRun(states, events) && i < |states| && r in states[i].readers
    requires states[i].readers[r].Chosen? || (states[i].readers[r].Holding? && states[i].gate == Some(AReader(r)))
    ensures
      var s, g := states[i], states[i].readers[r].gen;
      && g == Newest(s.catalog) && (forall n :: n in s.log ==> n <= g) && (g == 0 || g in s.log)
  {
    hide Inv, IsRun;
    RunKeepsInv(states, events, i);
    PinnedIsOk(states[i], r);
    NewestKnown(states[i]);
  }

  /** What a reader loads from when it becomes ready until it ends: the embeddings published
      last before it became ready. */
  lemma ReaderSeesThePublished(states: seq<Space>, events: seq<Event>, i: nat, j: nat, r: nat)
    requires IsRun(states, events) && i < |events| && events[i] == Reads(Ready(r))
    requires i <= j < |states| && r in states[j].readers && states[j].readers[r].Holding?
    requires states[j].readers[r].gen == states[i].readers[r].gen
    ensures
      var c := Load(states[j], states[j].readers[r].gen);
      c.Some? && Contains(states[i].spec, c.value, Told(events[..i]).published)
  {
    hide Inv, Told, Contains, Load;
    var s := states[i];
    assert Enabled(s, events[i]);
    ReaderGetsNewest(states, events, i, r);
    NewestIsTold(states, events, i);
    PinnedNeverChanges(states, events, i, j, r);
  }

  // ---------------------------------------------------------------- retirement

  /** Maintenance came by a generation when a reader held it. */
  ghost predicate HeldWhenTried(states: seq<Space>, events: seq<Event>, i: nat, n: nat)
    requires |states| == |events| + 1 && i <= |events|
  {
    exists j :: 0 <= j < i && events[j] == Maintains(LockOld) && Held(states[j], n)
  }

  /** Of the generations tried so far, all are to be retired but those held when tried. */
  lemma {:induction false} TriedOrHeld(states: seq<Space>, events: seq<Event>, i: nat, k: nat)
    requires IsRun(states, events) && i < |states| && WorkOf(states[i].writer).Retirement?
    requires k < WorkOf(states[i].writer).at && k < |states[i].catalog|
    ensures states[i].catalog[k] in WorkOf(states[i].writer).retire || HeldWhenTried(states, events, i, states[i].catalog[k])
  {
    hide Inv, Enabled, Next, Held;
    if i > 0 {
      var s, e := states[i - 1], events[i - 1];
      RunKeepsInv(states, events, i - 1);
      if e == Maintains(LockOld) { LockOldTries(s); } else { TryingGoesOn(s, e); }
      if WorkOf(s.writer).Retirement? && k < WorkOf(s.writer).at { TriedOrHeld(states, events, i - 1, k); }
    }
  }

  /** Trying one more lease. */
  lemma LockOldTries(s: Space)
    requires Inv(s) && Enabled(s, Maintains(LockOld))
    ensures
      var t, p, n := Next(s, Maintains(LockOld)), s.writer.phase, s.catalog[s.writer.phase.at];
      && t.catalog == s.catalog && (p.at > 0 ==> WorkOf(s.writer) == Retirement(p.at, p.retire))
      && WorkOf(t.writer) == Retirement(p.at + 1, if Held(s, n) then p.retire else p.retire + {n})
  {
    hide Inv, MaintenanceNext, Held;
    LockOldKeeps(s);
  }

  /** Any other step goes on with what was tried. */
  lemma TryingGoesOn(s: Space, e: Event)
    requires Inv(s) && Enabled(s, e) && e != Maintains(LockOld) && WorkOf(Next(s, e).writer).Retirement?
    ensures Next(s, e).catalog == s.catalog && WorkOf(Next(s, e).writer) == WorkOf(s.writer)
  {
    hide Inv, WriterNext, MaintenanceNext, ReaderNext, Held;
    match e
    case Writes(w) =>
      WriterStepKeeps(s, w);
      if w.Text? || w.TextFailed? { TextKeeps(s, w); }
      if w.Upsert? { UpsertKeeps(s, w.gen, w.records, w.stale); }
    case Maintains(m) =>
      MaintenanceStepKeeps(s, m);
      if m.WriteRetirement? || m.FailRetirement? { RetiringIsNoTry(s, m); }
    case Reads(d) => ReaderStepKeeps(s, d);
  }

  lemma RetiringIsNoTry(s: Space, m: MaintenanceStep)
    requires MaintenanceCan(s, m) && (m.WriteRetirement? || m.FailRetirement?)
    ensures WorkOf(MaintenanceNext(s, m).writer) == NoWork
  {
    hide Retired;
  }

  /** Retirement leaves, besides the newest, only generations that a reader held when their
      lease was tried. */
  lemma UnheldAreRetired(states: seq<Space>, events: seq<Event>, i: nat, n: nat)
    requires IsRun(states, events) && i < |events| && events[i] == Maintains(WriteRetirement)
    requires n in states[i + 1].catalog && n != Newest(states[i].catalog)
    ensures n in states[i].catalog && HeldWhenTried(states, events, i, n)
  {
    hide Inv, Held, HeldWhenTried;
    var s := states[i];
    assert Enabled(s, events[i]) && states[i + 1] == Next(s, events[i]);
    RunKeepsInv(states, events, i);
    RetiredOnly(s, n);
    var k :| 0 <= k < |s.catalog| && s.catalog[k] == n;
    TriedOrHeld(states, events, i, k);
  }

  lemma RetiredOnly(s: Space, n: nat)
    requires Inv(s) && MaintenanceCan(s, WriteRetirement) && n in MaintenanceNext(s, WriteRetirement).catalog
    ensures n in s.catalog && n !in s.writer.phase.retire
  {
    hide LogInv, LeaseInv, ReadersInv, Whole;
    RemainingFacts(s.catalog, s.writer.phase.retire);
  }
}
