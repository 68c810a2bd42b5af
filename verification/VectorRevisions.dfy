/** Which vectors a generation holds and which of them a reader may see: the revisions
    that tie vectors to the text they were computed from. */
module VectorRevisions {
  import opened Basics
  import opened VectorChanges
  import KeyedVectors

  type Revision = string
  type Revisions = map<Id, Revision>

  datatype SpaceSpec = SpaceSpec(field: Field, dims: nat, similarity: Similarity)
  datatype VectorRecord = VectorRecord(id: Id, revision: Revision, vector: Vector)

  datatype UpsertError = BadIdentity | BadVector(error: Error) | Conflict(ids: seq<Id>)
  datatype Upserted<T> = Accepted(value: T) | Rejected(error: UpsertError)

  /** The revision of an id; no text document has the empty revision. */
  function RevisionOf(m: Revisions, id: Id): Revision {
    if id in m then m[id] else ""
  }

  function ChangeOf(spec: SpaceSpec, r: VectorRecord): Change {
    Change(r.id, spec.field, r.vector, spec.similarity, false)
  }

  function IdsOf(records: seq<VectorRecord>): set<Id> {
    set r | r in records :: r.id
  }

  predicate GoodRecord(spec: SpaceSpec, r: VectorRecord) {
    r.id != "" && r.revision != "" && |r.vector| == spec.dims && Invalid(ChangeOf(spec, r)).None?
  }

  predicate Unique(records: seq<VectorRecord>) {
    forall i, j :: 0 <= i < j < |records| ==> records[i].id != records[j].id
  }

  function Stale(records: seq<VectorRecord>, text: Revisions): seq<Id> {
    if records == [] then []
    else
      var last := records[|records| - 1];
      Stale(records[..|records| - 1], text) + if RevisionOf(text, last.id) != last.revision then [last.id] else []
  }

  lemma {:induction false} NoneStale(records: seq<VectorRecord>, text: Revisions)
    ensures Stale(records, text) == [] <==> forall r :: r in records ==> RevisionOf(text, r.id) == r.revision
    ensures forall id :: id in Stale(records, text) <==> exists r :: r in records && r.id == id && RevisionOf(text, id) != r.revision
  {
    hide RevisionOf;
    if records != [] {
      var init, last := records[..|records| - 1], records[|records| - 1];
      NoneStale(init, text);
      assert records == init + [last] && last in records;
      forall r | r in init ensures r in records { }
    }
  }

  /** Accepts exactly the batches of distinct, well-formed records for current text. */
  method ValidateRecords(spec: SpaceSpec, records: seq<VectorRecord>, text: Revisions) returns (r: Upserted<set<Id>>)
    ensures r.Accepted? <==>
      Unique(records) && (forall x :: x in records ==> GoodRecord(spec, x) && RevisionOf(text, x.id) == x.revision)
    ensures r.Accepted? ==> r.value == IdsOf(records)
    ensures r.Rejected? && r.error.Conflict? ==>
      r.error.ids == Stale(records, text) && Unique(records) && forall x :: x in records ==> GoodRecord(spec, x)
    ensures r.Rejected? && r.error.Conflict? ==>
      forall id :: id in r.error.ids <==> exists x :: x in records && x.id == id && RevisionOf(text, id) != x.revision
  {
    hide Invalid, ChangeOf;
    var seen, conflicts: seq<Id> := {}, [];
    for k := 0 to |records|
      invariant seen == IdsOf(records[..k]) && Unique(records[..k])
      invariant forall x :: x in records[..k] ==> GoodRecord(spec, x)
      invariant conflicts == Stale(records[..k], text)
    {
      var x := records[k];
      assert x in records;
      UniqueSnoc(records, k);
      assert records[..k + 1] == records[..k] + [x];
      assert records[..k + 1][..k] == records[..k];
      if x.id == "" || x.revision == "" || x.id in seen {
        return Rejected(BadIdentity);
      }
      seen := seen + {x.id};
      if RevisionOf(text, x.id) != x.revision {
        conflicts := conflicts + [x.id];
      }
      if |x.vector| != spec.dims {
        return Rejected(BadVector(InvalidDimension));
      }
      if Invalid(ChangeOf(spec, x)).Some? {
        return Rejected(BadVector(Invalid(ChangeOf(spec, x)).value));
      }
    }
    assert records[..|records|] == records;
    NoneStale(records, text);
    if conflicts != [] {
      return Rejected(Conflict(conflicts));
    }
    r := Accepted(seen);
  }

  /** A repeated id makes the whole batch refused. */
  lemma UniqueSnoc(records: seq<VectorRecord>, k: nat)
    requires k < |records| && Unique(records[..k])
    ensures records[k].id in IdsOf(records[..k]) ==> !Unique(records)
    ensures records[k].id !in IdsOf(records[..k]) ==> Unique(records[..k + 1])
    ensures IdsOf(records[..k + 1]) == IdsOf(records[..k]) + {records[k].id}
  {
    var init := records[..k];
    assert records[..k + 1] == init + [records[k]];
    if records[k].id in IdsOf(init) {
      var r :| r in init && r.id == records[k].id;
      var j :| 0 <= j < k && init[j] == r;
      assert records[j].id == records[k].id;
    } else {
      forall j | 0 <= j < k ensures records[j].id != records[k].id { assert init[j] in init; }
    }
  }

  // ---------------------------------------------------------------- a new generation

  /** The stored vectors of a space: all in its field, under its specification, for
      exactly the ids that have revisions. */
  ghost predicate Agreement(spec: SpaceSpec, flat: Flat, m: Revisions) {
    && flat.vectors.Keys <= {spec.field} && flat.specs.Keys <= {spec.field}
    && (spec.field in flat.specs ==> flat.specs[spec.field] == Spec(spec.dims, spec.similarity))
    && (forall id :: id in m <==> Look(flat, spec.field, id).Some?)
    && (forall id :: id in m ==> m[id] != "")
  }

  /** Every revision is the text's current one. */
  predicate Current(m: Revisions, text: Revisions) {
    forall id :: id in m ==> RevisionOf(text, id) == m[id]
  }

  /** The revisions kept from the generation before. */
  function Kept(m: Revisions, text: Revisions, seen: set<Id>): Revisions {
    map id | id in m && (RevisionOf(text, id) == m[id] || id in seen) :: m[id]
  }

  function WithRecords(m: Revisions, records: seq<VectorRecord>): Revisions {
    if records == [] then m
    else
      var last := records[|records| - 1];
      WithRecords(m, records[..|records| - 1])[last.id := last.revision]
  }

  lemma {:induction false} WithRecordsFacts(m: Revisions, records: seq<VectorRecord>)
    requires Unique(records)
    ensures forall id :: id in WithRecords(m, records) <==> id in m || id in IdsOf(records)
    ensures forall r :: r in records ==> r.id in WithRecords(m, records) && WithRecords(m, records)[r.id] == r.revision
    ensures forall id :: id in m && id !in IdsOf(records) ==> WithRecords(m, records)[id] == m[id]
  {
    hide IdsOf;
    if records == [] {
      NoIds();
    } else {
      var init, last := records[..|records| - 1], records[|records| - 1];
      WithRecordsFacts(m, init);
      assert records == init + [last];
      LastIsNew(records);
      IdsSnoc(init, last);
    }
  }

  lemma NoIds()
    ensures IdsOf([]) == {}
  {
  }

  lemma IdsSnoc(init: seq<VectorRecord>, last: VectorRecord)
    ensures forall id :: id in IdsOf(init + [last]) <==> id in IdsOf(init) || id == last.id
  {
    assert last in init + [last];
  }

  /** The revisions of the next generation. */
  function NextRevisions(m: Revisions, text: Revisions, records: seq<VectorRecord>): Revisions {
    WithRecords(Kept(m, text, IdsOf(records)), records)
  }

  /** Stale vectors go and records replace or add theirs, so the next generation agrees
      with the text at the time, whatever the generation before held. */
  lemma NextIsCurrent(m: Revisions, text: Revisions, records: seq<VectorRecord>)
    requires Unique(records) && forall r :: r in records ==> RevisionOf(text, r.id) == r.revision
    ensures Current(NextRevisions(m, text, records), text)
    ensures forall id :: id in NextRevisions(m, text, records) <==>
      id in IdsOf(records) || (id in m && RevisionOf(text, id) == m[id])
  {
    var seen := IdsOf(records);
    WithRecordsFacts(Kept(m, text, seen), records);
    forall id | id in NextRevisions(m, text, records) ensures RevisionOf(text, id) == NextRevisions(m, text, records)[id] {
      if id in seen {
        var r :| r in records && r.id == id;
      }
    }
  }

  /** The changes that write the records. */
  function AllChanges(spec: SpaceSpec, records: seq<VectorRecord>): (r: seq<Change>)
    ensures |r| == |records| && forall k :: 0 <= k < |records| ==> r[k] == ChangeOf(spec, records[k])
  {
    if records == [] then [] else AllChanges(spec, records[..|records| - 1]) + [ChangeOf(spec, records[|records| - 1])]
  }

  function Deletion(id: Id): Change {
    Change(id, "", [], "", true)
  }

  ghost predicate Deletions(changes: seq<Change>, ids: set<Id>) {
    && (forall c :: c in changes ==> c == Deletion(c.id) && c.id in ids)
    && (forall id :: id in ids ==> Deletion(id) in changes)
  }

  /** A space whose records may be written: the stored vectors agree with the revisions,
      and the records are distinct, well formed and for current text. */
  ghost predicate Writable(spec: SpaceSpec, flat: Flat, m: Revisions, text: Revisions, records: seq<VectorRecord>) {
    && Agreement(spec, flat, m) && Unique(records)
    && forall r :: r in records ==> GoodRecord(spec, r) && RevisionOf(text, r.id) == r.revision
  }

  /** The vectors of the next generation: those of its revisions, the records' own for
      their ids, and for the others what was stored before. */
  ghost predicate NextGeneration(spec: SpaceSpec, before: Flat, after: Flat, next: Revisions, records: seq<VectorRecord>) {
    && Agreement(spec, after, next)
    && (forall r :: r in records ==> Look(after, spec.field, r.id) == Some(r.vector))
    && (forall id :: id in next && id !in IdsOf(records) ==> Look(after, spec.field, id) == Look(before, spec.field, id))
  }

  /** Builds the changes and the next revisions. */
  method ChangesFor(spec: SpaceSpec, m: Revisions, text: Revisions, records: seq<VectorRecord>, seen: set<Id>)
    returns (changes: seq<Change>, next: Revisions, ghost stale: seq<Change>)
    requires Unique(records) && seen == IdsOf(records)
    ensures next == NextRevisions(m, text, records)
    ensures changes == stale + AllChanges(spec, records) && Deletions(stale, m.Keys - Kept(m, text, seen).Keys)
  {
    hide Unique, IdsOf, Kept, Deletions;
    ghost var kept;
    changes, next := StaleChanges(m, text, seen);
    stale, kept := changes, next;
    for k := 0 to |records|
      invariant changes == stale + AllChanges(spec, records[..k])
      invariant next == WithRecords(kept, records[..k])
    {
      assert records[..k + 1][..k] == records[..k] && records[..k + 1][k] == records[k];
      changes := changes + [ChangeOf(spec, records[k])];
      next := next[records[k].id := records[k].revision];
    }
    assert records[..|records|] == records;
  }

  /** The next generation in the flat store, unless its file cannot be written. */
  method PrepareGeneration(spec: SpaceSpec, m: Revisions, text: Revisions, records: seq<VectorRecord>, seen: set<Id>,
                           vectors: FlatVectorIndex, writable: bool)
    returns (next: Revisions, error: Option<Error>)
    requires Writable(spec, vectors.State(), m, text, records) && seen == IdsOf(records)
    modifies vectors
    ensures writable ==> error == None
    ensures error.None? ==> next == NextRevisions(m, text, records)
    ensures error.None? ==> NextGeneration(spec, old(vectors.State()), vectors.State(), next, records)
    ensures error.Some? ==> vectors.State() == old(vectors.State())
  {
    hide Agreement, GoodRecord, FlatAfter, Look, Deletions, NextGeneration, IdsOf;
    var changes;
    ghost var stale;
    changes, next, stale := ChangesFor(spec, m, text, records, seen);
    AppliedAgrees(spec, vectors.State(), m, text, records, stale);
    AppliedNothing(vectors.State(), changes);
    error := vectors.ApplyVectorChanges(changes, writable);
  }

  /** The next generation in the keyed store, as long as there are keys for its new ids. */
  method PrepareKeyedGeneration(spec: SpaceSpec, m: Revisions, text: Revisions, records: seq<VectorRecord>, seen: set<Id>,
                                vectors: KeyedVectors.UsearchVectorIndex, ghost before: Flat)
    returns (next: Revisions, error: Option<Error>, ghost after: Flat)
    requires vectors.Valid() && vectors.Agrees(before) && !vectors.closed
    requires Writable(spec, before, m, text, records) && seen == IdsOf(records)
    requires |seen - vectors.ids.Keys| <= vectors.Spare()
    modifies vectors
    ensures error == None && next == NextRevisions(m, text, records)
    ensures vectors.Valid() && vectors.Agrees(after) && NextGeneration(spec, before, after, next, records)
  {
    hide Agreement, GoodRecord, FlatAfter, Look, Deletions, NextGeneration, IdsOf, KeyedVectors.UsearchVectorIndex.Valid,
         KeyedVectors.UsearchVectorIndex.Agrees, KeyedVectors.PutIds;
    var changes;
    ghost var stale;
    changes, next, stale := ChangesFor(spec, m, text, records, seen);
    AppliedAgrees(spec, before, m, text, records, stale);
    RecordsPut(spec, stale, m.Keys - Kept(m, text, seen).Keys, records);
    after := FlatAfter(before, changes).value;
    AppliedNothing(before, changes);
    error := vectors.ApplyVectorChanges(changes, before);
  }

  lemma AppliedNothing(before: Flat, changes: seq<Change>)
    ensures changes == [] ==> FlatAfter(before, changes) == Ok(before)
  {
  }

  /** Only the records' ids get vectors. */
  lemma RecordsPut(spec: SpaceSpec, stale: seq<Change>, ids: set<Id>, records: seq<VectorRecord>)
    requires Deletions(stale, ids)
    ensures KeyedVectors.PutIds(stale + AllChanges(spec, records)) == IdsOf(records)
  {
    var changes := stale + AllChanges(spec, records);
    forall id ensures id in KeyedVectors.PutIds(changes) <==> id in IdsOf(records) {
      if id in IdsOf(records) {
        var r :| r in records && r.id == id;
        var k :| 0 <= k < |records| && records[k] == r;
        assert AllChanges(spec, records)[k] in changes;
      }
    }
  }

  method StaleChanges(m: Revisions, text: Revisions, seen: set<Id>) returns (changes: seq<Change>, kept: Revisions)
    ensures kept == Kept(m, text, seen)
    ensures Deletions(changes, m.Keys - kept.Keys)
  {
    changes, kept := [], m;
    var todo := m.Keys;
    while todo != {}
      invariant todo <= m.Keys
      invariant kept == map id | id in m && (id in todo || RevisionOf(text, id) == m[id] || id in seen) :: m[id]
      invariant Deletions(changes, m.Keys - kept.Keys)
      decreases todo
    {
      var id :| id in todo;
      if RevisionOf(text, id) != m[id] && id !in seen {
        changes := changes + [Deletion(id)];
        kept := kept - {id};
      }
      todo := todo - {id};
    }
  }

  lemma AppliedAgrees(spec: SpaceSpec, flat: Flat, m: Revisions, text: Revisions, records: seq<VectorRecord>, stale: seq<Change>)
    requires Writable(spec, flat, m, text, records)
    requires Deletions(stale, m.Keys - Kept(m, text, IdsOf(records)).Keys)
    ensures
      var after := FlatAfter(flat, stale + AllChanges(spec, records));
      after.Ok? && NextGeneration(spec, flat, after.value, NextRevisions(m, text, records), records)
  {
    var kept, changes := Kept(m, text, IdsOf(records)), AllChanges(spec, records);
    DeletesApply(spec, flat, stale);
    var middle := FlatAfter(flat, stale).value;
    RecordsApply(spec, middle, records);
    Concatenated(flat, stale, changes);
    var after := FlatAfter(middle, changes).value;
    WithRecordsFacts(kept, records);
    RemovedAre(stale, m.Keys - kept.Keys);
    assert forall id :: id in NextRevisions(m, text, records) <==> Look(after, spec.field, id).Some?;
    forall id | id in NextRevisions(m, text, records) ensures NextRevisions(m, text, records)[id] != "" {
      if id in IdsOf(records) { var r :| r in records && r.id == id; }
    }
  }

  lemma RemovedAre(changes: seq<Change>, ids: set<Id>)
    requires Deletions(changes, ids)
    ensures forall id :: Removed(changes, id) <==> id in ids
  {
    forall id ensures Removed(changes, id) <==> id in ids {
      if id in ids { assert Deletion(id) in changes; }
    }
  }

  /** Only the space's field, under its specification. */
  ghost predicate Shaped(spec: SpaceSpec, flat: Flat) {
    && flat.vectors.Keys <= {spec.field} && flat.specs.Keys <= {spec.field}
    && (spec.field in flat.specs ==> flat.specs[spec.field] == Spec(spec.dims, spec.similarity))
  }

  ghost predicate Removed(changes: seq<Change>, id: Id) {
    exists c :: c in changes && c.id == id
  }

  lemma {:induction false} DeletesApply(spec: SpaceSpec, flat: Flat, stale: seq<Change>)
    requires Shaped(spec, flat) && forall c :: c in stale ==> c == Deletion(c.id)
    ensures FlatAfter(flat, stale).Ok? && Shaped(spec, FlatAfter(flat, stale).value)
    ensures forall id ::
      Look(FlatAfter(flat, stale).value, spec.field, id) == if Removed(stale, id) then None else Look(flat, spec.field, id)
  {
    hide Look;
    if stale != [] {
      var init, last := stale[..|stale| - 1], stale[|stale| - 1];
      assert stale == init + [last];
      DeletesApply(spec, flat, init);
      var g := FlatAfter(flat, init).value;
      forall id
        ensures Removed(stale, id) <==> Removed(init, id) || id == last.id
        ensures Look(FlatStep(g, last).value, spec.field, id) == if Removed(stale, id) then None else Look(flat, spec.field, id)
      {
        assert last in stale;
        StepLook(g, last, spec.field, id);
      }
    }
  }

  lemma {:induction false} RecordsApply(spec: SpaceSpec, flat: Flat, records: seq<VectorRecord>)
    requires Shaped(spec, flat) && Unique(records) && forall r :: r in records ==> GoodRecord(spec, r)
    ensures
      var after := FlatAfter(flat, AllChanges(spec, records));
      && after.Ok? && Shaped(spec, after.value)
      && (forall r :: r in records ==> Look(after.value, spec.field, r.id) == Some(r.vector))
      && (forall id :: id !in IdsOf(records) ==> Look(after.value, spec.field, id) == Look(flat, spec.field, id))
  {
    hide Look, GoodRecord, FlatStep, Shaped, ChangeOf;
    if records != [] {
      var init, last := records[..|records| - 1], records[|records| - 1];
      assert records == init + [last];
      RecordsApply(spec, flat, init);
      var g := FlatAfter(flat, AllChanges(spec, init)).value;
      var changes := AllChanges(spec, records);
      assert changes[..|init|] == AllChanges(spec, init) && changes[|init|] == ChangeOf(spec, last);
      OneRecord(spec, g, last);
      LastIsNew(records);
    }
  }

  lemma OneRecord(spec: SpaceSpec, g: Flat, r: VectorRecord)
    requires Shaped(spec, g) && GoodRecord(spec, r)
    ensures FlatStep(g, ChangeOf(spec, r)).Ok? && Shaped(spec, FlatStep(g, ChangeOf(spec, r)).value)
    ensures forall id ::
      Look(FlatStep(g, ChangeOf(spec, r)).value, spec.field, id) == if id == r.id then Some(r.vector) else Look(g, spec.field, id)
  {
    hide Look, Invalid;
    var h := FlatStep(g, ChangeOf(spec, r)).value;
    forall id ensures Look(h, spec.field, id) == if id == r.id then Some(r.vector) else Look(g, spec.field, id) {
      StepLook(g, ChangeOf(spec, r), spec.field, id);
    }
  }

  lemma LastIsNew(records: seq<VectorRecord>)
    requires Unique(records) && records != []
    ensures forall r :: r in records[..|records| - 1] ==> r.id != records[|records| - 1].id
  {
    var init := records[..|records| - 1];
    forall r | r in init ensures r.id != records[|records| - 1].id {
      var i :| 0 <= i < |init| && init[i] == r;
      assert records[i].id != records[|init|].id;
    }
  }

  lemma {:induction false} Concatenated(flat: Flat, a: seq<Change>, b: seq<Change>)
    requires FlatAfter(flat, a).Ok?
    ensures FlatAfter(flat, a + b) == FlatAfter(FlatAfter(flat, a).value, b)
  {
    if b == [] {
      assert a + b == a;
    } else {
      assert (a + b)[..|a + b| - 1] == a + b[..|b| - 1];
      Concatenated(flat, a, b[..|b| - 1]);
    }
  }
}
