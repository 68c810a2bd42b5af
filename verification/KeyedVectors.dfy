/** The store that keeps vectors in one native index per field, under numeric keys, and
    applies a batch in two passes. */
module KeyedVectors {
  import opened Basics
  import opened VectorChanges

  /** A native index: the vectors by key. */
  type Native = map<Key, Vector>

  /** The removals and additions a batch asks for, field by field. */
  datatype Plan = Plan(removals: map<Field, set<Key>>, additions: map<Field, Native>, compact: set<Field>)

  function Removals(p: Plan, field: Field): set<Key> {
    if field in p.removals then p.removals[field] else {}
  }

  function Additions(p: Plan, field: Field): Native {
    if field in p.additions then p.additions[field] else map[]
  }

  function QueueRemoval(p: Plan, field: Field, key: Key, compact: bool): Plan {
    p.(removals := p.removals[field := Removals(p, field) + {key}],
       compact := if compact then p.compact + {field} else p.compact)
  }

  function DropAddition(p: Plan, field: Field, key: Key): Plan {
    if field in p.additions then p.(additions := p.additions[field := p.additions[field] - {key}]) else p
  }

  function QueueAddition(p: Plan, field: Field, key: Key, v: Vector): Plan {
    p.(additions := p.additions[field := Additions(p, field)[key := v]])
  }

  function LookIn(native: Native, key: Key): Option<Vector> {
    if key in native then Some(native[key]) else None
  }

  /** What a field's index holds under a key once the plan is carried out. */
  function PlannedAt(native: Native, p: Plan, field: Field, key: Key): Option<Vector> {
    if key in Additions(p, field) then Some(Additions(p, field)[key])
    else if key in Removals(p, field) then None
    else LookIn(native, key)
  }

  ghost predicate IndexOk(native: Native, reverse: map<Key, Id>, dims: nat) {
    forall k :: k in native ==> k in reverse && |native[k]| == dims
  }

  /** Additions are for keys the plan also removes, so none is ever added twice. */
  ghost predicate PlanOk(p: Plan, fields: Specs, reverse: map<Key, Id>) {
    && p.removals.Keys <= fields.Keys && p.additions.Keys <= p.removals.Keys
    && (forall f :: f in p.removals ==> p.removals[f] <= reverse.Keys)
    && (forall f :: f in p.additions ==> AdditionsOk(p.additions[f], p.removals[f], fields[f].dims))
  }

  ghost predicate AdditionsOk(additions: Native, removals: set<Key>, dims: nat) {
    additions.Keys <= removals && forall k :: k in additions ==> |additions[k]| == dims
  }

  /** Buffers additions and hands them to the native index in bounded batches. */
  class BatchAdder {
    const dimensions: nat
    const rows: nat
    var native: Native
    var keys: seq<Key>
    var vectors: seq<Vector>

    ghost predicate Valid()
      reads this
    {
      && |keys| == |vectors| <= rows && rows >= 1
      && (forall i :: 0 <= i < |keys| ==> keys[i] !in native)
      && (forall i, j :: 0 <= i < j < |keys| ==> keys[i] != keys[j])
    }

    /** The index with the buffered rows in it. */
    ghost function Total(): Native
      reads this
      requires Valid()
    {
      native + Rows(keys, vectors)
    }

    constructor (native: Native, dimensions: nat)
      ensures Valid() && Total() == native && this.dimensions == dimensions
      ensures keys == [] && this.native == native
      ensures dimensions > 0 ==> rows <= 4096 && (rows == 1 || rows * dimensions <= 1048576)
      ensures dimensions > 0 ==> rows == 4096 || (rows + 1) * dimensions > 1048576
      ensures dimensions == 0 ==> rows == 1
    {
      var capacity := 1;
      if dimensions > 0 {
        capacity := BATCH_TARGET_VALUES / dimensions;
        if capacity < 1 {
          capacity := 1;
        }
        if capacity > BATCH_MAX_ROWS {
          capacity := BATCH_MAX_ROWS;
        }
        RowsFit(dimensions, capacity);
      }
      this.dimensions, rows := dimensions, capacity;
      this.native, keys, vectors := native, [], [];
    }

    method Flush()
      requires Valid()
      modifies this
      ensures Valid() && keys == [] && Total() == native == old(Total())
    {
      native := native + Rows(keys, vectors);
      keys, vectors := [], [];
    }

    method Add(key: Key, vector: Vector) returns (error: Option<Error>)
      requires Valid() && key !in Total()
      modifies this
      ensures Valid() && error == (if |vector| == dimensions then None else Some(InvalidDimension))
      ensures Total() == if error.None? then old(Total())[key := vector] else old(Total())
      ensures error.None? ==> keys == if |old(keys)| == rows then [key] else old(keys) + [key]
      ensures error.Some? ==> keys == old(keys) && native == old(native)
    {
      hide Rows;
      if |vector| != dimensions {
        return Some(InvalidDimension);
      }
      if |keys| == rows {
        Flush();
      }
      RowKeys(keys, vectors);
      RowsSnoc(keys, vectors, key, vector);
      AddLast(native, Rows(keys, vectors), key, vector);
      keys, vectors, error := keys + [key], vectors + [vector], None;
    }
  }

  lemma FieldApplied(native: Native, p: Plan, field: Field, reverse: map<Key, Id>, dims: nat)
    requires IndexOk(native, reverse, dims) && Removals(p, field) <= reverse.Keys
    requires AdditionsOk(Additions(p, field), Removals(p, field), dims)
    ensures
      var after := (native - Removals(p, field)) + Additions(p, field);
      IndexOk(after, reverse, dims) && forall k :: LookIn(after, k) == PlannedAt(native, p, field, k)
    ensures Additions(p, field) == map[] ==> (native - Removals(p, field)) + Additions(p, field) == native - Removals(p, field)
    ensures forall k :: k in Additions(p, field) ==>
      k !in native - Removals(p, field) && |Additions(p, field)[k]| == dims
  {
  }

  lemma OneMoreAdded(before: Native, additions: Native, todo: set<Key>, key: Key)
    requires key in todo && todo <= additions.Keys && key !in before
    ensures key !in before + (additions - todo)
    ensures before + (additions - (todo - {key})) == (before + (additions - todo))[key := additions[key]]
  {
  }

  lemma AddLast(a: Native, b: Native, key: Key, v: Vector)
    ensures a + b[key := v] == (a + b)[key := v]
  {
  }

  function Rows(keys: seq<Key>, vectors: seq<Vector>): Native
    requires |keys| == |vectors|
  {
    if keys == [] then map[]
    else Rows(keys[..|keys| - 1], vectors[..|keys| - 1])[keys[|keys| - 1] := vectors[|keys| - 1]]
  }

  lemma RowsSnoc(keys: seq<Key>, vectors: seq<Vector>, key: Key, vector: Vector)
    requires |keys| == |vectors|
    ensures Rows(keys + [key], vectors + [vector]) == Rows(keys, vectors)[key := vector]
  {
    assert (keys + [key])[..|keys|] == keys && (vectors + [vector])[..|keys|] == vectors;
  }

  lemma {:induction false} RowKeys(keys: seq<Key>, vectors: seq<Vector>)
    requires |keys| == |vectors|
    ensures forall k :: k in Rows(keys, vectors) <==> k in keys
  {
    if keys != [] {
      RowKeys(keys[..|keys| - 1], vectors[..|keys| - 1]);
      assert keys == keys[..|keys| - 1] + [keys[|keys| - 1]];
    }
  }

  lemma RowsFit(dimensions: nat, capacity: nat)
    requires dimensions > 0 && capacity >= 1 && capacity <= BATCH_MAX_ROWS
    requires capacity == 1 || capacity <= BATCH_TARGET_VALUES / dimensions
    requires capacity == BATCH_MAX_ROWS || capacity >= BATCH_TARGET_VALUES / dimensions
    ensures capacity == 1 || capacity * dimensions <= BATCH_TARGET_VALUES
    ensures capacity == BATCH_MAX_ROWS || (capacity + 1) * dimensions > BATCH_TARGET_VALUES
  {
    var q := BATCH_TARGET_VALUES / dimensions;
    assert q * dimensions <= BATCH_TARGET_VALUES < q * dimensions + dimensions;
    if capacity != 1 { assert capacity * dimensions <= q * dimensions; }
    if capacity != BATCH_MAX_ROWS { assert (capacity + 1) * dimensions >= (q + 1) * dimensions; }
  }

  /** The ids a batch gives vectors to. */
  function PutIds(changes: seq<Change>): set<Id> {
    set c | c in changes && !c.delete :: c.id
  }

  lemma OneMoreId(ids: set<Id>, id: Id)
    ensures |ids + {id}| == |ids| + if id in ids then 0 else 1
    ensures id in ids ==> ids + {id} == ids
  {
    if id in ids { assert ids + {id} == ids; }
  }

  /** The ids that need a new key are no more than the keys left. */
  lemma KeysSuffice(changes: seq<Change>, k: nat, known: set<Id>, spare: nat)
    requires k < |changes| && !changes[k].delete && |PutIds(changes) - known| <= spare
    ensures
      var now := known + PutIds(changes[..k]);
      changes[k].id !in now ==> |now| < |known| + spare
  {
    var now, all := known + PutIds(changes[..k]), known + PutIds(changes);
    if changes[k].id !in now {
      assert changes[k] in changes;
      assert now + {changes[k].id} <= all;
      SmallerSet(now + {changes[k].id}, all);
      assert all == known + (PutIds(changes) - known);
    }
  }

  lemma {:induction false} SmallerSet(a: set<Id>, b: set<Id>)
    requires a <= b
    ensures |a| <= |b|
  {
    assert b == a + (b - a);
  }

  lemma PutIdsSnoc(changes: seq<Change>, k: nat)
    requires k < |changes|
    ensures PutIds(changes[..k + 1]) == PutIds(changes[..k]) + if changes[k].delete then {} else {changes[k].id}
  {
    assert changes[..k + 1] == changes[..k] + [changes[k]];
  }

  /** The state of the store: a key for each id and back, and an index for each field. */
  datatype Store = Store(ids: map<Id, Key>, nextKey: Key, reverse: map<Key, Id>, fields: Specs, indices: map<Field, Native>)

  /** The next key; after the last of all keys the counter has wrapped around to 0. */
  function LimitOf(s: Store): nat {
    if s.nextKey == 0 then UINT64_SIZE else s.nextKey
  }

  /** Every id has its own key, and all keys are below the next one. */
  ghost predicate KeysOk(s: Store) {
    && (forall id :: id in s.ids ==> 1 <= s.ids[id] < LimitOf(s) && s.ids[id] in s.reverse && s.reverse[s.ids[id]] == id)
    && (forall k :: k in s.reverse ==> s.reverse[k] in s.ids && s.ids[s.reverse[k]] == k)
  }

  /** Every stored vector belongs to an id and has its field's dimensions. */
  ghost predicate IndicesOk(s: Store) {
    && s.fields.Keys == s.indices.Keys
    && forall f :: f in s.indices ==> IndexOk(s.indices[f], s.reverse, s.fields[f].dims)
  }

  /** What will be stored for a field and id once the plan is carried out. */
  function PlannedIn(s: Store, p: Plan, field: Field, id: Id): Option<Vector> {
    if id in s.ids && field in s.indices then PlannedAt(s.indices[field], p, field, s.ids[id]) else None
  }

  /** Carrying out the plan gives the vectors of the flat store. */
  ghost predicate Leads(s: Store, p: Plan, flat: Flat) {
    forall f, id :: PlannedIn(s, p, f, id) == Look(flat, f, id)
  }

  /** The store once an id has a key. */
  function Keyed(s: Store, id: Id): Store {
    if id in s.ids then s
    else
      var key := if s.nextKey == 0 then 1 else s.nextKey;
      s.(ids := s.ids[id := key], reverse := s.reverse[key := id], nextKey := if key == UINT64_SIZE - 1 then 0 else key + 1)
  }

  /** A new key keeps the keys apart if and only if there is one left, or none was given out. */
  lemma KeyedExactly(s: Store, id: Id)
    requires KeysOk(s)
    ensures KeysOk(Keyed(s, id)) <==> id in s.ids || s.nextKey != 0 || s.ids == map[]
    ensures Keyed(s, id).ids.Keys == s.ids.Keys + {id}
    ensures id !in s.ids && s.nextKey != 0 ==> s.nextKey !in s.reverse && LimitOf(Keyed(s, id)) == LimitOf(s) + 1
  {
    var t := Keyed(s, id);
    if id !in s.ids && s.nextKey == 0 && s.ids != map[] {
      var other :| other in s.ids;
      assert t.ids[other] >= LimitOf(t) || t.reverse[1] == id != other;
    }
  }

  lemma KeyedKeepsPlan(s: Store, id: Id, p: Plan, flat: Flat)
    requires KeysOk(s) && IndicesOk(s) && PlanOk(p, s.fields, s.reverse) && Leads(s, p, flat)
    requires id in s.ids || s.nextKey != 0
    ensures
      var t := Keyed(s, id);
      KeysOk(t) && IndicesOk(t) && PlanOk(p, t.fields, t.reverse) && Leads(t, p, flat) && t.ids[id] in t.reverse
  {
    hide PlanOk, PlannedAt, Look, KeysOk;
    var t := Keyed(s, id);
    KeyedExactly(s, id);
    KeyInReverse(t, id);
    if id !in s.ids {
      PlanOkLater(p, s.fields, s.reverse, t.reverse);
      FreshKeyIsUnplanned(p, s.fields, s.reverse, s.nextKey);
      forall f, i ensures PlannedIn(t, p, f, i) == Look(flat, f, i) {
        assert PlannedIn(s, p, f, i) == Look(flat, f, i);
      }
    }
  }

  lemma KeyInReverse(s: Store, id: Id)
    requires KeysOk(s) && id in s.ids
    ensures s.ids[id] in s.reverse && forall i :: i in s.ids && s.ids[i] == s.ids[id] ==> i == id
  {
  }

  /** The store once a field has an index. */
  function WithField(s: Store, c: Change): Store {
    if c.field in s.indices then s
    else s.(indices := s.indices[c.field := map[]], fields := s.fields[c.field := Spec(|c.vector|, c.similarity)])
  }

  lemma FieldKeepsPlan(s: Store, c: Change, p: Plan, flat: Flat)
    requires IndicesOk(s) && PlanOk(p, s.fields, s.reverse) && Leads(s, p, flat) && !c.delete && SpecsStep(s.fields, c).Ok?
    ensures
      var t := WithField(s, c);
      && IndicesOk(t) && PlanOk(p, t.fields, t.reverse) && Leads(t, p, flat) && (KeysOk(s) ==> KeysOk(t))
      && SpecsStep(s.fields, c) == Ok(t.fields) && c.field in t.indices && t.fields[c.field].dims == |c.vector|
  {
    hide Invalid, PlanOk, PlannedAt, Look, IndexOk;
    FieldIndexed(s);
    if c.field !in s.indices {
      var t := WithField(s, c);
      MoreFields(p, s.fields, s.reverse, c.field, Spec(|c.vector|, c.similarity));
      EmptyIndexOk(s.reverse, |c.vector|);
      forall f, id ensures PlannedIn(t, p, f, id) == Look(flat, f, id) {
        assert PlannedIn(s, p, f, id) == Look(flat, f, id);
      }
    }
  }

  lemma EmptyIndexOk(reverse: map<Key, Id>, dims: nat)
    ensures IndexOk(map[], reverse, dims)
  {
  }

  /** A plan says nothing of a field that has no index yet. */
  lemma MoreFields(p: Plan, fields: Specs, reverse: map<Key, Id>, field: Field, spec: Spec)
    requires PlanOk(p, fields, reverse) && field !in fields
    ensures PlanOk(p, fields[field := spec], reverse)
    ensures forall k :: PlannedAt(map[], p, field, k) == None
  {
    hide AdditionsOk;
  }

  lemma AddedLeads(s: Store, p: Plan, flat: Flat, c: Change)
    requires KeysOk(s) && PlanOk(p, s.fields, s.reverse) && Leads(s, p, flat) && !c.delete && FlatStep(flat, c).Ok?
    requires c.id in s.ids && c.field in s.indices && s.fields.Keys == s.indices.Keys && s.fields[c.field].dims == |c.vector|
    ensures
      var q := QueueAddition(QueueRemoval(p, c.field, s.ids[c.id], false), c.field, s.ids[c.id], c.vector);
      PlanOk(q, s.fields, s.reverse) && Leads(s, q, FlatStep(flat, c).value)
  {
    hide PlanOk, PlannedAt, QueueRemoval, QueueAddition, Look, FlatStep, KeysOk;
    var key := s.ids[c.id];
    KeyInReverse(s, c.id);
    AdditionStep(p, s.fields, s.reverse, c.field, key, c.vector);
    var q := QueueAddition(QueueRemoval(p, c.field, key, false), c.field, key, c.vector);
    forall f, id ensures PlannedIn(s, q, f, id) == Look(FlatStep(flat, c).value, f, id) {
      StepLook(flat, c, f, id);
      assert PlannedIn(s, p, f, id) == Look(flat, f, id);
    }
  }

  class UsearchVectorIndex {
    var ids: map<Id, Key>
    var nextKey: Key
    var reverse: map<Key, Id>
    var fields: Specs
    var indices: map<Field, Native>
    var closed: bool

    ghost function Value(): Store
      reads this
    {
      Store(ids, nextKey, reverse, fields, indices)
    }

    /** How many keys are left. */
    ghost function Spare(): nat
      reads this
    {
      UINT64_SIZE - LimitOf(Value())
    }

    ghost predicate Valid()
      reads this
    {
      KeysOk(Value()) && IndicesOk(Value())
    }

    function Stored(field: Field, id: Id): Option<Vector>
      reads this
    {
      if id in ids && field in indices then LookIn(indices[field], ids[id]) else None
    }

    /** Same specifications and same vectors as a flat store. */
    ghost predicate Agrees(flat: Flat)
      reads this
    {
      fields == flat.specs && forall f, id :: Stored(f, id) == Look(flat, f, id)
    }

    /** What will be stored once the plan is carried out. */
    ghost function Planned(p: Plan, field: Field, id: Id): Option<Vector>
      reads this
    {
      PlannedIn(Value(), p, field, id)
    }

    ghost predicate Follows(p: Plan, flat: Flat)
      reads this
    {
      Valid() && PlanOk(p, fields, reverse) && fields == flat.specs && Leads(Value(), p, flat)
    }

    constructor ()
      ensures Valid() && Agrees(Flat(map[], map[])) && nextKey == 1 && !closed
    {
      ids, nextKey, reverse, fields, indices, closed := map[], 1, map[], map[], map[], false;
    }

    /** The key of an id, a new one if it has none. The keys stay apart and in order if and
        only if the id has one, or keys are left, or none was given out; otherwise key 1 is
        given out again. */
    method KeyOf(id: Id) returns (key: Key)
      requires Valid()
      modifies this`ids, this`nextKey, this`reverse
      ensures Value() == Keyed(old(Value()), id) && id in ids && key == ids[id]
      ensures KeysOk(Value()) <==> id in old(ids) || old(nextKey) != 0 || old(ids) == map[]
    {
      KeyedExactly(Value(), id);
      if id in ids {
        return ids[id];
      }
      key := if nextKey == 0 then 1 else nextKey;
      nextKey := if key == UINT64_SIZE - 1 then 0 else key + 1;
      ids := ids[id := key];
      reverse := reverse[key := id];
    }

    /** Plans a deletion: in one field, or in all. */
    method PlanDelete(c: Change, plan: Plan, ghost flat: Flat) returns (p: Plan)
      requires Follows(plan, flat) && c.delete
      ensures FlatStep(flat, c).Ok? && Follows(p, FlatStep(flat, c).value)
    {
      hide PlanOk, PlannedAt, QueueRemoval, DropAddition;
      p := plan;
      if c.id in ids {
        var key := ids[c.id];
        assert forall id :: id in ids && ids[id] == key ==> id == c.id;
        if c.field == "" {
          var todo := indices.Keys;
          while todo != {}
            invariant todo <= indices.Keys
            invariant PlanOk(p, fields, reverse)
            invariant forall f, id :: f in indices ==>
              Planned(p, f, id) == if f !in todo && id == c.id then None else Planned(plan, f, id)
            decreases todo
          {
            var field :| field in todo;
            ghost var before := p;
            RemovalStep(p, fields, reverse, field, key, true);
            p := DropAddition(QueueRemoval(p, field, key, true), field, key);
            todo := todo - {field};
            forall f, id | f in indices
              ensures Planned(p, f, id) == if f !in todo && id == c.id then None else Planned(plan, f, id)
            {
              assert Planned(p, f, id) == if f == field && id == c.id then None else Planned(before, f, id);
            }
          }
        } else if c.field in indices {
          RemovalStep(p, fields, reverse, c.field, key, true);
          p := DropAddition(QueueRemoval(p, c.field, key, true), c.field, key);
        }
      }
      forall f, id ensures Planned(p, f, id) == Look(FlatStep(flat, c).value, f, id) {
        StepLook(flat, c, f, id);
        assert Planned(plan, f, id) == Look(flat, f, id);
      }
    }

    /** A field's index exists from its first vector on. */
    method EnsureField(c: Change)
      modifies this`indices, this`fields
      ensures Value() == WithField(old(Value()), c)
    {
      if c.field !in indices {
        indices := indices[c.field := map[]];
        fields := fields[c.field := Spec(|c.vector|, c.similarity)];
      }
    }

    /** Plans an addition, which replaces what the id had. */
    method PlanPut(c: Change, plan: Plan, ghost flat: Flat) returns (p: Plan)
      requires Follows(plan, flat) && !c.delete && SpecsStep(fields, c).Ok? && (c.id in ids || nextKey != 0)
      modifies this`ids, this`nextKey, this`reverse, this`fields, this`indices
      ensures FlatStep(flat, c).Ok? && Follows(p, FlatStep(flat, c).value)
      ensures ids.Keys == old(ids).Keys + {c.id} && Spare() == old(Spare()) - if c.id in old(ids) then 0 else 1
    {
      hide PlanOk, QueueRemoval, QueueAddition, SpecsStep, Leads, KeysOk, IndicesOk;
      KeyedExactly(Value(), c.id);
      KeyedKeepsPlan(Value(), c.id, plan, flat);
      FieldKeepsPlan(Keyed(Value(), c.id), c, plan, flat);
      var key := KeyOf(c.id);
      EnsureField(c);
      FieldIndexed(Value());
      AddedLeads(Value(), plan, flat, c);
      p := QueueAddition(QueueRemoval(plan, c.field, key, false), c.field, key, c.vector);
    }

    /** Carries out the plan in one field: removals first, then buffered additions. */
    method ApplyField(field: Field, p: Plan)
      requires Valid() && PlanOk(p, fields, reverse) && field in p.removals
      modifies this`indices
      ensures Valid() && indices.Keys == old(indices).Keys
      ensures forall f :: f in indices && f != field ==> indices[f] == old(indices)[f]
      ensures field in indices
      ensures forall k :: LookIn(indices[field], k) == PlannedAt(old(indices)[field], p, field, k)
    {
      hide PlanOk, PlannedAt, LookIn, IndexOk;
      PlanOfField(p, fields, reverse, field);
      var native, additions := indices[field] - p.removals[field], Additions(p, field);
      FieldApplied(indices[field], p, field, reverse, fields[field].dims);
      if additions != map[] {
        native := AddAll(native, additions, fields[field].dims);
      }
      indices := indices[field := native];
    }

    /** Adds vectors under keys the index does not hold, in any order. */
    method AddAll(before: Native, additions: Native, dims: nat) returns (native: Native)
      requires forall k :: k in additions ==> k !in before && |additions[k]| == dims
      ensures native == before + additions
    {
      hide Rows, BatchAdder.Valid, BatchAdder.Total;
      var adder := new BatchAdder(before, dims);
      var todo := additions.Keys;
      assert before + (additions - todo) == before;
      while todo != {}
        invariant fresh(adder) && adder.Valid() && adder.dimensions == dims
        invariant todo <= additions.Keys
        invariant adder.Total() == before + (additions - todo)
        decreases todo
      {
        var key :| key in todo;
        OneMoreAdded(before, additions, todo, key);
        var error := adder.Add(key, additions[key]);
        todo := todo - {key};
      }
      assert additions - {} == additions;
      adder.Flush();
      native := adder.native;
    }

    /** Accepts the batches that applying the changes one after the other accepts, and
        ends with the same vectors. */
    method ApplyVectorChanges(changes: seq<Change>, ghost flat: Flat) returns (error: Option<Error>)
      requires Valid() && Agrees(flat) && |PutIds(changes) - ids.Keys| <= Spare()
      modifies this`ids, this`nextKey, this`reverse, this`fields, this`indices
      ensures Valid()
      ensures
        if changes == [] then error == None && Agrees(flat)
        else if closed then error == Some(Closed) && Agrees(flat)
        else
          match FlatAfter(flat, changes)
          case Err(e) => error == Some(e) && Agrees(flat)
          case Ok(g) => error == None && Agrees(g)
    {
      hide Follows, Counted, Valid, Agrees, PutIds, FlatStep, SpecsStep;
      if changes == [] {
        return None;
      }
      if closed {
        return Some(Closed);
      }
      SameVerdict(flat, changes);
      SameFields(flat);
      var verdict := Validate(changes);
      if verdict.Some? {
        return verdict;
      }
      var p := Plan(map[], map[], {});
      NoPlan(flat, this);
      ghost var known, spare := ids.Keys, Spare();
      StartsCounted(changes);
      for k := 0 to |changes|
        invariant FlatAfter(flat, changes[..k]).Ok? && Follows(p, FlatAfter(flat, changes[..k]).value)
        invariant Counted(changes[..k], known, spare)
      {
        p := PlanChange(changes, k, p, flat, known, spare);
      }
      assert changes[..|changes|] == changes;
      CarryOut(p, FlatAfter(flat, changes).value);
      error := None;
    }

    /** The ids known are those known before and those given vectors, and keys went to the new ones. */
    ghost predicate Counted(changes: seq<Change>, known: set<Id>, spare: nat)
      reads this
    {
      ids.Keys == known + PutIds(changes) && Spare() + |ids.Keys| == spare + |known|
    }

    lemma SameFields(flat: Flat)
      requires Agrees(flat)
      ensures fields == flat.specs
    {
    }

    lemma StartsCounted(changes: seq<Change>)
      ensures Counted(changes[..0], ids.Keys, Spare())
      ensures changes[..0] == []
    {
      assert PutIds([]) == {};
    }

    /** Plans one change of an accepted batch. */
    method PlanChange(changes: seq<Change>, k: nat, plan: Plan, ghost flat: Flat, ghost known: set<Id>, ghost spare: nat)
      returns (p: Plan)
      requires k < |changes| && FlatAfter(flat, changes).Ok? && |PutIds(changes) - known| <= spare
      requires FlatAfter(flat, changes[..k]).Ok? && Follows(plan, FlatAfter(flat, changes[..k]).value)
      requires Counted(changes[..k], known, spare)
      modifies this`ids, this`nextKey, this`reverse, this`fields, this`indices
      ensures FlatAfter(flat, changes[..k + 1]).Ok? && Follows(p, FlatAfter(flat, changes[..k + 1]).value)
      ensures Counted(changes[..k + 1], known, spare)
    {
      hide PlanOk, SpecsStep, Leads, KeysOk, IndicesOk, PutIds;
      ghost var g := FlatAfter(flat, changes[..k]).value;
      assert changes[..k + 1][..k] == changes[..k] && changes[..k + 1][k] == changes[k];
      PutIdsSnoc(changes, k);
      if changes[k].delete {
        p := PlanDelete(changes[k], plan, g);
      } else {
        AcceptedSoFar(flat, changes, k);
        KeysSuffice(changes, k, known, spare);
        OneMoreId(ids.Keys, changes[k].id);
        p := PlanPut(changes[k], plan, g);
      }
    }

    method Validate(changes: seq<Change>) returns (error: Option<Error>)
      ensures error == match SpecsAfter(fields, changes) case Err(e) => Some(e) case Ok(_) => None
    {
      var next := fields;
      for k := 0 to |changes|
        invariant SpecsAfter(fields, changes[..k]) == Ok(next)
      {
        assert changes[..k + 1][..k] == changes[..k];
        var step := SpecsStep(next, changes[k]);
        if step.Err? {
          SpecsRefused(fields, changes, k + 1);
          return Some(step.error);
        }
        next := step.value;
      }
      assert changes[..|changes|] == changes;
      error := None;
    }

    method CarryOut(p: Plan, ghost g: Flat)
      requires Follows(p, g)
      modifies this`indices
      ensures Valid() && Agrees(g)
    {
      hide PlanOk, PlannedAt, LookIn;
      ghost var before := indices;
      var todo := p.removals.Keys;
      PlannedFields(p, fields, reverse);
      while todo != {}
        invariant Valid() && indices.Keys == before.Keys && todo <= p.removals.Keys
        invariant forall f :: f in indices && (f in todo || f !in p.removals) ==> indices[f] == before[f]
        invariant forall f, k :: f in indices && f in p.removals && f !in todo ==>
          LookIn(indices[f], k) == PlannedAt(before[f], p, f, k)
        decreases todo
      {
        var field :| field in todo;
        ApplyField(field, p);
        todo := todo - {field};
      }
      forall f, id ensures Stored(f, id) == Look(g, f, id) {
        assert old(Planned(p, f, id)) == Look(g, f, id);
        if f !in p.removals { UnplannedField(p, fields, reverse, f); }
      }
    }
  }

  lemma FieldIndexed(s: Store)
    requires IndicesOk(s)
    ensures s.fields.Keys == s.indices.Keys
  {
  }

  lemma PlannedFields(p: Plan, fields: Specs, reverse: map<Key, Id>)
    requires PlanOk(p, fields, reverse)
    ensures p.removals.Keys <= fields.Keys
  {
  }

  lemma {:induction false} SpecsRefused(specs: Specs, changes: seq<Change>, k: nat)
    requires k <= |changes| && SpecsAfter(specs, changes[..k]).Err?
    ensures SpecsAfter(specs, changes) == SpecsAfter(specs, changes[..k])
    decreases |changes| - k
  {
    if k == |changes| {
      assert changes[..k] == changes;
    } else {
      assert changes[..k + 1][..k] == changes[..k];
      SpecsRefused(specs, changes, k + 1);
    }
  }

  /** Every prefix of an accepted batch is accepted. */
  lemma AcceptedSoFar(flat: Flat, changes: seq<Change>, k: nat)
    requires k < |changes| && FlatAfter(flat, changes).Ok? && FlatAfter(flat, changes[..k]).Ok? && !changes[k].delete
    ensures SpecsStep(FlatAfter(flat, changes[..k]).value.specs, changes[k]).Ok?
  {
    assert changes[..k + 1][..k] == changes[..k] && changes[..k + 1][k] == changes[k];
    if FlatAfter(flat, changes[..k + 1]).Err? { Refused(flat, changes, k + 1); }
  }

  lemma UnplannedField(p: Plan, fields: Specs, reverse: map<Key, Id>, field: Field)
    requires PlanOk(p, fields, reverse) && field !in p.removals
    ensures forall native, k :: PlannedAt(native, p, field, k) == LookIn(native, k)
  {
  }

  lemma NoPlan(flat: Flat, store: UsearchVectorIndex)
    requires store.Valid() && store.Agrees(flat)
    ensures store.Follows(Plan(map[], map[], {}), flat)
  {
    forall f, id ensures store.Planned(Plan(map[], map[], {}), f, id) == Look(flat, f, id) {
      assert store.Stored(f, id) == Look(flat, f, id);
    }
  }

  lemma PlanOfField(p: Plan, fields: Specs, reverse: map<Key, Id>, field: Field)
    requires PlanOk(p, fields, reverse)
    ensures field in p.removals ==> field in fields && p.removals[field] <= reverse.Keys
    ensures field in p.additions ==> field in p.removals && AdditionsOk(p.additions[field], p.removals[field], fields[field].dims)
  {
  }

  lemma PlanOkLater(p: Plan, fields: Specs, reverse: map<Key, Id>, later: map<Key, Id>)
    requires PlanOk(p, fields, reverse) && reverse.Keys <= later.Keys
    ensures PlanOk(p, fields, later)
  {
  }

  lemma FreshKeyIsUnplanned(p: Plan, fields: Specs, reverse: map<Key, Id>, key: Key)
    requires PlanOk(p, fields, reverse) && key !in reverse
    ensures forall native, f :: key !in native ==> PlannedAt(native, p, f, key) == None
  {
    forall native: Native, f | key !in native ensures PlannedAt(native, p, f, key) == None {
      if f in p.additions { assert key !in p.removals[f]; assert AdditionsOk(p.additions[f], p.removals[f], fields[f].dims); }
    }
  }

  /** Queueing a removal takes the key out of one field. */
  lemma RemovalStep(p: Plan, fields: Specs, reverse: map<Key, Id>, field: Field, key: Key, compact: bool)
    requires PlanOk(p, fields, reverse) && field in fields && key in reverse
    ensures
      var q := DropAddition(QueueRemoval(p, field, key, compact), field, key);
      && PlanOk(q, fields, reverse)
      && (forall native, f, k :: PlannedAt(native, q, f, k) ==
            if f == field && k == key then None else PlannedAt(native, p, f, k))
  {
    var q := DropAddition(QueueRemoval(p, field, key, compact), field, key);
    forall f | f in q.additions ensures AdditionsOk(q.additions[f], q.removals[f], fields[f].dims) {
      assert AdditionsOk(p.additions[f], p.removals[f], fields[f].dims);
    }
  }

  /** Queueing an addition after its removal puts the vector under the key. */
  lemma AdditionStep(p: Plan, fields: Specs, reverse: map<Key, Id>, field: Field, key: Key, v: Vector)
    requires PlanOk(p, fields, reverse) && field in fields && key in reverse && |v| == fields[field].dims
    ensures
      var q := QueueAddition(QueueRemoval(p, field, key, false), field, key, v);
      && PlanOk(q, fields, reverse)
      && (forall native, f, k :: PlannedAt(native, q, f, k) ==
            if f == field && k == key then Some(v) else PlannedAt(native, p, f, k))
  {
    var q := QueueAddition(QueueRemoval(p, field, key, false), field, key, v);
    QueuedParts(p, field, key, v);
    hide QueueAddition, QueueRemoval;
    forall f | f in q.additions ensures AdditionsOk(q.additions[f], q.removals[f], fields[f].dims) {
      if f in p.additions { assert AdditionsOk(p.additions[f], p.removals[f], fields[f].dims); }
    }
  }

  lemma QueuedParts(p: Plan, field: Field, key: Key, v: Vector)
    ensures
      var q := QueueAddition(QueueRemoval(p, field, key, false), field, key, v);
      && q.removals == p.removals[field := Removals(p, field) + {key}]
      && q.additions == p.additions[field := Additions(p, field)[key := v]]
  {
  }
}
