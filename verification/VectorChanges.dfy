/** Batches of vector changes: what they mean field by field and id by id, and the two
    stores that apply them. */
module VectorChanges {
  import opened Basics

  const UINT64_SIZE: nat := 0x1_0000_0000_0000_0000
  const BATCH_TARGET_VALUES: nat := 0x10_0000
  const BATCH_MAX_ROWS: nat := 4096

  type Key = x: nat | x < UINT64_SIZE

  type Id = string
  type Field = string
  type Similarity = string

  datatype Value = Finite(v: int) | NotANumber | Infinite
  type Vector = seq<Value>

  datatype Error = InvalidField | InvalidDimension | InvalidValue | SimilarityChanged | Closed | NotWritten
  datatype Result<T> = Ok(value: T) | Err(error: Error)

  datatype Change = Change(id: Id, field: Field, vector: Vector, similarity: Similarity, delete: bool)
  datatype Spec = Spec(dims: nat, similarity: Similarity)
  type Specs = map<Field, Spec>

  predicate KnownSimilarity(s: Similarity) {
    s == "l2_norm" || s == "dot_product" || s == "cosine"
  }

  function Invalid(c: Change): Option<Error> {
    if c.field == "" then Some(InvalidField)
    else if |c.vector| == 0 then Some(InvalidDimension)
    else if !KnownSimilarity(c.similarity) then Some(InvalidField)
    else if exists i :: 0 <= i < |c.vector| && !c.vector[i].Finite? then Some(InvalidValue)
    else None
  }

  /** The field specifications after a change, or why it is refused. */
  function SpecsStep(specs: Specs, c: Change): Result<Specs> {
    if c.delete then Ok(specs)
    else if Invalid(c).Some? then Err(Invalid(c).value)
    else if c.field !in specs then Ok(specs[c.field := Spec(|c.vector|, c.similarity)])
    else if specs[c.field].dims != |c.vector| then Err(InvalidDimension)
    else if specs[c.field].similarity != c.similarity then Err(SimilarityChanged)
    else Ok(specs)
  }

  function SpecsAfter(specs: Specs, changes: seq<Change>): Result<Specs> {
    if changes == [] then Ok(specs)
    else
      match SpecsAfter(specs, changes[..|changes| - 1])
      case Err(e) => Err(e)
      case Ok(s) => SpecsStep(s, changes[|changes| - 1])
  }

  /** A vector is acceptable by itself: its field has a name, it has components, all finite,
      and the similarity is one of the three known. */
  ghost predicate Sane(c: Change) {
    && c.field != "" && |c.vector| > 0 && (forall i :: 0 <= i < |c.vector| ==> c.vector[i].Finite?)
    && c.similarity in {"l2_norm", "dot_product", "cosine"}
  }

  /** All vectors of a field have one number of components and one similarity. */
  ghost predicate SameShape(specs: Specs, changes: seq<Change>) {
    forall k :: 0 <= k < |changes| && !changes[k].delete ==> ShapeAt(specs, changes, k)
  }

  ghost predicate ShapeAt(specs: Specs, changes: seq<Change>, k: nat)
    requires k < |changes|
  {
    && (changes[k].field in specs ==> specs[changes[k].field] == Spec(|changes[k].vector|, changes[k].similarity))
    && forall j :: 0 <= j < k && !changes[j].delete && changes[j].field == changes[k].field ==>
         |changes[j].vector| == |changes[k].vector| && changes[j].similarity == changes[k].similarity
  }

  /** A batch is accepted exactly when each vector is sane and fits its field, and then the
      fields it adds have the shape of their vectors. */
  lemma {:induction false} AcceptedExactly(specs: Specs, changes: seq<Change>)
    ensures SpecsAfter(specs, changes).Ok? <==>
      (forall k :: 0 <= k < |changes| && !changes[k].delete ==> Sane(changes[k])) && SameShape(specs, changes)
    ensures SpecsAfter(specs, changes).Ok? ==>
      var after := SpecsAfter(specs, changes).value;
      && (forall f :: f in after <==> f in specs || exists k :: 0 <= k < |changes| && !changes[k].delete && changes[k].field == f)
      && (forall f :: f in specs ==> after[f] == specs[f])
      && (forall k :: 0 <= k < |changes| && !changes[k].delete ==>
            changes[k].field in after && after[changes[k].field] == Spec(|changes[k].vector|, changes[k].similarity))
  {
    hide SpecsStep, Sane, SameShape, ShapeAt;
    if changes == [] {
      NoShape(specs);
    } else {
      var init, n := changes[..|changes| - 1], |changes| - 1;
      AcceptedExactly(specs, init);
      assert forall k :: 0 <= k < n ==> changes[k] == init[k];
      ShapeInit(specs, changes);
      if SpecsAfter(specs, init).Ok? {
        var now := SpecsAfter(specs, init).value;
        StepAccepts(now, changes[n]);
        ShapeSnoc(specs, changes, now);
      }
    }
  }

  lemma NoShape(specs: Specs)
    ensures SameShape(specs, [])
  {
  }

  lemma StepAccepts(specs: Specs, c: Change)
    ensures SpecsStep(specs, c).Ok? <==>
      c.delete || (Sane(c) && (c.field in specs ==> specs[c.field] == Spec(|c.vector|, c.similarity)))
    ensures SpecsStep(specs, c).Ok? ==>
      SpecsStep(specs, c).value == if c.delete then specs else specs[c.field := Spec(|c.vector|, c.similarity)]
  {
    if Invalid(c) == Some(InvalidValue) { assert exists i :: 0 <= i < |c.vector| && !c.vector[i].Finite?; }
  }

  lemma ShapeInit(specs: Specs, changes: seq<Change>)
    requires changes != []
    ensures
      var init, n := changes[..|changes| - 1], |changes| - 1;
      SameShape(specs, changes) <==> SameShape(specs, init) && (changes[n].delete || ShapeAt(specs, changes, n))
  {
    var init, n := changes[..|changes| - 1], |changes| - 1;
    forall k | 0 <= k < n ensures ShapeAt(specs, changes, k) <==> ShapeAt(specs, init, k) && changes[k] == init[k] {
      SameBefore(specs, init, changes[n], k);
      assert changes == init + [changes[n]];
    }
    hide ShapeAt;
  }

  lemma SameBefore(specs: Specs, init: seq<Change>, last: Change, k: nat)
    requires k < |init|
    ensures ShapeAt(specs, init + [last], k) <==> ShapeAt(specs, init, k)
  {
    assert forall j :: 0 <= j <= k ==> (init + [last])[j] == init[j];
  }

  /** One more vector has the shape of its field as it is by now. */
  lemma ShapeSnoc(specs: Specs, changes: seq<Change>, now: Specs)
    requires changes != [] && SameShape(specs, changes[..|changes| - 1])
    requires forall f :: f in now <==>
      f in specs || exists k :: 0 <= k < |changes| - 1 && !changes[k].delete && changes[k].field == f
    requires forall f :: f in specs ==> now[f] == specs[f]
    requires forall k :: 0 <= k < |changes| - 1 && !changes[k].delete ==>
      changes[k].field in now && now[changes[k].field] == Spec(|changes[k].vector|, changes[k].similarity)
    ensures
      var c := changes[|changes| - 1];
      ShapeAt(specs, changes, |changes| - 1) <==> (c.field in now ==> now[c.field] == Spec(|c.vector|, c.similarity))
  {
    hide SameShape;
  }

  // ---------------------------------------------------------------- the flat store

  datatype Record = Record(vector: Vector, similarity: Similarity)
  type Vectors = map<Field, map<Id, Record>>

  datatype Flat = Flat(vectors: Vectors, specs: Specs)

  function WithoutId(vectors: Vectors, id: Id): Vectors {
    map f | f in vectors && vectors[f] - {id} != map[] :: vectors[f] - {id}
  }

  function WithoutIdIn(vectors: Vectors, field: Field, id: Id): Vectors {
    if field !in vectors then vectors
    else if vectors[field] - {id} == map[] then vectors - {field}
    else vectors[field := vectors[field] - {id}]
  }

  function Put(vectors: Vectors, c: Change): Vectors {
    var records := if c.field in vectors then vectors[c.field] else map[];
    vectors[c.field := records[c.id := Record(c.vector, c.similarity)]]
  }

  function FlatStep(f: Flat, c: Change): Result<Flat> {
    if c.delete then Ok(Flat(if c.field == "" then WithoutId(f.vectors, c.id) else WithoutIdIn(f.vectors, c.field, c.id), f.specs))
    else
      match SpecsStep(f.specs, c)
      case Err(e) => Err(e)
      case Ok(specs) => Ok(Flat(Put(f.vectors, c), specs))
  }

  /** Applying the changes one after the other. */
  function FlatAfter(f: Flat, changes: seq<Change>): Result<Flat> {
    if changes == [] then Ok(f)
    else
      match FlatAfter(f, changes[..|changes| - 1])
      case Err(e) => Err(e)
      case Ok(g) => FlatStep(g, changes[|changes| - 1])
  }

  function Look(f: Flat, field: Field, id: Id): Option<Vector> {
    if field in f.vectors && id in f.vectors[field] then Some(f.vectors[field][id].vector) else None
  }

  /** What one change means for one field and id. */
  predicate Touches(c: Change, field: Field, id: Id) {
    id == c.id && (field == c.field || (c.delete && c.field == ""))
  }

  function Now(c: Change): Option<Vector> {
    if c.delete then None else Some(c.vector)
  }

  lemma StepLook(f: Flat, c: Change, field: Field, id: Id)
    requires FlatStep(f, c).Ok?
    ensures Look(FlatStep(f, c).value, field, id) == if Touches(c, field, id) then Now(c) else Look(f, field, id)
    ensures Look(FlatStep(f, c).value, field, id) ==
      if c.delete && id == c.id && (c.field == "" || c.field == field) then None
      else if !c.delete && id == c.id && field == c.field then Some(c.vector)
      else Look(f, field, id)
  {
    if field in f.vectors && id != c.id {
      assert id in f.vectors[field] <==> id in f.vectors[field] - {c.id};
    }
  }

  /** The two validations accept the same batches and agree on the specifications. */
  lemma {:induction false} SameVerdict(f: Flat, changes: seq<Change>)
    ensures
      match FlatAfter(f, changes)
      case Err(e) => SpecsAfter(f.specs, changes) == Err(e)
      case Ok(g) => SpecsAfter(f.specs, changes) == Ok(g.specs)
  {
    if changes != [] { SameVerdict(f, changes[..|changes| - 1]); }
  }

  /** The last change that touches a field and id, or -1. */
  function LastTouch(changes: seq<Change>, field: Field, id: Id): (k: int)
    ensures -1 <= k < |changes|
    ensures k >= 0 ==> Touches(changes[k], field, id)
    ensures forall j :: k < j < |changes| ==> !Touches(changes[j], field, id)
  {
    var n := |changes| - 1;
    if n < 0 || Touches(changes[n], field, id) then n else LastTouch(changes[..n], field, id)
  }

  /** An accepted batch leaves each field and id with what its last change says. */
  lemma {:induction false} LastChangeWins(f: Flat, changes: seq<Change>, field: Field, id: Id)
    requires FlatAfter(f, changes).Ok?
    ensures
      var k := LastTouch(changes, field, id);
      Look(FlatAfter(f, changes).value, field, id) == if k < 0 then Look(f, field, id) else Now(changes[k])
  {
    hide Look, Now, Touches, FlatStep;
    if changes != [] {
      var init, n := changes[..|changes| - 1], |changes| - 1;
      LastChangeWins(f, init, field, id);
      StepLook(FlatAfter(f, init).value, changes[n], field, id);
    }
  }

  class FlatVectorIndex {
    var vectors: Vectors
    var specs: Specs

    ghost function State(): Flat
      reads this
    {
      Flat(vectors, specs)
    }

    constructor ()
      ensures State() == Flat(map[], map[])
    {
      vectors, specs := map[], map[];
    }

    /** All changes or none: none if one is refused or the file cannot be written. */
    method ApplyVectorChanges(changes: seq<Change>, writable: bool) returns (error: Option<Error>)
      modifies this
      ensures
        match FlatAfter(old(State()), changes)
        case Err(e) => error == Some(e) && State() == old(State())
        case Ok(g) =>
          if changes == [] || writable then error == None && State() == g else error == Some(NotWritten) && State() == old(State())
    {
      if changes == [] {
        return None;
      }
      var next := Flat(vectors, specs);
      for k := 0 to |changes|
        invariant FlatAfter(old(State()), changes[..k]) == Ok(next)
        invariant State() == old(State())
      {
        assert changes[..k + 1][..k] == changes[..k];
        var step := FlatStep(next, changes[k]);
        if step.Err? {
          Refused(State(), changes, k + 1);
          return Some(step.error);
        }
        next := step.value;
      }
      assert changes[..|changes|] == changes;
      if !writable {
        return Some(NotWritten);
      }
      vectors, specs, error := next.vectors, next.specs, None;
    }
  }

  lemma {:induction false} Refused(f: Flat, changes: seq<Change>, k: nat)
    requires k <= |changes| && FlatAfter(f, changes[..k]).Err?
    ensures FlatAfter(f, changes) == FlatAfter(f, changes[..k])
    decreases |changes| - k
  {
    if k == |changes| {
      assert changes[..k] == changes;
    } else {
      assert changes[..k + 1][..k] == changes[..k];
      Refused(f, changes, k + 1);
    }
  }
}
