/** The file of the flat vector store: written in the order of fields and identifiers, and
    read back under limits that writing does not check. */
module FlatCodec {
  import opened Basics
  import opened ByteOrder
  import opened PrefixCoding

  const MAGIC: seq<Byte> := [66, 76, 85, 71, 69, 86, 69, 67]
  const VERSION: nat := 1
  const MAX_BLOB: nat := 0x400_0000
  const TWO32: nat := 0x1_0000_0000

  type Text = seq<Byte>
  type UInt32 = x: nat | x < TWO32

  /** Components as the bits of 32-bit floats. */
  type Vector = seq<UInt32>
  type Records = map<Text, Vector>

  datatype Spec = Spec(dims: nat, similarity: Text)
  datatype Store = Store(vectors: map<Text, Records>, specs: map<Text, Spec>)

  datatype Parsed<T> = Bad | Good(value: T, rest: seq<Byte>)

  predicate Finite(bits: UInt32) {
    bits / 0x80_0000 % 256 != 255
  }

  const L2: Text := [108, 50, 95, 110, 111, 114, 109]
  const DOT: Text := [100, 111, 116, 95, 112, 114, 111, 100, 117, 99, 116]
  const COSINE: Text := [99, 111, 115, 105, 110, 101]

  predicate KnownSimilarity(s: Text) {
    s == L2 || s == DOT || s == COSINE
  }

  // ---------------------------------------------------------------- numbers and strings

  /** Little-endian, size bytes. */
  function Little(n: nat, size: nat): (r: seq<Byte>)
    ensures |r| == size
  {
    if size == 0 then [] else [n % 256] + Little(n / 256, size - 1)
  }

  function FromLittle(bytes: seq<Byte>): nat {
    if bytes == [] then 0 else bytes[0] + 256 * FromLittle(bytes[1..])
  }

  function Pow256(n: nat): nat {
    if n == 0 then 1 else 256 * Pow256(n - 1)
  }

  lemma {:induction false} LittleRoundTrip(n: nat, size: nat)
    requires n < Pow256(size)
    ensures FromLittle(Little(n, size)) == n
  {
    if size > 0 {
      LittleRoundTrip(n / 256, size - 1);
      assert Little(n, size)[1..] == Little(n / 256, size - 1);
    }
  }

  lemma Pow256Sizes()
    ensures Pow256(4) == TWO32 && Pow256(8) == TWO64
  {
    assert Pow256(4) == 256 * (256 * (256 * (256 * Pow256(0))));
    assert Pow256(8) == 256 * (256 * (256 * (256 * Pow256(4))));
  }

  function ReadNumber(data: seq<Byte>, size: nat): Parsed<nat> {
    if |data| < size then Bad else Good(FromLittle(data[..size]), data[size..])
  }

  lemma NumberRoundTrip(n: nat, size: nat, rest: seq<Byte>)
    requires n < Pow256(size)
    ensures ReadNumber(Little(n, size) + rest, size) == Good(n, rest)
  {
    LittleRoundTrip(n, size);
    assert (Little(n, size) + rest)[..size] == Little(n, size) && (Little(n, size) + rest)[size..] == rest;
  }

  function WriteText(s: Text): seq<Byte> {
    Little(|s|, 4) + s
  }

  function ReadText(data: seq<Byte>): Parsed<Text> {
    match ReadNumber(data, 4)
    case Bad => Bad
    case Good(size, rest) => if size > MAX_BLOB || size > |rest| then Bad else Good(rest[..size], rest[size..])
  }

  /** A written string is read back exactly when it is within the reader's limit. */
  lemma TextRoundTrip(s: Text, rest: seq<Byte>)
    requires |s| < TWO32
    ensures ReadText(WriteText(s) + rest) == if |s| <= MAX_BLOB then Good(s, rest) else Bad
  {
    Pow256Sizes();
    assert WriteText(s) + rest == Little(|s|, 4) + (s + rest);
    NumberRoundTrip(|s|, 4, s + rest);
    assert (s + rest)[..|s|] == s && (s + rest)[|s|..] == rest;
  }

  function WriteVector(v: Vector): seq<Byte> {
    if v == [] then [] else Little(v[0], 4) + WriteVector(v[1..])
  }

  function ReadVector(data: seq<Byte>, dims: nat): Parsed<Vector>
    decreases dims
  {
    if dims == 0 then Good([], data)
    else
      match ReadNumber(data, 4)
      case Bad => Bad
      case Good(bits, rest) =>
        if bits >= TWO32 || !Finite(bits) then Bad
        else
          match ReadVector(rest, dims - 1)
          case Bad => Bad
          case Good(v, rest) => Good([bits] + v, rest)
  }

  lemma {:induction false} VectorRoundTrip(v: Vector, rest: seq<Byte>)
    requires forall x :: x in v ==> Finite(x)
    ensures ReadVector(WriteVector(v) + rest, |v|) == Good(v, rest)
    ensures |WriteVector(v)| == 4 * |v|
  {
    hide Little, FromLittle, ReadNumber, Finite;
    if v == [] {
      assert [] + rest == rest;
    } else {
      Pow256Sizes();
      assert v[0] in v;
      VectorRoundTrip(v[1..], rest);
      assert WriteVector(v) + rest == Little(v[0], 4) + (WriteVector(v[1..]) + rest);
      NumberRoundTrip(v[0], 4, WriteVector(v[1..]) + rest);
      assert [v[0]] + v[1..] == v;
    }
  }

  // ---------------------------------------------------------------- records

  function WriteRecords(records: Records, ids: seq<Text>): seq<Byte>
    requires forall id :: id in ids ==> id in records
  {
    if ids == [] then []
    else WriteText(ids[0]) + WriteVector(records[ids[0]]) + WriteRecords(records, ids[1..])
  }

  function ReadRecords(data: seq<Byte>, count: nat, dims: nat): Parsed<Records>
    decreases count
  {
    if count == 0 then Good(map[], data)
    else
      match ReadText(data)
      case Bad => Bad
      case Good(id, rest) =>
        match ReadVector(rest, dims)
        case Bad => Bad
        case Good(v, rest) =>
          match ReadRecords(rest, count - 1, dims)
          case Bad => Bad
          case Good(more, rest) => Good(map[id := v] + more, rest)
  }

  ghost predicate Fit(texts: seq<Text>) {
    forall t :: t in texts ==> |t| <= MAX_BLOB
  }

  ghost predicate Distinct(texts: seq<Text>) {
    forall i, j :: 0 <= i < j < |texts| ==> texts[i] != texts[j]
  }

  ghost predicate RecordsOk(records: Records, dims: nat) {
    forall id :: id in records ==> |id| < TWO32 && |records[id]| == dims && forall x :: x in records[id] ==> Finite(x)
  }

  function Part<V>(m: map<Text, V>, ids: seq<Text>): map<Text, V> {
    map id | id in m && id in ids :: m[id]
  }

  lemma {:induction false} RecordsRoundTrip(records: Records, ids: seq<Text>, dims: nat, rest: seq<Byte>)
    requires RecordsOk(records, dims) && forall id :: id in ids ==> id in records
    ensures ReadRecords(WriteRecords(records, ids) + rest, |ids|, dims) ==
      if Fit(ids) then Good(Part(records, ids), rest) else Bad
  {
    hide WriteText, ReadText, WriteVector, ReadVector, Fit, Part, RecordsOk;
    if ids == [] {
      assert [] + rest == rest;
      NoRecords(records);
    } else {
      var id, tail := ids[0], ids[1..];
      assert id in ids && forall t :: t in tail ==> t in ids;
      RecordsRoundTrip(records, tail, dims, rest);
      FirstRecord(records, ids, dims, rest);
      FitFirst(ids);
      PartFirst(records, ids);
    }
  }

  lemma NoRecords(records: Records)
    ensures Part(records, []) == map[] && Fit([])
  {
  }

  /** The first record is read back, or refused with its identifier. */
  lemma FirstRecord(records: Records, ids: seq<Text>, dims: nat, rest: seq<Byte>)
    requires RecordsOk(records, dims) && ids != [] && forall id :: id in ids ==> id in records
    requires forall id :: id in ids[1..] ==> id in records
    ensures
      var id, after := ids[0], WriteRecords(records, ids[1..]) + rest;
      ReadRecords(WriteRecords(records, ids) + rest, |ids|, dims) ==
        if |id| > MAX_BLOB then Bad
        else
          match ReadRecords(after, |ids| - 1, dims)
          case Bad => Bad
          case Good(more, rest) => Good(map[id := records[id]] + more, rest)
  {
    hide WriteText, ReadText, WriteVector, ReadVector;
    var id := ids[0];
    assert id in ids;
    var v, after := records[id], WriteRecords(records, ids[1..]) + rest;
    Join(WriteText(id), WriteVector(v), WriteRecords(records, ids[1..]), rest);
    TextRoundTrip(id, WriteVector(v) + after);
    VectorRoundTrip(v, after);
  }

  lemma Join(a: seq<Byte>, b: seq<Byte>, c: seq<Byte>, d: seq<Byte>)
    ensures (a + b + c) + d == a + (b + (c + d))
  {
  }

  lemma {:induction false} RecordsSize(records: Records, ids: seq<Text>, dims: nat)
    requires RecordsOk(records, dims) && forall id :: id in ids ==> id in records
    ensures |WriteRecords(records, ids)| >= |ids| * (4 + 4 * dims)
  {
    hide WriteText, WriteVector;
    if ids != [] {
      assert ids[0] in ids && forall t :: t in ids[1..] ==> t in ids;
      RecordsSize(records, ids[1..], dims);
      VectorRoundTrip(records[ids[0]], []);
      TextSize(ids[0]);
      OneMore(|ids| - 1, 4 + 4 * dims);
    }
  }

  lemma TextSize(s: Text)
    ensures |WriteText(s)| == 4 + |s|
  {
  }

  lemma OneMore(n: nat, size: nat)
    ensures (n + 1) * size == n * size + size
  {
  }

  lemma FitFirst(ids: seq<Text>)
    requires ids != []
    ensures Fit(ids) <==> |ids[0]| <= MAX_BLOB && Fit(ids[1..])
  {
    assert ids == [ids[0]] + ids[1..];
  }

  lemma PartFirst<V>(m: map<Text, V>, ids: seq<Text>)
    requires ids != [] && ids[0] in m
    ensures Part(m, ids) == map[ids[0] := m[ids[0]]] + Part(m, ids[1..])
  {
    assert ids == [ids[0]] + ids[1..];
  }

  // ---------------------------------------------------------------- the one order of a set

  ghost predicate Sorted(texts: seq<Text>) {
    forall i, j :: 0 <= i < j < |texts| ==> BytesLess(texts[i], texts[j])
  }

  ghost predicate Orders(texts: seq<Text>, keys: set<Text>) {
    Sorted(texts) && forall t :: t in texts <==> t in keys
  }

  lemma SortedDistinct(texts: seq<Text>)
    requires Sorted(texts)
    ensures Distinct(texts)
  {
    forall i, j | 0 <= i < j < |texts| ensures texts[i] != texts[j] { BytesIrreflexive(texts[i]); }
  }

  /** A set has one sorted order. */
  lemma {:induction false} OneOrder(a: seq<Text>, b: seq<Text>, keys: set<Text>)
    requires Orders(a, keys) && Orders(b, keys)
    ensures a == b
  {
    hide BytesLess;
    if a == [] {
      OrderSize(a, keys);
      OrderSize(b, keys);
    } else {
      assert a[0] in keys;
      assert a[0] in b;
      assert b[0] in keys;
      assert b[0] in a;
      LowestFirst(a, b[0]);
      LowestFirst(b, a[0]);
      LowestOnce(a[0], b[0]);
      OrdersTail(a, keys);
      OrdersTail(b, keys);
      OneOrder(a[1..], b[1..], keys - {a[0]});
      assert a == [a[0]] + a[1..] && b == [b[0]] + b[1..];
    }
  }

  lemma LowestFirst(a: seq<Text>, t: Text)
    requires Sorted(a) && t in a
    ensures a != [] && (t == a[0] || BytesLess(a[0], t))
  {
    hide BytesLess;
    var i :| 0 <= i < |a| && a[i] == t;
  }

  lemma LowestOnce(s: Text, t: Text)
    requires (t == s || BytesLess(s, t)) && (s == t || BytesLess(t, s))
    ensures s == t
  {
    if BytesLess(s, t) && BytesLess(t, s) { BytesTransitive(s, t, s); }
    BytesIrreflexive(s);
  }

  lemma OrdersTail(a: seq<Text>, keys: set<Text>)
    requires Orders(a, keys) && a != []
    ensures Orders(a[1..], keys - {a[0]})
  {
    hide BytesLess;
    SortedDistinct(a);
    assert a == [a[0]] + a[1..];
    forall t ensures t in a[1..] <==> t in keys - {a[0]} {
      if t in a[1..] {
        var i :| 0 <= i < |a[1..]| && a[1..][i] == t;
        assert a[i + 1] != a[0];
      }
    }
  }

  /** Collects the keys in any order and sorts them. */
  method SortedKeys(keys: set<Text>) returns (r: seq<Text>)
    ensures Orders(r, keys) && |r| == |keys|
  {
    hide BytesLess;
    r := [];
    var todo := keys;
    ghost var done: set<Text> := {};
    while todo != {}
      invariant done + todo == keys && done !! todo && Orders(r, done) && |r| == |done|
      decreases todo
    {
      var x :| x in todo;
      var k := |r|;
      while k > 0 && BytesLess(x, r[k - 1])
        invariant 0 <= k <= |r|
        invariant forall j :: k <= j < |r| ==> BytesLess(x, r[j])
      {
        k := k - 1;
      }
      Placed(r, x, k, done);
      r := r[..k] + [x] + r[k..];
      todo, done := todo - {x}, done + {x};
    }
  }

  lemma Placed(r: seq<Text>, x: Text, k: nat, done: set<Text>)
    requires Orders(r, done) && x !in done && k <= |r|
    requires forall j :: k <= j < |r| ==> BytesLess(x, r[j])
    requires k > 0 ==> !BytesLess(x, r[k - 1])
    ensures Orders(r[..k] + [x] + r[k..], done + {x})
  {
    hide BytesLess;
    forall j | 0 <= j < k ensures BytesLess(r[j], x) {
      assert r[k - 1] in r;
      BytesTotal(r[k - 1], x);
      if j < k - 1 { BytesTransitive(r[j], r[k - 1], x); }
    }
    assert r == r[..k] + r[k..];
    PlacedBetween(r[..k], x, r[k..], done);
  }

  lemma PlacedBetween(front: seq<Text>, x: Text, back: seq<Text>, done: set<Text>)
    requires Orders(front + back, done)
    requires forall i :: 0 <= i < |front| ==> BytesLess(front[i], x)
    requires forall i :: 0 <= i < |back| ==> BytesLess(x, back[i])
    ensures Orders(front + [x] + back, done + {x})
  {
    hide BytesLess;
    var all, r := front + back, front + [x] + back;
    forall i, j | 0 <= i < j < |r| ensures BytesLess(r[i], r[j]) {
      var a, b := if i < |front| then i else i - 1, if j < |front| then j else j - 1;
      if i != |front| && j != |front| { assert BytesLess(all[a], all[b]); }
    }
    forall t ensures t in r <==> t in done + {x} { assert t in all <==> t in front || t in back; }
  }

  // ---------------------------------------------------------------- fields

  ghost function Order(keys: set<Text>): (r: seq<Text>)
    ensures Orders(r, keys)
  {
    OrderExists(keys);
    var r :| Orders(r, keys);
    r
  }

  lemma {:induction false} OrderExists(keys: set<Text>)
    ensures exists r :: Orders(r, keys)
  {
    if keys == {} {
      assert Orders([], {});
    } else {
      var x :| x in keys;
      OrderExists(keys - {x});
      var r :| Orders(r, keys - {x});
      var k := Slot(r, x);
      Placed(r, x, k, keys - {x});
      assert keys - {x} + {x} == keys;
    }
  }

  lemma {:induction false} Slot(r: seq<Text>, x: Text) returns (k: nat)
    requires Sorted(r)
    ensures k <= |r| && (forall j :: k <= j < |r| ==> BytesLess(x, r[j])) && (k > 0 ==> !BytesLess(x, r[k - 1]))
  {
    hide BytesLess;
    if r == [] || !BytesLess(x, r[|r| - 1]) {
      k := |r|;
    } else {
      k := Slot(r[..|r| - 1], x);
    }
  }

  ghost function WriteField(field: Text, spec: Spec, records: Records): seq<Byte> {
    WriteText(field) + Little(spec.dims, 4) + WriteText(spec.similarity) + Little(|records|, 8)
      + WriteRecords(records, Order(records.Keys))
  }

  ghost function WriteFields(x: Store, fields: seq<Text>): seq<Byte>
    requires forall f :: f in fields ==> f in x.vectors && f in x.specs
  {
    if fields == [] then []
    else WriteField(fields[0], x.specs[fields[0]], x.vectors[fields[0]]) + WriteFields(x, fields[1..])
  }

  ghost function WriteStore(x: Store): seq<Byte>
    requires forall f :: f in x.vectors ==> f in x.specs
  {
    MAGIC + Little(VERSION, 4) + Little(|x.vectors|, 4) + WriteFields(x, Order(x.vectors.Keys))
  }

  datatype FieldData = FieldData(field: Text, spec: Spec, records: Records)

  function ReadField(data: seq<Byte>): Parsed<FieldData> {
    match ReadText(data)
    case Bad => Bad
    case Good(field, rest) =>
      match ReadSpec(rest)
      case Bad => Bad
      case Good(spec, rest) =>
        match ReadAllRecords(rest, spec.dims)
        case Bad => Bad
        case Good(records, rest) => Good(FieldData(field, spec, records), rest)
  }

  function ReadSpec(data: seq<Byte>): Parsed<Spec> {
    match ReadNumber(data, 4)
    case Bad => Bad
    case Good(dims, rest) =>
      match ReadText(rest)
      case Bad => Bad
      case Good(similarity, rest) =>
        if dims == 0 || !KnownSimilarity(similarity) || dims > MAX_BLOB / 4 then Bad
        else Good(Spec(dims, similarity), rest)
  }

  function ReadAllRecords(data: seq<Byte>, dims: nat): Parsed<Records> {
    match ReadNumber(data, 8)
    case Bad => Bad
    case Good(count, rest) => if count > |rest| / (4 + 4 * dims) then Bad else ReadRecords(rest, count, dims)
  }

  function ReadFields(data: seq<Byte>, count: nat): Parsed<Store>
    decreases count
  {
    if count == 0 then Good(Store(map[], map[]), data)
    else
      match ReadField(data)
      case Bad => Bad
      case Good(f, rest) =>
        match ReadFields(rest, count - 1)
        case Bad => Bad
        case Good(more, rest) => Good(Under(f, more), rest)
  }

  /** A field read before others of the same name is overwritten by them. */
  function Under(f: FieldData, more: Store): Store {
    Store(map[f.field := f.records] + more.vectors, map[f.field := f.spec] + more.specs)
  }

  function ReadStore(data: seq<Byte>): Option<Store> {
    if |data| < 8 || data[..8] != MAGIC then None
    else
      match ReadNumber(data[8..], 4)
      case Bad => None
      case Good(version, rest) =>
        if version != VERSION then None
        else
          match ReadNumber(rest, 4)
          case Bad => None
          case Good(count, rest) =>
            if count > |data| then None
            else
              match ReadFields(rest, count)
              case Bad => None
              case Good(x, rest) => if rest == [] then Some(x) else None
  }

  /** What the store keeps, and what its writer can write down at all. */
  ghost predicate FieldOk(field: Text, spec: Spec, records: Records) {
    && |field| < TWO32 && 0 < spec.dims < TWO32 && KnownSimilarity(spec.similarity)
    && RecordsOk(records, spec.dims) && |records| < TWO64
  }

  ghost predicate FieldFits(field: Text, spec: Spec, records: Records) {
    |field| <= MAX_BLOB && spec.dims <= MAX_BLOB / 4 && forall id :: id in records ==> |id| <= MAX_BLOB
  }

  lemma SimilarityIsShort(s: Text)
    requires KnownSimilarity(s)
    ensures |s| <= MAX_BLOB
  {
  }

  lemma {:induction false} OrderSize(texts: seq<Text>, keys: set<Text>)
    requires Orders(texts, keys)
    ensures |texts| == |keys|
  {
    if texts == [] {
      assert keys == {};
    } else {
      assert texts[0] in keys;
      OrdersTail(texts, keys);
      OrderSize(texts[1..], keys - {texts[0]});
    }
  }

  /** A field's records are read back exactly when their identifiers fit. */
  lemma RecordsOfField(records: Records, dims: nat, rest: seq<Byte>)
    requires RecordsOk(records, dims)
    ensures
      var ids := Order(records.Keys);
      && |ids| == |records|
      && |WriteRecords(records, ids)| >= |records| * (4 + 4 * dims)
      && ReadRecords(WriteRecords(records, ids) + rest, |records|, dims) ==
           if forall id :: id in records ==> |id| <= MAX_BLOB then Good(records, rest) else Bad
  {
    hide WriteRecords, ReadRecords, RecordsOk;
    var ids := Order(records.Keys);
    OrderSize(ids, records.Keys);
    SortedDistinct(ids);
    RecordsRoundTrip(records, ids, dims, rest);
    RecordsSize(records, ids, dims);
    assert Part(records, ids) == records;
    assert Fit(ids) <==> forall id :: id in records ==> |id| <= MAX_BLOB;
  }

  lemma CountFits(count: nat, size: nat, room: nat)
    requires size > 0 && room >= count * size
    ensures count <= room / size
  {
    Division(room, size);
    Distribute(room / size, 1, size);
    if room / size < count { MultiplyMonotone(room / size + 1, count, size); }
  }

  lemma SpecRoundTrip(spec: Spec, rest: seq<Byte>)
    requires 0 < spec.dims < TWO32 && KnownSimilarity(spec.similarity)
    ensures ReadSpec(Little(spec.dims, 4) + (WriteText(spec.similarity) + rest)) ==
      if spec.dims <= MAX_BLOB / 4 then Good(spec, rest) else Bad
  {
    hide WriteText, ReadText, Little, ReadNumber, KnownSimilarity;
    Pow256Sizes();
    NumberRoundTrip(spec.dims, 4, WriteText(spec.similarity) + rest);
    SimilarityIsShort(spec.similarity);
    TextRoundTrip(spec.similarity, rest);
  }

  lemma AllRecordsRoundTrip(records: Records, dims: nat, rest: seq<Byte>)
    requires RecordsOk(records, dims) && |records| < TWO64
    ensures ReadAllRecords(Little(|records|, 8) + (WriteRecords(records, Order(records.Keys)) + rest), dims) ==
      if forall id :: id in records ==> |id| <= MAX_BLOB then Good(records, rest) else Bad
  {
    hide WriteRecords, ReadRecords, Little, ReadNumber, RecordsOk;
    var body := WriteRecords(records, Order(records.Keys));
    Pow256Sizes();
    NumberRoundTrip(|records|, 8, body + rest);
    RecordsOfField(records, dims, rest);
    CountFits(|records|, 4 + 4 * dims, |body + rest|);
  }

  lemma Join5(a: seq<Byte>, b: seq<Byte>, c: seq<Byte>, d: seq<Byte>, e: seq<Byte>, f: seq<Byte>)
    ensures (a + b + c + d + e) + f == a + (b + (c + (d + (e + f))))
  {
  }

  /** A written field is read back exactly when it fits. */
  lemma FieldRoundTrip(field: Text, spec: Spec, records: Records, rest: seq<Byte>)
    requires FieldOk(field, spec, records)
    ensures ReadField(WriteField(field, spec, records) + rest) ==
      if FieldFits(field, spec, records) then Good(FieldData(field, spec, records), rest) else Bad
  {
    hide WriteText, ReadText, Little, ReadSpec, ReadAllRecords, WriteRecords, KnownSimilarity, RecordsOk;
    var body := WriteRecords(records, Order(records.Keys));
    var n, c := Little(spec.dims, 4), Little(|records|, 8);
    Join5(WriteText(field), n, WriteText(spec.similarity), c, body, rest);
    TextRoundTrip(field, n + (WriteText(spec.similarity) + (c + (body + rest))));
    SpecRoundTrip(spec, c + (body + rest));
    AllRecordsRoundTrip(records, spec.dims, rest);
  }

  // ---------------------------------------------------------------- the whole file

  ghost predicate StoreOk(x: Store) {
    && |x.vectors| < TWO32
    && forall f :: f in x.vectors ==> f in x.specs && FieldOk(f, x.specs[f], x.vectors[f])
  }

  ghost predicate StoreFits(x: Store)
    requires forall f :: f in x.vectors ==> f in x.specs
  {
    forall f :: f in x.vectors ==> FieldFits(f, x.specs[f], x.vectors[f])
  }

  ghost predicate FieldsFit(x: Store, fields: seq<Text>)
    requires forall f :: f in fields ==> f in x.vectors && f in x.specs
  {
    forall f :: f in fields ==> FieldFits(f, x.specs[f], x.vectors[f])
  }

  /** The fields of a store that are listed, with their specifications. */
  function Listed(x: Store, fields: seq<Text>): Store {
    Store(Part(x.vectors, fields), Part(x.specs, fields))
  }

  lemma {:induction false} FieldsRoundTrip(x: Store, fields: seq<Text>, rest: seq<Byte>)
    requires StoreOk(x) && forall f :: f in fields ==> f in x.vectors && f in x.specs
    ensures ReadFields(WriteFields(x, fields) + rest, |fields|) ==
      if FieldsFit(x, fields) then Good(Listed(x, fields), rest) else Bad
    ensures |WriteFields(x, fields)| >= |fields|
  {
    hide WriteField, ReadField, FieldOk, FieldFits;
    if fields == [] {
      assert [] + rest == rest;
      NoneListed(x);
    } else {
      var f, tail := fields[0], fields[1..];
      assert fields == [f] + tail;
      assert f in fields && forall t :: t in tail ==> t in fields;
      FieldsRoundTrip(x, tail, rest);
      Assoc(WriteField(f, x.specs[f], x.vectors[f]), WriteFields(x, tail), rest);
      FieldRoundTrip(f, x.specs[f], x.vectors[f], WriteFields(x, tail) + rest);
      FieldSize(f, x.specs[f], x.vectors[f]);
      ListedFirst(x, fields);
    }
  }

  lemma FieldSize(field: Text, spec: Spec, records: Records)
    ensures |WriteField(field, spec, records)| >= 1
  {
    hide WriteText, WriteRecords;
  }

  lemma NoneListed(x: Store)
    ensures Listed(x, []) == Store(map[], map[])
  {
  }

  lemma ListedFirst(x: Store, fields: seq<Text>)
    requires fields != [] && fields[0] in x.vectors && fields[0] in x.specs
    ensures
      var f := fields[0];
      Under(FieldData(f, x.specs[f], x.vectors[f]), Listed(x, fields[1..])) == Listed(x, fields)
  {
    hide Part;
    PartFirst(x.vectors, fields);
    PartFirst(x.specs, fields);
  }

  /** Reading a written file gives back the vectors, and the specifications of the fields
      that have vectors, exactly when everything is within the reader's limits. */
  lemma StoreRoundTrip(x: Store)
    requires StoreOk(x)
    ensures ReadStore(WriteStore(x)) ==
      if StoreFits(x) then Some(Listed(x, Order(x.vectors.Keys))) else None
    ensures Listed(x, Order(x.vectors.Keys)).vectors == x.vectors
  {
    hide Little, ReadNumber, WriteFields, ReadFields, FieldOk, FieldFits;
    var fields := Order(x.vectors.Keys);
    OrderSize(fields, x.vectors.Keys);
    SortedDistinct(fields);
    FieldsRoundTrip(x, fields, []);
    var body := WriteFields(x, fields);
    assert body + [] == body;
    var v, c := Little(VERSION, 4), Little(|x.vectors|, 4);
    assert WriteStore(x) == MAGIC + (v + (c + body));
    assert WriteStore(x)[..8] == MAGIC && WriteStore(x)[8..] == v + (c + body);
    Pow256Sizes();
    NumberRoundTrip(VERSION, 4, c + body);
    NumberRoundTrip(|x.vectors|, 4, body);
  }

  // ---------------------------------------------------------------- writing and reading in loops

  /** Writes fields and identifiers in sorted order, or fails on a length beyond 32 bits. */
  method Encode(x: Store) returns (data: Option<seq<Byte>>)
    requires forall f :: f in x.vectors ==> f in x.specs
    ensures data.Some? ==> data.value == WriteStore(x)
    ensures data.None? <==>
      || |x.vectors| >= TWO32
      || exists f :: f in x.vectors && TooLong(f, x.specs[f], x.vectors[f])
  {
    hide WriteField, TooLong;
    var fields := SortedKeys(x.vectors.Keys);
    OneOrder(fields, Order(x.vectors.Keys), x.vectors.Keys);
    if |fields| >= TWO32 {
      return None;
    }
    var buf := MAGIC + Little(VERSION, 4) + Little(|fields|, 4);
    ghost var head := buf;
    assert fields[..0] == [] && head + [] == head;
    for i := 0 to |fields|
      invariant buf == head + WriteFields(x, fields[..i])
      invariant forall j :: 0 <= j < i ==> !TooLong(fields[j], x.specs[fields[j]], x.vectors[fields[j]])
    {
      var f := fields[i];
      assert f in fields;
      var field := EncodeField(f, x.specs[f], x.vectors[f]);
      if field.None? {
        return None;
      }
      FieldsSnoc(x, fields[..i], f);
      assert fields[..i + 1] == fields[..i] + [f];
      Assoc(head, WriteFields(x, fields[..i]), field.value);
      buf := buf + field.value;
    }
    assert fields[..|fields|] == fields;
    data := Some(buf);
  }

  lemma {:induction false} FieldsSnoc(x: Store, fields: seq<Text>, f: Text)
    requires forall g :: g in fields + [f] ==> g in x.vectors && g in x.specs
    ensures f in x.vectors && f in x.specs && forall g :: g in fields ==> g in x.vectors && g in x.specs
    ensures WriteFields(x, fields + [f]) == WriteFields(x, fields) + WriteField(f, x.specs[f], x.vectors[f])
  {
    hide WriteField;
    assert (fields + [f])[|fields|] == f && forall g :: g in fields ==> g in fields + [f];
    if fields == [] {
      assert [f][1..] == [] && fields + [f] == [f];
      assert WriteField(f, x.specs[f], x.vectors[f]) + [] == WriteField(f, x.specs[f], x.vectors[f]);
      assert [] + WriteField(f, x.specs[f], x.vectors[f]) == WriteField(f, x.specs[f], x.vectors[f]);
    } else {
      assert (fields + [f])[1..] == fields[1..] + [f] && (fields + [f])[0] == fields[0];
      FieldsSnoc(x, fields[1..], f);
      Assoc(WriteField(fields[0], x.specs[fields[0]], x.vectors[fields[0]]), WriteFields(x, fields[1..]),
        WriteField(f, x.specs[f], x.vectors[f]));
    }
  }

  ghost predicate TooLong(field: Text, spec: Spec, records: Records) {
    |field| >= TWO32 || spec.dims >= TWO32 || |spec.similarity| >= TWO32 || exists id :: id in records && |id| >= TWO32
  }

  method EncodeField(field: Text, spec: Spec, records: Records) returns (data: Option<seq<Byte>>)
    ensures data.None? <==> TooLong(field, spec, records)
    ensures data.Some? ==> data.value == WriteField(field, spec, records)
  {
    hide WriteText, WriteVector, Little;
    if |field| >= TWO32 || spec.dims >= TWO32 || |spec.similarity| >= TWO32 {
      return None;
    }
    var ids := SortedKeys(records.Keys);
    OneOrder(ids, Order(records.Keys), records.Keys);
    var buf := WriteText(field) + Little(spec.dims, 4) + WriteText(spec.similarity) + Little(|ids|, 8);
    ghost var head := buf;
    assert ids[..0] == [] && head + [] == head;
    for i := 0 to |ids|
      invariant buf == head + WriteRecords(records, ids[..i])
      invariant forall j :: 0 <= j < i ==> |ids[j]| < TWO32
    {
      var id := ids[i];
      assert id in ids;
      if |id| >= TWO32 {
        return None;
      }
      RecordsSnoc(records, ids[..i], id);
      assert ids[..i + 1] == ids[..i] + [id];
      Assoc(head, WriteRecords(records, ids[..i]), WriteText(id) + WriteVector(records[id]));
      buf := buf + (WriteText(id) + WriteVector(records[id]));
    }
    assert ids[..|ids|] == ids;
    data := Some(buf);
  }

  lemma {:induction false} RecordsSnoc(records: Records, ids: seq<Text>, id: Text)
    requires forall t :: t in ids + [id] ==> t in records
    ensures id in records && forall t :: t in ids ==> t in records
    ensures WriteRecords(records, ids + [id]) == WriteRecords(records, ids) + (WriteText(id) + WriteVector(records[id]))
  {
    hide WriteText, WriteVector;
    assert (ids + [id])[|ids|] == id && forall t :: t in ids ==> t in ids + [id];
    if ids == [] {
      assert [id][1..] == [] && ids + [id] == [id];
      assert WriteText(id) + WriteVector(records[id]) + [] == [] + (WriteText(id) + WriteVector(records[id]));
    } else {
      assert (ids + [id])[1..] == ids[1..] + [id] && (ids + [id])[0] == ids[0];
      RecordsSnoc(records, ids[1..], id);
      Assoc(WriteText(ids[0]) + WriteVector(records[ids[0]]), WriteRecords(records, ids[1..]),
        WriteText(id) + WriteVector(records[id]));
    }
  }

  /** What was read before, with what is still read over it. */
  function Over<V>(before: map<Text, V>, p: Parsed<map<Text, V>>): Parsed<map<Text, V>> {
    match p
    case Bad => Bad
    case Good(more, rest) => Good(before + more, rest)
  }

  lemma OverAssoc<V>(a: map<Text, V>, b: map<Text, V>, p: Parsed<map<Text, V>>)
    ensures Over(a, Over(b, p)) == Over(a + b, p)
    ensures Over(map[], p) == p
  {
    if p.Good? { assert a + (b + p.value) == (a + b) + p.value && map[] + p.value == p.value; }
  }

  method DecodeRecords(data: seq<Byte>, count: nat, dims: nat) returns (r: Parsed<Records>)
    ensures r == ReadRecords(data, count, dims)
  {
    hide ReadText, ReadVector;
    var records: Records, rest := map[], data;
    OverAssoc(map[], map[], ReadRecords(data, count, dims));
    for j := 0 to count
      invariant ReadRecords(data, count, dims) == Over(records, ReadRecords(rest, count - j, dims))
    {
      var id := ReadText(rest);
      if id.Bad? {
        return Bad;
      }
      var vector := ReadVector(id.rest, dims);
      if vector.Bad? {
        return Bad;
      }
      OverAssoc(records, map[id.value := vector.value], ReadRecords(vector.rest, count - j - 1, dims));
      records := records + map[id.value := vector.value];
      rest := vector.rest;
    }
    assert records + map[] == records;
    r := Good(records, rest);
  }

  /** One field's specification and records; a record count that cannot fit is refused first. */
  method DecodeField(data: seq<Byte>) returns (r: Parsed<FieldData>)
    ensures r == ReadField(data)
  {
    hide ReadText, ReadSpec, ReadNumber, ReadRecords;
    var field := ReadText(data);
    if field.Bad? {
      return Bad;
    }
    var spec := ReadSpec(field.rest);
    if spec.Bad? {
      return Bad;
    }
    var count := ReadNumber(spec.rest, 8);
    if count.Bad? || count.value > |count.rest| / (4 + 4 * spec.value.dims) {
      return Bad;
    }
    var records := DecodeRecords(count.rest, count.value, spec.value.dims);
    r := match records
      case Bad => Bad
      case Good(m, rest) => Good(FieldData(field.value, spec.value, m), rest);
  }

  function OverStore(before: Store, p: Parsed<Store>): Parsed<Store> {
    match p
    case Bad => Bad
    case Good(more, rest) => Good(Store(before.vectors + more.vectors, before.specs + more.specs), rest)
  }

  lemma OverUnder(before: Store, f: FieldData, p: Parsed<Store>)
    ensures
      var next := Store(before.vectors + map[f.field := f.records], before.specs + map[f.field := f.spec]);
      OverStore(next, p) ==
        match p
        case Bad => Bad
        case Good(more, rest) => OverStore(before, Good(Under(f, more), rest))
  {
    if p.Good? {
      assert before.vectors + (map[f.field := f.records] + p.value.vectors) ==
             (before.vectors + map[f.field := f.records]) + p.value.vectors;
      assert before.specs + (map[f.field := f.spec] + p.value.specs) == (before.specs + map[f.field := f.spec]) + p.value.specs;
    }
  }

  lemma OverNothing(p: Parsed<Store>)
    ensures OverStore(Store(map[], map[]), p) == p
  {
    if p.Good? { assert map[] + p.value.vectors == p.value.vectors && map[] + p.value.specs == p.value.specs; }
  }

  /** Reads a file of any content: the store it describes, or an error. */
  method Decode(data: seq<Byte>) returns (r: Option<Store>)
    ensures r == ReadStore(data)
  {
    hide ReadField, ReadNumber;
    if |data| < 8 || data[..8] != MAGIC {
      return None;
    }
    var version := ReadNumber(data[8..], 4);
    if version.Bad? || version.value != VERSION {
      return None;
    }
    var count := ReadNumber(version.rest, 4);
    if count.Bad? || count.value > |data| {
      return None;
    }
    var x, rest := Store(map[], map[]), count.rest;
    OverNothing(ReadFields(rest, count.value));
    for i := 0 to count.value
      invariant ReadFields(count.rest, count.value) == OverStore(x, ReadFields(rest, count.value - i))
    {
      var f := DecodeField(rest);
      if f.Bad? {
        return None;
      }
      OverUnder(x, f.value, ReadFields(f.rest, count.value - i - 1));
      x := Store(x.vectors + map[f.value.field := f.value.records], x.specs + map[f.value.field := f.value.spec]);
      rest := f.rest;
    }
    assert x.vectors + map[] == x.vectors && x.specs + map[] == x.specs;
    if rest != [] {
      return None;
    }
    r := Some(x);
  }

  /** Decoding what was encoded gives back the vectors, and the specifications of their
      fields, if and only if every string and dimension is within the reader's limits. */
  lemma DecodesExactlyWhenItFits(x: Store)
    requires StoreOk(x)
    ensures ReadStore(WriteStore(x)).Some? <==> StoreFits(x)
    ensures StoreFits(x) ==>
      ReadStore(WriteStore(x)).value.vectors == x.vectors
      && ReadStore(WriteStore(x)).value.specs == map f | f in x.vectors :: x.specs[f]
  {
    hide ReadStore, WriteStore, StoreFits;
    StoreRoundTrip(x);
    var fields := Order(x.vectors.Keys);
    assert forall f :: f in fields <==> f in x.vectors;
  }

  /** A store whose file is written and cannot be read: one identifier is too long. */
  lemma WrittenButNotRead() returns (x: Store)
    ensures StoreOk(x) && ReadStore(WriteStore(x)) == None
  {
    var id: Text := seq(MAX_BLOB + 1, _ => 0);
    var field: Text, records: Records, spec := [1], map[id := [0]], Spec(1, COSINE);
    x := Store(map[field := records], map[field := spec]);
    assert |records| == 1 && |x.vectors| == 1;
    assert Finite(0);
    assert FieldOk(field, spec, records);
    assert id in records && !FieldFits(field, spec, records);
    DecodesExactlyWhenItFits(x);
  }

  lemma FourBytes(a: nat, b: nat, c: nat, d: nat)
    requires a < 256 && b < 256 && c < 256 && d < 256
    ensures Little(a + 256 * (b + 256 * (c + 256 * d)), 4) == [a, b, c, d]
  {
    var n3, n2, n1 := d, c + 256 * d, b + 256 * (c + 256 * d);
    assert Little(n3 / 256, 0) == [] && Little(n3, 1) == [d];
    assert n2 / 256 == n3 && Little(n2, 2) == [c, d];
    assert n1 / 256 == n2 && Little(n1, 3) == [b, c, d];
  }

  lemma SmallNumber(n: nat)
    requires n < 256
    ensures Little(n, 4) == [n, 0, 0, 0] && Little(n, 8) == [n, 0, 0, 0, 0, 0, 0, 0]
  {
    FourBytes(n, 0, 0, 0);
    FourBytes(0, 0, 0, 0);
    assert Little(0, 5) == [0, 0, 0, 0, 0] && Little(0, 6) == [0, 0, 0, 0, 0, 0] && Little(0, 7) == [0, 0, 0, 0, 0, 0, 0];
  }

  /** The file of a field f with the one-component vectors 1.0 of a and 0.0 of b. */
  lemma FileBytes()
    ensures
      var x := Store(map[[102] := map[[98] := [0], [97] := [0x3F80_0000]]], map[[102] := Spec(1, COSINE)]);
      WriteStore(x) ==
        [66, 76, 85, 71, 69, 86, 69, 67] + [1, 0, 0, 0] + [1, 0, 0, 0]
        + ([1, 0, 0, 0, 102] + [1, 0, 0, 0] + [6, 0, 0, 0, 99, 111, 115, 105, 110, 101] + [2, 0, 0, 0, 0, 0, 0, 0]
           + ([1, 0, 0, 0, 97, 0, 0, 128, 63] + [1, 0, 0, 0, 98, 0, 0, 0, 0]))
  {
    hide Little, WriteField;
    var f: Text, records: Records := [102], map[[98] := [0], [97] := [0x3F80_0000]];
    var x := Store(map[f := records], map[f := Spec(1, COSINE)]);
    SmallNumber(1);
    OneOrder(Order(x.vectors.Keys), [f], x.vectors.Keys);
    assert |x.vectors| == 1 && [f][1..] == [];
    FieldBytes(records);
    assert WriteFields(x, [f]) == WriteField(f, Spec(1, COSINE), records) + [];
  }

  lemma FieldBytes(records: Records)
    requires records == map[[98] := [0], [97] := [0x3F80_0000]]
    ensures WriteField([102], Spec(1, COSINE), records) ==
      [1, 0, 0, 0, 102] + [1, 0, 0, 0] + [6, 0, 0, 0, 99, 111, 115, 105, 110, 101] + [2, 0, 0, 0, 0, 0, 0, 0]
      + ([1, 0, 0, 0, 97, 0, 0, 128, 63] + [1, 0, 0, 0, 98, 0, 0, 0, 0])
  {
    hide Little, WriteRecords;
    var a: Text, b: Text := [97], [98];
    SmallNumber(1);
    SmallNumber(2);
    SmallNumber(6);
    InOrder(a, b);
    OneOrder(Order(records.Keys), [a, b], records.Keys);
    assert |records| == 2;
    RecordBytes(records, a, b);
    assert WriteText([102]) == [1, 0, 0, 0, 102];
    assert WriteText(COSINE) == [6, 0, 0, 0, 99, 111, 115, 105, 110, 101];
  }

  lemma InOrder(a: Text, b: Text)
    requires a == [97] && b == [98]
    ensures BytesLess(a, b)
  {
  }

  lemma RecordBytes(records: Records, a: Text, b: Text)
    requires a == [97] && b == [98] && records == map[b := [0], a := [0x3F80_0000]]
    ensures WriteRecords(records, [a, b]) == [1, 0, 0, 0, 97, 0, 0, 128, 63] + [1, 0, 0, 0, 98, 0, 0, 0, 0]
  {
    hide Little;
    SmallNumber(0);
    SmallNumber(1);
    FourBytes(0, 0, 128, 63);
    var one: Vector, zero: Vector := [0x3F80_0000], [0];
    assert one[1..] == [] && zero[1..] == [];
    assert WriteVector(one) == [0, 0, 128, 63] && WriteVector(zero) == [0, 0, 0, 0];
    assert [a, b][1..] == [b] && [b][1..] == [];
    assert WriteRecords(records, [b]) == WriteText(b) + WriteVector(zero) + [];
  }
}
