/** The persister's own work on a snapshot: which segments to merge in memory, and the
    snapshot it writes instead. */
module Persisting {
  import opened Segments
  import opened Introducer
  import opened IndexProtocol

  /** The segments that are only in memory, in order. */
  method CollectInMemory(snapshot: Snapshot) returns (segments: seq<SegmentSnapshot>, ids: set<nat>)
    ensures segments == InMemory(snapshot.segment) && ids == Ids(segments)
    ensures forall s :: s in segments <==> s in snapshot.segment && !s.persisted
  {
    segments, ids := [], {};
    for i := 0 to |snapshot.segment|
      invariant segments == InMemory(snapshot.segment[..i]) && ids == Ids(segments)
    {
      var s := snapshot.segment[i];
      assert snapshot.segment[..i + 1][..i] == snapshot.segment[..i];
      if !s.persisted {
        MoreIds(segments, s);
        segments, ids := segments + [s], ids + {s.id};
      }
    }
    assert snapshot.segment[..|snapshot.segment|] == snapshot.segment;
    PartsAre(snapshot.segment);
  }

  lemma {:induction false} PartsAre(segs: seq<SegmentSnapshot>)
    ensures forall s :: s in InMemory(segs) <==> s in segs && !s.persisted
    ensures forall s :: s in OnDisk(segs) <==> s in segs && s.persisted
  {
    if segs != [] {
      PartsAre(segs[..|segs| - 1]);
      assert segs == segs[..|segs| - 1] + [segs[|segs| - 1]];
    }
  }

  lemma MoreIds(segs: seq<SegmentSnapshot>, s: SegmentSnapshot)
    ensures Ids(segs + [s]) == Ids(segs) + {s.id}
  {
    assert (segs + [s])[..|segs|] == segs;
  }

  /** Copies what was not merged and puts the merged segment behind it. */
  method EquivalentSnapshot(snapshot: Snapshot, mergedIds: set<nat>, newId: nat, merged: seq<Doc>) returns (equiv: Snapshot)
    requires DistinctIds(snapshot.segment) && mergedIds == Ids(InMemory(snapshot.segment))
    requires merged == MergedDocs(InMemory(snapshot.segment))
    ensures equiv == Equivalent(snapshot, newId)
    ensures forall s :: s in equiv.segment <==> (s in snapshot.segment && s.persisted) || s == SegmentSnapshot(newId, merged, true, {})
  {
    var segment := [];
    for i := 0 to |snapshot.segment|
      invariant segment == OnDisk(snapshot.segment[..i])
    {
      var s := snapshot.segment[i];
      assert snapshot.segment[..i + 1][..i] == snapshot.segment[..i];
      MergedByMemory(snapshot.segment, i);
      if s.id !in mergedIds {
        segment := segment + [s];
      }
    }
    assert snapshot.segment[..|snapshot.segment|] == snapshot.segment;
    PartsAre(snapshot.segment);
    equiv := MakeSnapshot(snapshot.epoch, segment + [SegmentSnapshot(newId, merged, true, {})]);
  }

  /** Ids tell the merged segments from the others. */
  lemma {:induction false} MergedByMemory(segs: seq<SegmentSnapshot>, i: nat)
    requires DistinctIds(segs) && i < |segs|
    ensures segs[i].id in Ids(InMemory(segs)) <==> !segs[i].persisted
  {
    var init, last := segs[..|segs| - 1], segs[|segs| - 1];
    DistinctLast(segs);
    InMemoryIds(init);
    var rest := InMemory(init);
    MoreIds(rest, last);
    assert rest + [] == rest;
    if i < |init| {
      MergedByMemory(init, i);
      assert segs[i] == init[i] && init[i] in init;
    }
  }

  lemma {:induction false} InMemoryIds(segs: seq<SegmentSnapshot>)
    ensures Ids(InMemory(segs)) <= Ids(segs)
  {
    if segs != [] {
      var init, last := segs[..|segs| - 1], segs[|segs| - 1];
      InMemoryIds(init);
      MoreIds(InMemory(init), last);
      assert InMemory(init) + [] == InMemory(init);
    }
  }
}
