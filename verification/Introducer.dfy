/** The introducer: the only code that replaces the root snapshot.

    Batches, merges and persists are prepared elsewhere, on older roots, and each
    is applied here to whatever the root has become. */
module Introducer {
  import opened Basics
  import opened Segments

  // ---------------------------------------------------------------- snapshots

  /** Published snapshots never change; offsets[i] is the global number of the
      first document of segment i. */
  datatype Snapshot = Snapshot(epoch: nat, segment: seq<SegmentSnapshot>, offsets: seq<nat>)

  function TotalCount(segs: seq<SegmentSnapshot>): nat {
    if segs == [] then 0 else TotalCount(segs[..|segs| - 1]) + |segs[|segs| - 1].docs|
  }

  function Offsets(segs: seq<SegmentSnapshot>): (r: seq<nat>)
    ensures |r| == |segs|
    ensures forall i :: 0 <= i < |segs| ==> r[i] == TotalCount(segs[..i])
  {
    if segs == [] then []
    else
      var init := segs[..|segs| - 1];
      assert forall i :: 0 <= i < |init| ==> segs[..i] == init[..i];
      Offsets(init) + [TotalCount(init)]
  }

  function MakeSnapshot(epoch: nat, segs: seq<SegmentSnapshot>): Snapshot {
    Snapshot(epoch, segs, Offsets(segs))
  }

  lemma OffsetsSnoc(segs: seq<SegmentSnapshot>, s: SegmentSnapshot)
    ensures Offsets(segs + [s]) == Offsets(segs) + [TotalCount(segs)]
    ensures TotalCount(segs + [s]) == TotalCount(segs) + |s.docs|
  {
    assert (segs + [s])[..|segs|] == segs;
  }

  // ---------------------------------------------------------------- batches

  /** A prepared batch.  obsoletes was computed on an older root. */
  datatype Introduction = Introduction(
    id: nat, data: Option<seq<Doc>>, obsoletes: map<nat, set<nat>>, idTerms: set<Term>)
  {
    function Docs(): seq<Doc> {
      if data.Some? then data.value else []
    }

    function AsBatch(): Batch {
      Batch(idTerms, Docs())
    }
  }

  function Obsoleted(s: SegmentSnapshot, next: Introduction): SegmentSnapshot {
    var delta := if s.id in next.obsoletes then next.obsoletes[s.id] else MatchingDocs(s.docs, next.idTerms);
    s.(deleted := s.deleted + delta)
  }

  function Survivors(segs: seq<SegmentSnapshot>, next: Introduction): seq<SegmentSnapshot> {
    if segs == [] then []
    else
      var s := Obsoleted(segs[|segs| - 1], next);
      Survivors(segs[..|segs| - 1], next) + if s.LiveSize() > 0 then [s] else []
  }

  function SegmentRoot(segs: seq<SegmentSnapshot>, next: Introduction): seq<SegmentSnapshot> {
    Survivors(segs, next) +
    if next.data.Some? then [SegmentSnapshot(next.id, next.data.value, false, {})] else []
  }

  // ---------------------------------------------------------------- persists

  /** Segments whose files were written are replaced by their persisted form. */
  function PersistRoot(segs: seq<SegmentSnapshot>, persisted: set<nat>): (r: seq<SegmentSnapshot>)
    ensures |r| == |segs|
    ensures forall i :: 0 <= i < |segs| ==>
      r[i] == if segs[i].id in persisted then segs[i].(persisted := true) else segs[i]
  {
    if segs == [] then []
    else
      var s := segs[|segs| - 1];
      PersistRoot(segs[..|segs| - 1], persisted) + [if s.id in persisted then s.(persisted := true) else s]
  }

  // ---------------------------------------------------------------- merges

  type OldMap = map<nat, Option<SegmentSnapshot>>
  type DocNums = map<nat, seq<nat>>

  /** The segment with this id in a root, if it is still there. */
  function Current(segs: seq<SegmentSnapshot>, id: nat): Option<SegmentSnapshot> {
    if segs == [] then None
    else if segs[|segs| - 1].id == id then Some(segs[|segs| - 1])
    else Current(segs[..|segs| - 1], id)
  }

  /** Documents of a planned source deleted since the plan: the ones newly marked
      or, when the whole segment has left the root, all that were live. */
  function Late(segs: seq<SegmentSnapshot>, id: nat, planned: SegmentSnapshot): set<nat> {
    match Current(segs, id)
    case Some(now) => now.deleted - planned.deleted
    case None => planned.DocNumbersLive()
  }

  function NewNumber(nums: DocNums, id: nat, d: nat): nat {
    if id in nums && d < |nums[id]| then nums[id][d] else 0
  }

  function NewNumbers(nums: DocNums, id: nat, docs: set<nat>): set<nat> {
    set d | d in docs :: NewNumber(nums, id, d)
  }

  /** The numbers to mask in the merged segment, for the sources named by ids. */
  function LateNumbers(segs: seq<SegmentSnapshot>, oldMap: OldMap, nums: DocNums, ids: set<nat>): set<nat> {
    set id, x | id in ids && id in oldMap && oldMap[id].Some? && x in NewNumbers(nums, id, Late(segs, id, oldMap[id].value)) :: x
  }

  function Staying(segs: seq<SegmentSnapshot>, ids: set<nat>): seq<SegmentSnapshot> {
    if segs == [] then []
    else
      var s := segs[|segs| - 1];
      Staying(segs[..|segs| - 1], ids) + if s.id !in ids && s.LiveSize() > 0 then [s] else []
  }

  predicate MergeSkipped(merged: Option<seq<Doc>>, mask: set<nat>) {
    merged.None? || |merged.value| <= |mask|
  }

  function MergeRoot(segs: seq<SegmentSnapshot>, id: nat, oldMap: OldMap, nums: DocNums, merged: Option<seq<Doc>>)
    : seq<SegmentSnapshot>
  {
    var mask := LateNumbers(segs, oldMap, nums, oldMap.Keys);
    Staying(segs, oldMap.Keys) +
    if MergeSkipped(merged, mask) then [] else [SegmentSnapshot(id, merged.value, true, mask)]
  }

  /** Every number the introducer looks up exists, and every source without
      documents is still in the root: a missing one would be a nil dereference. */
  ghost predicate Introducible(segs: seq<SegmentSnapshot>, oldMap: OldMap, nums: DocNums) {
    forall id :: id in oldMap ==>
      match oldMap[id]
      case None => id in Ids(segs)
      case Some(planned) => id in nums && forall d :: d in Late(segs, id, planned) ==> d < |nums[id]|
  }

  lemma {:induction false} CurrentFound(segs: seq<SegmentSnapshot>, i: nat)
    requires DistinctIds(segs) && i < |segs|
    ensures Current(segs, segs[i].id) == Some(segs[i])
  {
    if i < |segs| - 1 { CurrentFound(segs[..|segs| - 1], i); }
  }

  lemma {:induction false} CurrentIsMember(segs: seq<SegmentSnapshot>, id: nat)
    ensures Current(segs, id).None? <==> id !in Ids(segs)
    ensures Current(segs, id).Some? ==> Current(segs, id).value in segs && Current(segs, id).value.id == id
  {
    if segs != [] { CurrentIsMember(segs[..|segs| - 1], id); }
  }

  /** A merge handed to the introducer.  ProcessSegmentNow removes entries from oldMap. */
  class SegmentMerge {
    const id: nat
    var oldMap: OldMap
    const oldNewDocNums: DocNums
    const merged: Option<seq<Doc>>

    constructor (id: nat, oldMap: OldMap, oldNewDocNums: DocNums, merged: Option<seq<Doc>>)
      ensures this.id == id && this.oldMap == oldMap && this.oldNewDocNums == oldNewDocNums && this.merged == merged
    {
      this.id, this.oldMap, this.oldNewDocNums, this.merged := id, oldMap, oldNewDocNums, merged;
    }

    /** Whether a root segment is a source of this merge; if so its late deletes are
        added to the mask and its entry is removed. */
    method ProcessSegmentNow(now: SegmentSnapshot, mask: set<nat>)
      returns (goingAway: bool, newMask: set<nat>)
      requires now.id in oldMap && oldMap[now.id].Some? ==>
        now.id in oldNewDocNums &&
        forall d :: d in now.deleted - oldMap[now.id].value.deleted ==> d < |oldNewDocNums[now.id]|
      modifies this
      ensures goingAway == (now.id in old(oldMap))
      ensures oldMap == old(oldMap) - {now.id}
      ensures newMask == mask +
        if goingAway && old(oldMap)[now.id].Some?
        then NewNumbers(oldNewDocNums, now.id, now.deleted - old(oldMap)[now.id].value.deleted) else {}
    {
      newMask := mask;
      if now.id !in oldMap {
        assert oldMap - {now.id} == oldMap;
        return false, newMask;
      }
      if oldMap[now.id].Some? {
        var deletedSince := now.deleted - oldMap[now.id].value.deleted;
        newMask := AddNewNumbers(now.id, deletedSince, mask);
      }
      oldMap := oldMap - {now.id};
      goingAway := true;
    }

    /** Adds the new number of each document in docs to the mask, in any order. */
    method AddNewNumbers(id: nat, docs: set<nat>, mask: set<nat>) returns (newMask: set<nat>)
      requires id in oldNewDocNums && forall d :: d in docs ==> d < |oldNewDocNums[id]|
      ensures newMask == mask + NewNumbers(oldNewDocNums, id, docs)
    {
      newMask := mask;
      var rest := docs;
      while rest != {}
        invariant rest <= docs
        invariant newMask == mask + NewNumbers(oldNewDocNums, id, docs - rest)
        decreases rest
      {
        var d :| d in rest;
        newMask := newMask + {oldNewDocNums[id][d]};
        assert docs - (rest - {d}) == (docs - rest) + {d};
        rest := rest - {d};
      }
      assert docs - rest == docs;
    }
  }

  /** A segment's identifier lookup reads its file and can fail. */
  method DocsMatchingTerms(docs: seq<Doc>, ids: set<Term>) returns (r: Option<set<nat>>)
    ensures r.Some? ==> r.value == MatchingDocs(docs, ids)
  {
    if * { r := None; } else { r := Some(MatchingDocs(docs, ids)); }
  }

  class Writer {
    var root: Snapshot
    var nextSegmentID: nat

    /** The optimistic part of a batch: identifiers are looked up in the current root. */
    method PrepareSegment(data: Option<seq<Doc>>, idTerms: set<Term>) returns (r: Option<Introduction>)
      modifies this`nextSegmentID
      ensures nextSegmentID == old(nextSegmentID) + 1
      ensures r.Some? ==> r.value == Prepare(root.segment, nextSegmentID, data, idTerms)
    {
      nextSegmentID := nextSegmentID + 1;
      var obsoletes: map<nat, set<nat>> := map[];
      for i := 0 to |root.segment|
        invariant nextSegmentID == old(nextSegmentID) + 1
        invariant obsoletes == ObsoletesOf(root.segment[..i], idTerms)
      {
        var seg := root.segment[i];
        assert root.segment[..i + 1][..i] == root.segment[..i];
        var delta := DocsMatchingTerms(seg.docs, idTerms);
        if delta.None? { return None; }
        obsoletes := obsoletes[seg.id := delta.value];
      }
      assert root.segment[..|root.segment|] == root.segment;
      r := Some(Introduction(nextSegmentID, data, obsoletes, idTerms));
    }

    /** Applies the new deletions to every segment and drops those with nothing live. */
    method ObsoleteSegments(segs: seq<SegmentSnapshot>, next: Introduction)
      returns (ok: bool, segment: seq<SegmentSnapshot>, offsets: seq<nat>, running: nat)
      ensures ok ==> segment == Survivors(segs, next) && offsets == Offsets(segment) && running == TotalCount(segment)
    {
      segment, offsets, running := [], [], 0;
      for i := 0 to |segs|
        invariant segment == Survivors(segs[..i], next)
        invariant offsets == Offsets(segment) && running == TotalCount(segment)
      {
        var seg := segs[i];
        assert segs[..i + 1][..i] == segs[..i];
        var delta: set<nat>;
        if seg.id in next.obsoletes {
          delta := next.obsoletes[seg.id];
        } else {
          var found := DocsMatchingTerms(seg.docs, next.idTerms);
          if found.None? { return false, [], [], 0; }
          delta := found.value;
        }
        var newss := seg.(deleted := seg.deleted + delta);
        assert newss == Obsoleted(seg, next);
        if newss.LiveSize() > 0 {
          OffsetsSnoc(segment, newss);
          segment, offsets := segment + [newss], offsets + [running];
          running := running + |newss.docs|;
        }
      }
      assert segs[..|segs|] == segs;
      ok := true;
    }

    method IntroduceSegment(next: Introduction, epoch: nat) returns (ok: bool)
      requires root.offsets == Offsets(root.segment)
      modifies this`root
      ensures root == if ok then MakeSnapshot(epoch, SegmentRoot(old(root).segment, next)) else old(root)
      ensures root.offsets == Offsets(root.segment)
    {
      var segment, offsets, running;
      ok, segment, offsets, running := ObsoleteSegments(root.segment, next);
      if !ok { return; }
      assert segment + [] == segment;
      if next.data.Some? {
        var added := SegmentSnapshot(next.id, next.data.value, false, {});
        OffsetsSnoc(segment, added);
        segment, offsets := segment + [added], offsets + [running];
      }
      root := Snapshot(epoch, segment, offsets);
    }

    method SwapPersisted(segs: seq<SegmentSnapshot>, offsets: seq<nat>, persisted: set<nat>)
      returns (segment: seq<SegmentSnapshot>, newOffsets: seq<nat>)
      requires |offsets| == |segs|
      ensures segment == PersistRoot(segs, persisted) && newOffsets == offsets
    {
      segment, newOffsets := [], [];
      for i := 0 to |segs|
        invariant segment == PersistRoot(segs[..i], persisted)
        invariant newOffsets == offsets[..i]
      {
        var seg := segs[i];
        assert segs[..i + 1][..i] == segs[..i];
        segment := segment + [if seg.id in persisted then seg.(persisted := true) else seg];
        newOffsets := newOffsets + [offsets[i]];
      }
      assert segs[..|segs|] == segs;
    }

    method IntroducePersist(persisted: set<nat>, epoch: nat)
      requires root.offsets == Offsets(root.segment)
      modifies this`root
      ensures root == MakeSnapshot(epoch, PersistRoot(old(root).segment, persisted))
    {
      var segment, offsets := SwapPersisted(root.segment, root.offsets, persisted);
      PersistOffsets(root.segment, persisted);
      root := Snapshot(epoch, segment, offsets);
    }

    /** Walks the root: sources of the merge go away, segments without live
        documents are dropped, the others stay. */
    method KeepSegments(segs: seq<SegmentSnapshot>, nextMerge: SegmentMerge)
      returns (segment: seq<SegmentSnapshot>, offsets: seq<nat>, running: nat, mask: set<nat>)
      requires DistinctIds(segs)
      requires Introducible(segs, nextMerge.oldMap, nextMerge.oldNewDocNums)
      modifies nextMerge
      ensures nextMerge.oldMap == old(nextMerge.oldMap) - Ids(segs)
      ensures segment == Staying(segs, old(nextMerge.oldMap).Keys)
      ensures offsets == Offsets(segment) && running == TotalCount(segment)
      ensures mask == LateNumbers(segs, old(nextMerge.oldMap), nextMerge.oldNewDocNums, Ids(segs))
    {
      hide Late, LateNumbers, NewNumbers, Staying, Offsets, DistinctIds, Introducible;
      ghost var planned := nextMerge.oldMap;
      segment, offsets, running, mask := [], [], 0, {};
      NothingKept(segs, planned, nextMerge.oldNewDocNums);
      for i := 0 to |segs|
        invariant nextMerge.oldMap == planned - Ids(segs[..i])
        invariant segment == Staying(segs[..i], planned.Keys)
        invariant offsets == Offsets(segment) && running == TotalCount(segment)
        invariant mask == LateNumbers(segs, planned, nextMerge.oldNewDocNums, Ids(segs[..i]))
      {
        KeepStep(segs, i, planned);
        var goingAway;
        goingAway, mask := VisitSegment(segs, i, planned, nextMerge, mask);
        var seg := segs[i];
        if !goingAway && seg.LiveSize() > 0 {
          OffsetsSnoc(segment, seg);
          segment, offsets := segment + [seg], offsets + [running];
          running := running + |seg.docs|;
        }
      }
      assert segs[..|segs|] == segs;
    }

    method VisitSegment(segs: seq<SegmentSnapshot>, i: nat, ghost planned: OldMap, nextMerge: SegmentMerge, mask: set<nat>)
      returns (goingAway: bool, newMask: set<nat>)
      requires DistinctIds(segs) && i < |segs|
      requires Introducible(segs, planned, nextMerge.oldNewDocNums)
      requires nextMerge.oldMap == planned - Ids(segs[..i])
      requires mask == LateNumbers(segs, planned, nextMerge.oldNewDocNums, Ids(segs[..i]))
      modifies nextMerge
      ensures goingAway == (segs[i].id in planned)
      ensures nextMerge.oldMap == planned - Ids(segs[..i + 1])
      ensures newMask == LateNumbers(segs, planned, nextMerge.oldNewDocNums, Ids(segs[..i + 1]))
    {
      var seg := segs[i];
      KeepStep(segs, i, planned);
      LateNumbersStep(segs, planned, nextMerge.oldNewDocNums, Ids(segs[..i]), seg.id);
      goingAway, newMask := nextMerge.ProcessSegmentNow(seg, mask);
    }

    /** Sources left over are no longer in the root: all their documents are masked. */
    method MaskVanished(ghost segs: seq<SegmentSnapshot>, ghost planned: OldMap, nextMerge: SegmentMerge, before: set<nat>)
      returns (mask: set<nat>)
      requires Introducible(segs, planned, nextMerge.oldNewDocNums)
      requires nextMerge.oldMap == planned - Ids(segs)
      requires before == LateNumbers(segs, planned, nextMerge.oldNewDocNums, Ids(segs))
      ensures mask == LateNumbers(segs, planned, nextMerge.oldNewDocNums, planned.Keys)
    {
      mask := before;
      ghost var done := Ids(segs);
      var rest := nextMerge.oldMap.Keys;
      while rest != {}
        invariant rest <= nextMerge.oldMap.Keys
        invariant done == Ids(segs) + (nextMerge.oldMap.Keys - rest)
        invariant mask == LateNumbers(segs, planned, nextMerge.oldNewDocNums, done)
        decreases rest
      {
        var id :| id in rest;
        CurrentIsMember(segs, id);
        assert Late(segs, id, planned[id].value) == planned[id].value.DocNumbersLive();
        mask := nextMerge.AddNewNumbers(id, nextMerge.oldMap[id].value.DocNumbersLive(), mask);
        LateNumbersStep(segs, planned, nextMerge.oldNewDocNums, done, id);
        rest, done := rest - {id}, done + {id};
      }
    }

    method IntroduceMerge(nextMerge: SegmentMerge, epoch: nat) returns (skipped: bool)
      requires DistinctIds(root.segment)
      requires Introducible(root.segment, nextMerge.oldMap, nextMerge.oldNewDocNums)
      modifies this`root, nextMerge
      ensures
        var m, segs := nextMerge, old(root).segment;
        && root == MakeSnapshot(epoch, MergeRoot(segs, m.id, old(m.oldMap), m.oldNewDocNums, m.merged))
        && skipped == MergeSkipped(m.merged, LateNumbers(segs, old(m.oldMap), m.oldNewDocNums, old(m.oldMap).Keys))
    {
      ghost var planned := nextMerge.oldMap;
      var segment, offsets, running, mask := KeepSegments(root.segment, nextMerge);
      mask := MaskVanished(root.segment, planned, nextMerge, mask);
      skipped := true;
      assert segment + [] == segment;
      if nextMerge.merged.Some? && |nextMerge.merged.value| > |mask| {
        var added := SegmentSnapshot(nextMerge.id, nextMerge.merged.value, true, mask);
        OffsetsSnoc(segment, added);
        segment, offsets := segment + [added], offsets + [running];
        skipped := false;
      }
      root := Snapshot(epoch, segment, offsets);
    }
  }

  lemma NothingKept(segs: seq<SegmentSnapshot>, planned: OldMap, nums: DocNums)
    ensures Staying([], planned.Keys) == [] && Offsets([]) == [] && Ids(segs[..0]) == {}
    ensures LateNumbers(segs, planned, nums, {}) == {} && planned - {} == planned
  {
  }

  lemma KeepStep(segs: seq<SegmentSnapshot>, i: nat, planned: OldMap)
    requires DistinctIds(segs) && i < |segs|
    ensures Ids(segs[..i + 1]) == Ids(segs[..i]) + {segs[i].id}
    ensures segs[i].id !in Ids(segs[..i])
    ensures planned - Ids(segs[..i + 1]) == (planned - Ids(segs[..i])) - {segs[i].id}
    ensures Staying(segs[..i + 1], planned.Keys) == Staying(segs[..i], planned.Keys) +
      if segs[i].id !in planned.Keys && segs[i].LiveSize() > 0 then [segs[i]] else []
    ensures segs[i].id in planned && planned[segs[i].id].Some? ==>
      Late(segs, segs[i].id, planned[segs[i].id].value) == segs[i].deleted - planned[segs[i].id].value.deleted
  {
    var next := segs[..i + 1];
    assert next[..i] == segs[..i] && next[i] == segs[i];
    CurrentFound(segs, i);
  }

  function ObsoletesOf(segs: seq<SegmentSnapshot>, idTerms: set<Term>): map<nat, set<nat>> {
    if segs == [] then map[]
    else
      var s := segs[|segs| - 1];
      ObsoletesOf(segs[..|segs| - 1], idTerms)[s.id := MatchingDocs(s.docs, idTerms)]
  }

  function Prepare(segs: seq<SegmentSnapshot>, id: nat, data: Option<seq<Doc>>, idTerms: set<Term>): Introduction {
    Introduction(id, data, ObsoletesOf(segs, idTerms), idTerms)
  }

  lemma LateNumbersStep(segs: seq<SegmentSnapshot>, oldMap: OldMap, nums: DocNums, ids: set<nat>, id: nat)
    ensures LateNumbers(segs, oldMap, nums, ids + {id}) == LateNumbers(segs, oldMap, nums, ids) +
      if id in oldMap && oldMap[id].Some? then NewNumbers(nums, id, Late(segs, id, oldMap[id].value)) else {}
  {
  }

  lemma {:induction false} PersistOffsets(segs: seq<SegmentSnapshot>, persisted: set<nat>)
    ensures Offsets(PersistRoot(segs, persisted)) == Offsets(segs)
    ensures TotalCount(PersistRoot(segs, persisted)) == TotalCount(segs)
  {
    if segs != [] { PersistOffsets(segs[..|segs| - 1], persisted); }
  }
}
