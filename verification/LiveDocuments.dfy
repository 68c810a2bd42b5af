/** What each introduction does to the live documents of the root. */
module LiveDocuments {
  import opened Basics
  import opened Segments
  import opened Introducer

  /** A past root seen from the present one: a segment still there has the same
      documents and at least the same deletions. */
  ghost predicate Older(past: seq<SegmentSnapshot>, now: seq<SegmentSnapshot>) {
    forall p {:trigger p in past} :: p in past ==> OlderThan(p, now)
  }

  ghost predicate OlderThan(p: SegmentSnapshot, now: seq<SegmentSnapshot>) {
    forall q {:trigger q in now} :: q in now && p.id == q.id ==> p.docs == q.docs && p.deleted <= q.deleted
  }

  // ---------------------------------------------------------------- batches

  /** Every optimistic entry is what a fresh lookup in that segment would give. */
  ghost predicate ObsoletesAgree(segs: seq<SegmentSnapshot>, next: Introduction) {
    forall s :: s in segs && s.id in next.obsoletes ==> next.obsoletes[s.id] == MatchingDocs(s.docs, next.idTerms)
  }

  lemma {:induction false} PreparedObsoletes(segs: seq<SegmentSnapshot>, ids: set<Term>, id: nat)
    requires DistinctIds(segs)
    requires id in ObsoletesOf(segs, ids)
    ensures exists s :: s in segs && s.id == id && ObsoletesOf(segs, ids)[id] == MatchingDocs(s.docs, ids)
  {
    var n := |segs| - 1;
    if segs[n].id == id {
      assert segs[n] in segs;
    } else {
      PreparedObsoletes(segs[..n], ids, id);
      var s :| s in segs[..n] && s.id == id && ObsoletesOf(segs[..n], ids)[id] == MatchingDocs(s.docs, ids);
      assert s in segs;
    }
  }

  /** Work prepared on any past root is still right on the present one. */
  lemma StalePreparationAgrees(past: seq<SegmentSnapshot>, now: seq<SegmentSnapshot>, id: nat,
                               data: Option<seq<Doc>>, ids: set<Term>)
    requires DistinctIds(past) && Older(past, now)
    ensures ObsoletesAgree(now, Prepare(past, id, data, ids))
  {
    forall s | s in now && s.id in ObsoletesOf(past, ids)
      ensures ObsoletesOf(past, ids)[s.id] == MatchingDocs(s.docs, ids)
    {
      PreparedObsoletes(past, ids, s.id);
    }
  }

  lemma NothingLive(s: SegmentSnapshot)
    requires s.WellFormed()
    ensures s.LiveSize() <= 0 <==> SegBag(s) == multiset{}
  {
    LiveBagSize(s.docs, s.deleted);
  }

  lemma MatchingInRange(docs: seq<Doc>, ids: set<Term>)
    ensures MatchingDocs(docs, ids) <= AllDocs(docs)
  {
  }

  lemma SurvivorsBag(segs: seq<SegmentSnapshot>, next: Introduction)
    requires forall s :: s in segs ==> s.WellFormed()
    requires ObsoletesAgree(segs, next)
    ensures RootBag(Survivors(segs, next)) == RemoveMatching(RootBag(segs), next.idTerms)
    ensures forall s :: s in Survivors(segs, next) ==>
      s.WellFormed() && s.LiveSize() > 0 && exists q :: q in segs && s == Obsoleted(q, next)
  {
    hide *;
    SurvivorsSum(segs, next);
    SurvivorsAre(segs, next);
  }

  /** One segment's survivors, and what the others' sum becomes with them. */
  lemma OneSurvivor(segs: seq<SegmentSnapshot>, last: SegmentSnapshot, next: Introduction)
    requires ObsoletesAgree(segs, next) && last in segs && last.WellFormed()
    ensures SegBag(Obsoleted(last, next)) == RemoveMatching(SegBag(last), next.idTerms)
    ensures Obsoleted(last, next).WellFormed()
    ensures Obsoleted(last, next).LiveSize() <= 0 <==> SegBag(Obsoleted(last, next)) == multiset{}
  {
    hide RemoveMatching, LiveBag;
    MatchingInRange(last.docs, next.idTerms);
    assert Obsoleted(last, next).deleted == last.deleted + MatchingDocs(last.docs, next.idTerms);
    LiveBagObsolete(last.docs, last.deleted, next.idTerms);
    NothingLive(Obsoleted(last, next));
  }

  lemma {:induction false} SurvivorsSum(segs: seq<SegmentSnapshot>, next: Introduction)
    requires forall s :: s in segs ==> s.WellFormed()
    requires ObsoletesAgree(segs, next)
    ensures RootBag(Survivors(segs, next)) == RemoveMatching(RootBag(segs), next.idTerms)
  {
    hide SegBag, Obsoleted;
    if segs != [] {
      var init, last := segs[..|segs| - 1], segs[|segs| - 1];
      var now := Obsoleted(last, next);
      assert (forall s :: s in init ==> s in segs) && last in segs;
      SurvivorsSum(init, next);
      OneSurvivor(segs, last, next);
      calc {
        RootBag(Survivors(segs, next));
        { RootBagSnocIf(Survivors(init, next), now.LiveSize() > 0, now); }
        RootBag(Survivors(init, next)) + SegBag(now);
        RemoveMatching(RootBag(init), next.idTerms) + RemoveMatching(SegBag(last), next.idTerms);
        { RemoveMatchingSum(RootBag(init), SegBag(last), next.idTerms); }
        RemoveMatching(RootBag(segs), next.idTerms);
      }
    }
  }

  lemma {:induction false} SurvivorsAre(segs: seq<SegmentSnapshot>, next: Introduction)
    requires forall s :: s in segs ==> s.WellFormed()
    requires ObsoletesAgree(segs, next)
    ensures forall s :: s in Survivors(segs, next) ==>
      s.WellFormed() && s.LiveSize() > 0 && exists q :: q in segs && s == Obsoleted(q, next)
  {
    hide SegBag, Obsoleted, RemoveMatching;
    if segs != [] {
      var init, last := segs[..|segs| - 1], segs[|segs| - 1];
      assert (forall s :: s in init ==> s in segs) && last in segs;
      SurvivorsAre(init, next);
      OneSurvivor(segs, last, next);
    }
  }

  lemma {:induction false} SurvivorsDistinct(segs: seq<SegmentSnapshot>, next: Introduction)
    requires DistinctIds(segs)
    ensures DistinctIds(Survivors(segs, next))
    ensures Ids(Survivors(segs, next)) <= Ids(segs)
  {
    if segs != [] {
      var init, last := segs[..|segs| - 1], segs[|segs| - 1];
      var now := Obsoleted(last, next);
      DistinctLast(segs);
      hide DistinctIds, Ids;
      SurvivorsDistinct(init, next);
      DistinctSnocIf(Survivors(init, next), now.LiveSize() > 0, now);
    }
  }

  /** A batch introduced on any later root than the one it was prepared on still
      deletes exactly the matching documents and adds exactly its own. */
  lemma BatchIntroduced(segs: seq<SegmentSnapshot>, next: Introduction)
    requires WellFormedRoot(segs) && ObsoletesAgree(segs, next)
    requires next.id !in Ids(segs) && (next.data.Some? ==> next.data.value != [])
    ensures WellFormedRoot(SegmentRoot(segs, next))
    ensures RootBag(SegmentRoot(segs, next)) == ApplyBatch(RootBag(segs), next.AsBatch())
  {
    var kept := Survivors(segs, next);
    SurvivorsBag(segs, next);
    SurvivorsDistinct(segs, next);
    var added := SegmentSnapshot(next.id, next.Docs(), false, {});
    assert WellFormedRoot(kept);
    SnocWellFormed(kept, added);
    calc {
      RootBag(SegmentRoot(segs, next));
      { assert SegmentRoot(segs, next) == kept + if next.data.Some? then [added] else []; }
      RootBag(kept + if next.data.Some? then [added] else []);
      { RootBagSnocIf(kept, next.data.Some?, added); }
      RootBag(kept) + if next.data.Some? then SegBag(added) else multiset{};
      { LiveBagNone(added.docs); }
      RootBag(kept) + multiset(next.Docs());
    }
  }

  lemma SnocWellFormed(segs: seq<SegmentSnapshot>, s: SegmentSnapshot)
    requires WellFormedRoot(segs) && s.id !in Ids(segs)
    ensures s.WellFormed() && s.LiveSize() > 0 ==> WellFormedRoot(segs + [s])
    ensures WellFormedRoot(segs + [])
    ensures Ids(segs + [s]) == Ids(segs) + {s.id} && Ids(segs + []) == Ids(segs)
  {
    assert segs + [] == segs;
    assert forall q :: q in segs ==> q.id in Ids(segs);
  }

  // ---------------------------------------------------------------- persists

  lemma {:induction false} PersistKeepsBag(segs: seq<SegmentSnapshot>, persisted: set<nat>)
    ensures RootBag(PersistRoot(segs, persisted)) == RootBag(segs)
  {
    if segs != [] {
      var init, last := segs[..|segs| - 1], segs[|segs| - 1];
      PersistKeepsBag(init, persisted);
      RootBagSnoc(PersistRoot(init, persisted), PersistRoot(segs, persisted)[|segs| - 1]);
    }
  }

  // ---------------------------------------------------------------- merges

  const DOC_DROPPED: nat := 0xFFFF_FFFF_FFFF_FFFF

  function OldMapOf(sources: seq<SegmentSnapshot>): OldMap {
    if sources == [] then map[]
    else
      var last := sources[|sources| - 1];
      OldMapOf(sources[..|sources| - 1])[last.id := Some(last)]
  }

  /** The new numbers a merge reports for its i-th source. */
  function DocNumsAt(sources: seq<SegmentSnapshot>, i: nat): (r: seq<nat>)
    requires i < |sources|
  {
    seq(|sources[i].docs|, d requires 0 <= d < |sources[i].docs| =>
      if d in sources[i].deleted then DOC_DROPPED else NewDocNum(sources, i, d))
  }

  function DocNumsOf(sources: seq<SegmentSnapshot>): DocNums {
    if sources == [] then map[]
    else
      var n := |sources| - 1;
      DocNumsOf(sources[..n])[sources[n].id := DocNumsAt(sources, n)]
  }

  function NoEntries(empties: set<nat>): OldMap {
    map id | id in empties :: None
  }

  /** A merge planned from a past root: its sources, and the segments found without
      live documents, whose entries carry no snapshot. */
  ghost predicate PlannedFrom(sources: seq<SegmentSnapshot>, empties: set<nat>, oldMap: OldMap,
                              nums: DocNums, merged: Option<seq<Doc>>)
  {
    && DistinctIds(sources) && empties !! Ids(sources)
    && (forall s :: s in sources ==> s.WellFormed())
    && oldMap == OldMapOf(sources) + NoEntries(empties)
    && nums == DocNumsOf(sources)
    && (merged == Some(MergedDocs(sources)) || (sources == [] && merged.None?))
  }

  lemma {:induction false} OldMapAt(sources: seq<SegmentSnapshot>)
    requires DistinctIds(sources)
    ensures OldMapOf(sources).Keys == Ids(sources)
    ensures forall s :: s in sources ==> s.id in OldMapOf(sources) && OldMapOf(sources)[s.id] == Some(s)
  {
    if sources != [] {
      var init, last := sources[..|sources| - 1], sources[|sources| - 1];
      OldMapAt(init);
      assert Ids(sources) == Ids(init) + {last.id};
      assert last.id !in Ids(init);
      forall s | s in sources ensures s.id in OldMapOf(sources) && OldMapOf(sources)[s.id] == Some(s) {
        if s != last { assert s in init; assert s.id in Ids(init); }
      }
    }
  }

  lemma {:induction false} DocNumsOfAt(sources: seq<SegmentSnapshot>, i: nat)
    requires DistinctIds(sources) && i < |sources|
    ensures sources[i].id in DocNumsOf(sources) && DocNumsOf(sources)[sources[i].id] == DocNumsAt(sources, i)
  {
    var n := |sources| - 1;
    if i < n {
      var init := sources[..n];
      assert sources[i].id != sources[n].id;
      DistinctLast(sources);
      hide DistinctIds, Ids;
      DocNumsOfAt(init, i);
      assert init[..i] == sources[..i] && init[i] == sources[i];
    }
  }

  // The bag of a root split by a set of ids.

  function Select(segs: seq<SegmentSnapshot>, ids: set<nat>): seq<SegmentSnapshot> {
    if segs == [] then []
    else
      var s := segs[|segs| - 1];
      Select(segs[..|segs| - 1], ids) + if s.id in ids then [s] else []
  }

  function CurrentBag(segs: seq<SegmentSnapshot>, id: nat): Bag {
    match Current(segs, id)
    case Some(s) => SegBag(s)
    case None => multiset{}
  }

  lemma {:induction false} SplitBag(segs: seq<SegmentSnapshot>, ids: set<nat>)
    requires forall s :: s in segs ==> s.WellFormed()
    ensures RootBag(segs) == RootBag(Select(segs, ids)) + RootBag(Staying(segs, ids))
  {
    if segs != [] {
      var init, last := segs[..|segs| - 1], segs[|segs| - 1];
      var a, b := RootBag(Select(init, ids)), RootBag(Staying(init, ids));
      var one := SegBag(last);
      assert forall s :: s in init ==> s in segs;
      NothingLive(last);
      var stays := last.id !in ids && last.LiveSize() > 0;
      calc {
        RootBag(segs);
        RootBag(init) + one;
        { SplitBag(init, ids); }
        (a + b) + one;
        { Regroup(a, b, one); }
        (a + if last.id in ids then one else multiset{}) + (b + if stays then one else multiset{});
        { RootBagSnocIf(Select(init, ids), last.id in ids, last); RootBagSnocIf(Staying(init, ids), stays, last); }
        RootBag(Select(segs, ids)) + RootBag(Staying(segs, ids));
      }
    }
  }

  lemma {:induction false} SelectOneMore(segs: seq<SegmentSnapshot>, ids: set<nat>, id: nat)
    requires DistinctIds(segs) && id !in ids
    ensures RootBag(Select(segs, ids + {id})) == RootBag(Select(segs, ids)) + CurrentBag(segs, id)
  {
    if segs != [] {
      var init, last := segs[..|segs| - 1], segs[|segs| - 1];
      var a, b := RootBag(Select(init, ids)), if last.id in ids then SegBag(last) else multiset{};
      SelectOneMore(init, ids, id);
      if last.id == id {
        CurrentIsMember(init, id);
        assert forall s :: s in init ==> s.id != id;
      }
      calc {
        RootBag(Select(segs, ids + {id}));
        { RootBagSnocIf(Select(init, ids + {id}), last.id in ids + {id}, last); }
        RootBag(Select(init, ids + {id})) + if last.id in ids + {id} then SegBag(last) else multiset{};
        (a + CurrentBag(init, id)) + if last.id in ids + {id} then SegBag(last) else multiset{};
        { Regroup(a, CurrentBag(init, id), b); }
        (a + b) + CurrentBag(segs, id);
        { RootBagSnocIf(Select(init, ids), last.id in ids, last); }
        RootBag(Select(segs, ids)) + CurrentBag(segs, id);
      }
    }
  }

  /** The sources of a merge as they are in the present root; gone means empty. */
  function PresentBag(segs: seq<SegmentSnapshot>, sources: seq<SegmentSnapshot>): Bag {
    if sources == [] then multiset{}
    else PresentBag(segs, sources[..|sources| - 1]) + CurrentBag(segs, sources[|sources| - 1].id)
  }

  lemma {:induction false} SelectNone(segs: seq<SegmentSnapshot>)
    ensures Select(segs, {}) == []
  {
    if segs != [] { SelectNone(segs[..|segs| - 1]); }
  }

  lemma {:induction false} PresentBagIsSelected(segs: seq<SegmentSnapshot>, sources: seq<SegmentSnapshot>)
    requires DistinctIds(segs) && DistinctIds(sources)
    ensures PresentBag(segs, sources) == RootBag(Select(segs, Ids(sources)))
  {
    if sources == [] {
      SelectNone(segs);
      assert Ids(sources) == {};
    } else {
      var init, last := sources[..|sources| - 1], sources[|sources| - 1];
      PresentBagIsSelected(segs, init);
      assert last.id !in Ids(init);
      assert Ids(sources) == Ids(init) + {last.id};
      SelectOneMore(segs, Ids(init), last.id);
    }
  }

  lemma LateIsLive(segs: seq<SegmentSnapshot>, planned: SegmentSnapshot)
    requires forall s :: s in segs ==> s.WellFormed()
    requires OlderThan(planned, segs)
    ensures Late(segs, planned.id, planned) <= planned.DocNumbersLive()
  {
    CurrentIsMember(segs, planned.id);
  }

  lemma NewNumberOf(sources: seq<SegmentSnapshot>, i: nat, d: nat)
    requires DistinctIds(sources) && i < |sources| && d in sources[i].DocNumbersLive()
    ensures NewNumber(DocNumsOf(sources), sources[i].id, d) == NewDocNum(sources, i, d)
  {
    DocNumsOfAt(sources, i);
  }

  /** What the introducer masks in the merged segment is, seen from each source,
      exactly what happened to that source since the plan. */
  lemma MaskedIsLate(segs: seq<SegmentSnapshot>, sources: seq<SegmentSnapshot>, empties: set<nat>, oldMap: OldMap,
                     nums: DocNums, merged: Option<seq<Doc>>, i: nat)
    requires PlannedFrom(sources, empties, oldMap, nums, merged) && i < |sources|
    requires Older(sources, segs) && forall s :: s in segs ==> s.WellFormed()
    ensures Masked(sources, i, LateNumbers(segs, oldMap, nums, oldMap.Keys)) == Late(segs, sources[i].id, sources[i])
  {
    var mask := LateNumbers(segs, oldMap, nums, oldMap.Keys);
    var late := Late(segs, sources[i].id, sources[i]);
    forall d | d in Masked(sources, i, mask) ensures d in late {
      var j, e := LateNumberSource(segs, sources, empties, oldMap, nums, merged, NewDocNum(sources, i, d));
      NewDocNumInjective(sources, i, d, j, e);
    }
    forall d | d in late ensures d in Masked(sources, i, mask) {
      assert sources[i] in sources;
      LateIsLive(segs, sources[i]);
      LateNumberOf(segs, sources, empties, oldMap, nums, merged, i, d);
    }
  }

  lemma LateNumberSource(segs: seq<SegmentSnapshot>, sources: seq<SegmentSnapshot>, empties: set<nat>, oldMap: OldMap,
                         nums: DocNums, merged: Option<seq<Doc>>, x: nat) returns (j: nat, e: nat)
    requires PlannedFrom(sources, empties, oldMap, nums, merged)
    requires Older(sources, segs) && forall s :: s in segs ==> s.WellFormed()
    requires x in LateNumbers(segs, oldMap, nums, oldMap.Keys)
    ensures j < |sources| && e in Late(segs, sources[j].id, sources[j]) && e in sources[j].DocNumbersLive()
    ensures x == NewDocNum(sources, j, e)
  {
    OldMapAt(sources);
    var id :| id in oldMap && oldMap[id].Some? && x in NewNumbers(nums, id, Late(segs, id, oldMap[id].value));
    j :| j < |sources| && sources[j].id == id;
    assert oldMap[id] == Some(sources[j]);
    e :| e in Late(segs, id, sources[j]) && NewNumber(nums, id, e) == x;
    LateIsLive(segs, sources[j]);
    NewNumberOf(sources, j, e);
  }

  lemma LateNumberOf(segs: seq<SegmentSnapshot>, sources: seq<SegmentSnapshot>, empties: set<nat>, oldMap: OldMap,
                     nums: DocNums, merged: Option<seq<Doc>>, i: nat, d: nat)
    requires PlannedFrom(sources, empties, oldMap, nums, merged) && i < |sources|
    requires d in Late(segs, sources[i].id, sources[i]) && d in sources[i].DocNumbersLive()
    ensures NewDocNum(sources, i, d) in LateNumbers(segs, oldMap, nums, oldMap.Keys)
  {
    OldMapAt(sources);
    NewNumberOf(sources, i, d);
    var id := sources[i].id;
    assert sources[i] in sources && id in oldMap && oldMap[id] == Some(sources[i]);
    assert NewNumber(nums, id, d) in NewNumbers(nums, id, Late(segs, id, oldMap[id].value));
  }

  lemma {:induction false} AfterMaskIsPresent(segs: seq<SegmentSnapshot>, sources: seq<SegmentSnapshot>, mask: set<nat>)
    requires DistinctIds(segs) && Older(sources, segs)
    requires forall s :: s in segs ==> s.WellFormed()
    requires forall s :: s in sources ==> s.WellFormed()
    requires forall i: nat :: i < |sources| ==> Masked(sources, i, mask) == Late(segs, sources[i].id, sources[i])
    ensures RootBag(AllAfterMask(sources, mask)) == PresentBag(segs, sources)
  {
    hide Late, Masked, MaskedAt, DistinctIds, Older, OlderThan, LiveBag, CurrentBag, AfterMask;
    if sources != [] {
      var n := |sources| - 1;
      var init, last := sources[..n], sources[n];
      var after := AfterMask(sources, n, mask);
      LastSource(segs, sources, mask);
      AllAfterMaskSnoc(sources, mask);
      AfterMaskIsPresent(segs, init, mask);
      RootBagSnoc(AllAfterMask(init, mask), after);
      AfterMaskOne(segs, last, after);
    }
  }

  /** The sources before the last one, and the last one under the mask. */
  lemma LastSource(segs: seq<SegmentSnapshot>, sources: seq<SegmentSnapshot>, mask: set<nat>)
    requires sources != [] && Older(sources, segs) && forall s :: s in sources ==> s.WellFormed()
    requires forall i: nat :: i < |sources| ==> Masked(sources, i, mask) == Late(segs, sources[i].id, sources[i])
    ensures Older(sources[..|sources| - 1], segs) && OlderThan(sources[|sources| - 1], segs)
    ensures forall s :: s in sources[..|sources| - 1] ==> s.WellFormed()
    ensures
      var last := sources[|sources| - 1];
      AfterMask(sources, |sources| - 1, mask) == last.(deleted := last.deleted + Late(segs, last.id, last))
    ensures forall i: nat :: i < |sources| - 1 ==>
      Masked(sources[..|sources| - 1], i, mask) == Late(segs, sources[i].id, sources[i])
  {
    hide Late, OlderThan, Masked;
    AllAfterMaskSnoc(sources, mask);
    var n: nat := |sources| - 1;
    var init := sources[..n];
    assert sources[n] in sources;
    assert Masked(sources, n, mask) == Late(segs, sources[n].id, sources[n]);
    forall s | s in init ensures s in sources && OlderThan(s, segs) && s.WellFormed() { }
    forall i: nat | i < n ensures Masked(init, i, mask) == Late(segs, sources[i].id, sources[i]) {
      assert Masked(init, i, mask) == Masked(sources, i, mask);
    }
  }

  lemma AfterMaskOne(segs: seq<SegmentSnapshot>, planned: SegmentSnapshot, after: SegmentSnapshot)
    requires OlderThan(planned, segs)
    requires forall s :: s in segs ==> s.WellFormed()
    requires after == planned.(deleted := planned.deleted + Late(segs, planned.id, planned))
    ensures SegBag(after) == CurrentBag(segs, planned.id)
  {
    CurrentIsMember(segs, planned.id);
    match Current(segs, planned.id) {
      case Some(now) =>
        assert planned.deleted <= now.deleted;
        assert after.deleted == now.deleted;
      case None =>
        LiveBagAllDeleted(after.docs, after.deleted);
    }
  }

  lemma {:induction false} EmptiesBag(segs: seq<SegmentSnapshot>, ids: set<nat>, empties: set<nat>)
    requires forall s :: s in segs ==> s.WellFormed()
    requires forall s :: s in segs && s.id in empties ==> s.LiveSize() <= 0
    ensures RootBag(Select(segs, ids + empties)) == RootBag(Select(segs, ids))
  {
    if segs != [] {
      var init, last := segs[..|segs| - 1], segs[|segs| - 1];
      assert forall s :: s in init ==> s in segs;
      EmptiesBag(init, ids, empties);
      NothingLive(last);
      RootBagSnoc(Select(init, ids), last);
      RootBagSnoc(Select(init, ids + empties), last);
      assert Select(init, ids) + [] == Select(init, ids);
      assert Select(init, ids + empties) + [] == Select(init, ids + empties);
    }
  }

  /** The mask never counts a document twice, so comparing sizes decides whether
      anything of the merged segment is left. */
  lemma MaskInRange(segs: seq<SegmentSnapshot>, sources: seq<SegmentSnapshot>, empties: set<nat>, oldMap: OldMap,
                    nums: DocNums, merged: Option<seq<Doc>>)
    requires PlannedFrom(sources, empties, oldMap, nums, merged)
    requires Older(sources, segs) && forall s :: s in segs ==> s.WellFormed()
    ensures LateNumbers(segs, oldMap, nums, oldMap.Keys) <= AllDocs(MergedDocs(sources))
  {
    forall x | x in LateNumbers(segs, oldMap, nums, oldMap.Keys) ensures x < |MergedDocs(sources)| {
      var j, d := LateNumberSource(segs, sources, empties, oldMap, nums, merged, x);
      hide LateNumbers, PlannedFrom, Older;
      LiveBeforeMono(sources[j].deleted, d, |sources[j].docs|);
      MergedPrefixSize(sources, j, |sources|);
      assert sources[..|sources|] == sources;
    }
  }

  lemma StayingFacts(segs: seq<SegmentSnapshot>, ids: set<nat>)
    requires DistinctIds(segs)
    ensures DistinctIds(Staying(segs, ids))
    ensures Ids(Staying(segs, ids)) <= Ids(segs) - ids
    ensures forall s :: s in Staying(segs, ids) <==> s in segs && s.id !in ids && s.LiveSize() > 0
  {
    StayingMembers(segs, ids);
    StayingDistinct(segs, ids);
  }

  lemma {:induction false} StayingMembers(segs: seq<SegmentSnapshot>, ids: set<nat>)
    ensures forall s :: s in Staying(segs, ids) <==> s in segs && s.id !in ids && s.LiveSize() > 0
  {
    if segs != [] {
      var init, last := segs[..|segs| - 1], segs[|segs| - 1];
      StayingMembers(init, ids);
      assert segs == init + [last];
    }
  }

  lemma {:induction false} StayingDistinct(segs: seq<SegmentSnapshot>, ids: set<nat>)
    requires DistinctIds(segs)
    ensures DistinctIds(Staying(segs, ids))
    ensures Ids(Staying(segs, ids)) <= Ids(segs) - ids
  {
    if segs == [] {
      assert Ids([]) == {};
    } else {
      var init, last := segs[..|segs| - 1], segs[|segs| - 1];
      DistinctLast(segs);
      DistinctSnocIf(Staying(init, ids), last.id !in ids && last.LiveSize() > 0, last);
      hide DistinctIds, Ids;
      StayingDistinct(init, ids);
    }
  }

  /** Introducing a merge changes no live document, whatever was deleted from its
      sources, and whichever of them disappeared, since it was planned. */
  lemma MergeIntroduced(segs: seq<SegmentSnapshot>, id: nat, sources: seq<SegmentSnapshot>, empties: set<nat>,
                        oldMap: OldMap, nums: DocNums, merged: Option<seq<Doc>>)
    requires DistinctIds(segs) && forall s :: s in segs ==> s.WellFormed()
    requires PlannedFrom(sources, empties, oldMap, nums, merged) && Older(sources, segs)
    requires forall s :: s in segs && s.id in empties ==> s.LiveSize() <= 0
    requires id !in Ids(segs)
    ensures RootBag(MergeRoot(segs, id, oldMap, nums, merged)) == RootBag(segs)
    ensures WellFormedRoot(MergeRoot(segs, id, oldMap, nums, merged))
    ensures Ids(MergeRoot(segs, id, oldMap, nums, merged)) <= Ids(segs) - oldMap.Keys + {id}
  {
    var mask := LateNumbers(segs, oldMap, nums, oldMap.Keys);
    var staying := Staying(segs, oldMap.Keys);
    var docs := MergedDocs(sources);
    var added := SegmentSnapshot(id, docs, true, mask);
    var kept := !MergeSkipped(merged, mask);
    MergedWellFormed(segs, id, sources, empties, oldMap, nums, merged);
    StayingFacts(segs, oldMap.Keys);
    hide LateNumbers, Staying, Select, MergedDocs, DistinctIds, Older, PlannedFrom, LiveBag, AllDocs;
    assert MergeRoot(segs, id, oldMap, nums, merged) == staying + if kept then [added] else [];
    SnocWellFormed(staying, added);
    calc {
      RootBag(staying + if kept then [added] else []);
      { RootBagSnocIf(staying, kept, added); }
      RootBag(staying) + if kept then SegBag(added) else multiset{};
      RootBag(staying) + SegBag(added);
      RootBag(staying) + RootBag(Select(segs, oldMap.Keys));
      { SplitBag(segs, oldMap.Keys); }
      RootBag(segs);
    }
  }

  /** Nothing is left of the selected segments exactly when none of them has live documents. */
  lemma {:induction false} SelectedLive(segs: seq<SegmentSnapshot>, ids: set<nat>)
    requires forall s :: s in segs ==> s.WellFormed()
    ensures RootBag(Select(segs, ids)) == multiset{} <==> forall s :: s in segs && s.id in ids ==> s.LiveSize() <= 0
  {
    hide SegBag;
    if segs != [] {
      var init, last := segs[..|segs| - 1], segs[|segs| - 1];
      assert segs == init + [last];
      SelectedLive(init, ids);
      NothingLive(last);
      RootBagSnocIf(Select(init, ids), last.id in ids, last);
    }
  }

  /** The merged segment as introduced: its numbers are in range, and it is skipped
      exactly when nothing of it is left. */
  lemma MergedWellFormed(segs: seq<SegmentSnapshot>, id: nat, sources: seq<SegmentSnapshot>, empties: set<nat>,
                         oldMap: OldMap, nums: DocNums, merged: Option<seq<Doc>>)
    requires DistinctIds(segs) && forall s :: s in segs ==> s.WellFormed()
    requires PlannedFrom(sources, empties, oldMap, nums, merged) && Older(sources, segs)
    requires forall s :: s in segs && s.id in empties ==> s.LiveSize() <= 0
    ensures
      var added := SegmentSnapshot(id, MergedDocs(sources), true, LateNumbers(segs, oldMap, nums, oldMap.Keys));
      && added.WellFormed()
      && (MergeSkipped(merged, added.deleted) <==> added.LiveSize() <= 0)
      && (!MergeSkipped(merged, added.deleted) ==> merged == Some(added.docs))
      && (added.LiveSize() <= 0 ==> SegBag(added) == multiset{})
      && SegBag(added) == RootBag(Select(segs, oldMap.Keys))
  {
    var mask := LateNumbers(segs, oldMap, nums, oldMap.Keys);
    var added := SegmentSnapshot(id, MergedDocs(sources), true, mask);
    MergedIsPresent(segs, sources, empties, oldMap, nums, merged);
    MaskInRange(segs, sources, empties, oldMap, nums, merged);
    hide LateNumbers, Select, DistinctIds, Older, LiveBag;
    NothingLive(added);
  }

  /** The root after a merge: the other segments that have live documents, and one written
      segment of the sources' documents if and only if any of them is still live. */
  ghost predicate Replaced(segs: seq<SegmentSnapshot>, to: seq<SegmentSnapshot>, id: nat, sources: seq<SegmentSnapshot>) {
    && (forall q :: q in to && q.id != id <==> q in segs && q.id !in Ids(sources) && q.LiveSize() > 0)
    && (forall q :: q in to && q.id == id ==> q.docs == MergedDocs(sources) && q.persisted)
    && (id in Ids(to) <==> exists q :: q in segs && q.id in Ids(sources) && q.LiveSize() > 0)
  }

  lemma MergeReplaces(segs: seq<SegmentSnapshot>, id: nat, sources: seq<SegmentSnapshot>, oldMap: OldMap, nums: DocNums,
                      merged: Option<seq<Doc>>)
    requires DistinctIds(segs) && forall s :: s in segs ==> s.WellFormed()
    requires PlannedFrom(sources, {}, oldMap, nums, merged) && Older(sources, segs) && id !in Ids(segs)
    ensures Replaced(segs, MergeRoot(segs, id, oldMap, nums, merged), id, sources)
    ensures MergeSkipped(merged, LateNumbers(segs, oldMap, nums, oldMap.Keys))
            <==> id !in Ids(MergeRoot(segs, id, oldMap, nums, merged))
  {
    hide Staying, LateNumbers, Select, MergedDocs, DistinctIds, Older, LiveBag, AllDocs, SegmentSnapshot.LiveSize;
    var mask := LateNumbers(segs, oldMap, nums, oldMap.Keys);
    MergedWellFormed(segs, id, sources, {}, oldMap, nums, merged);
    assert oldMap.Keys == Ids(sources) by { OldMapAt(sources); }
    StayingMembers(segs, oldMap.Keys);
    SelectedLive(segs, oldMap.Keys);
    MergedBlank(SegmentSnapshot(id, MergedDocs(sources), true, mask));
    MergeMembers(Staying(segs, oldMap.Keys), !MergeSkipped(merged, mask), SegmentSnapshot(id, MergedDocs(sources), true, mask));
  }

  lemma MergedBlank(added: SegmentSnapshot)
    requires added.WellFormed()
    ensures added.LiveSize() <= 0 <==> SegBag(added) == multiset{}
  {
    NothingLive(added);
  }

  lemma MergeMembers(staying: seq<SegmentSnapshot>, kept: bool, added: SegmentSnapshot)
    ensures forall q :: q in staying + (if kept then [added] else []) <==> q in staying || (kept && q == added)
  {
  }

  lemma MergedIsPresent(segs: seq<SegmentSnapshot>, sources: seq<SegmentSnapshot>, empties: set<nat>,
                        oldMap: OldMap, nums: DocNums, merged: Option<seq<Doc>>)
    requires DistinctIds(segs) && forall s :: s in segs ==> s.WellFormed()
    requires PlannedFrom(sources, empties, oldMap, nums, merged) && Older(sources, segs)
    requires forall s :: s in segs && s.id in empties ==> s.LiveSize() <= 0
    ensures LiveBag(MergedDocs(sources), LateNumbers(segs, oldMap, nums, oldMap.Keys))
         == RootBag(Select(segs, oldMap.Keys))
  {
    var mask := LateNumbers(segs, oldMap, nums, oldMap.Keys);
    forall i: nat | i < |sources|
      ensures Masked(sources, i, mask) == Late(segs, sources[i].id, sources[i])
    {
      MaskedIsLate(segs, sources, empties, oldMap, nums, merged, i);
    }
    calc {
      LiveBag(MergedDocs(sources), mask);
      { MergedBag(sources, mask); }
      RootBag(AllAfterMask(sources, mask));
      { AfterMaskIsPresent(segs, sources, mask); }
      PresentBag(segs, sources);
      { PresentBagIsSelected(segs, sources); }
      RootBag(Select(segs, Ids(sources)));
      { EmptiesBag(segs, Ids(sources), empties); }
      RootBag(Select(segs, Ids(sources) + empties));
      { OldMapAt(sources); assert oldMap.Keys == Ids(sources) + empties; }
      RootBag(Select(segs, oldMap.Keys));
    }
  }

  /** The introducer looks up only numbers that exist. */
  lemma PlannedIsIntroducible(segs: seq<SegmentSnapshot>, sources: seq<SegmentSnapshot>, empties: set<nat>,
                              oldMap: OldMap, nums: DocNums, merged: Option<seq<Doc>>)
    requires PlannedFrom(sources, empties, oldMap, nums, merged) && Older(sources, segs)
    requires forall s :: s in segs ==> s.WellFormed()
    ensures Introducible(segs, oldMap, nums) <==> empties <= Ids(segs)
  {
    OldMapAt(sources);
    forall j: nat | j < |sources|
      ensures sources[j].id in nums && forall d :: d in Late(segs, sources[j].id, sources[j]) ==> d < |nums[sources[j].id]|
    {
      DocNumsOfAt(sources, j);
      LateIsLive(segs, sources[j]);
    }
    if empties <= Ids(segs) {
      forall id | id in oldMap && oldMap[id].Some?
        ensures id in nums && forall d :: d in Late(segs, id, oldMap[id].value) ==> d < |nums[id]|
      {
        var j: nat :| j < |sources| && sources[j].id == id;
      }
    } else {
      var id :| id in empties && id !in Ids(segs);
      assert id in oldMap && oldMap[id] == None;
    }
  }
}
