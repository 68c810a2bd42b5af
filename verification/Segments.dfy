/** Documents, segments and the live contents of a root snapshot.

    A segment is an immutable sequence of documents.  A segment snapshot pairs it
    with the set of document numbers deleted so far.  The bag of live documents is
    what a reader of the snapshot can find. */
module Segments {
  import opened Basics

  datatype Term = Term(field: string, text: string)

  datatype Doc = Doc(terms: set<Term>, stored: string)

  type Bag = multiset<Doc>

  predicate Matches(d: Doc, ids: set<Term>) {
    d.terms * ids != {}
  }

  /** The document numbers a segment reports for a set of identifier terms. */
  function MatchingDocs(docs: seq<Doc>, ids: set<Term>): set<nat> {
    set i: nat | i < |docs| && Matches(docs[i], ids)
  }

  /** The numbers 0 up to n, n excluded. */
  function NumbersBelow(n: nat): (r: set<nat>)
    ensures forall i: nat :: i in r <==> i < n
    ensures |r| == n
  {
    if n == 0 then {} else NumbersBelow(n - 1) + {n - 1}
  }

  function AllDocs(docs: seq<Doc>): set<nat> {
    NumbersBelow(|docs|)
  }

  datatype SegmentSnapshot = SegmentSnapshot(id: nat, docs: seq<Doc>, persisted: bool, deleted: set<nat>)
  {
    predicate WellFormed() {
      deleted <= AllDocs(docs)
    }

    function LiveSize(): int {
      |docs| - |deleted|
    }

    function DocNumbersLive(): set<nat> {
      AllDocs(docs) - deleted
    }
  }

  // ---------------------------------------------------------------- live bags

  function LiveBag(docs: seq<Doc>, deleted: set<nat>): Bag
  {
    if docs == [] then multiset{}
    else
      var n := |docs| - 1;
      if n in deleted then LiveBag(docs[..n], deleted) else LiveBag(docs[..n], deleted) + multiset{docs[n]}
  }

  /** Where a document is, and not deleted. */
  function Places(docs: seq<Doc>, deleted: set<nat>, d: Doc): set<nat> {
    set i: nat | i < |docs| && i !in deleted && docs[i] == d
  }

  lemma PlacesSnoc(init: seq<Doc>, last: Doc, deleted: set<nat>, d: Doc)
    ensures |init| !in Places(init, deleted, d)
    ensures Places(init + [last], deleted, d) ==
      if |init| !in deleted && last == d then Places(init, deleted, d) + {|init|} else Places(init, deleted, d)
  {
  }

  /** Each document counts as often as it is there and not deleted. */
  lemma {:induction false} LiveBagExactly(docs: seq<Doc>, deleted: set<nat>, d: Doc)
    ensures LiveBag(docs, deleted)[d] == |Places(docs, deleted, d)|
  {
    if docs == [] {
      assert Places(docs, deleted, d) == {};
    } else {
      hide Places;
      var init, last := docs[..|docs| - 1], docs[|docs| - 1];
      LiveBagExactly(init, deleted, d);
      PlacesSnoc(init, last, deleted, d);
      assert docs == init + [last];
    }
  }

  function SegBag(s: SegmentSnapshot): Bag {
    LiveBag(s.docs, s.deleted)
  }

  function RootBag(segs: seq<SegmentSnapshot>): Bag {
    if segs == [] then multiset{} else RootBag(segs[..|segs| - 1]) + SegBag(segs[|segs| - 1])
  }

  function Ids(segs: seq<SegmentSnapshot>): set<nat> {
    set s | s in segs :: s.id
  }

  ghost predicate DistinctIds(segs: seq<SegmentSnapshot>) {
    forall i, j :: 0 <= i < j < |segs| ==> segs[i].id != segs[j].id
  }

  /** Distinctness one segment at a time, from the end. */
  lemma DistinctLast(segs: seq<SegmentSnapshot>)
    requires segs != []
    ensures Ids(segs) == Ids(segs[..|segs| - 1]) + {segs[|segs| - 1].id}
    ensures DistinctIds(segs) <==> DistinctIds(segs[..|segs| - 1]) && segs[|segs| - 1].id !in Ids(segs[..|segs| - 1])
  {
    var init, last := segs[..|segs| - 1], segs[|segs| - 1];
    assert segs == init + [last];
    if DistinctIds(init) && last.id !in Ids(init) {
      forall i | 0 <= i < |init| ensures segs[i].id != last.id { assert init[i] in init; }
    }
  }

  lemma DistinctSnocIf(segs: seq<SegmentSnapshot>, c: bool, s: SegmentSnapshot)
    ensures
      var r := segs + if c then [s] else [];
      && Ids(r) == Ids(segs) + (if c then {s.id} else {})
      && (DistinctIds(segs) && (c ==> s.id !in Ids(segs)) ==> DistinctIds(r))
  {
    assert segs + [] == segs;
    DistinctLast(segs + [s]);
    assert (segs + [s])[..|segs|] == segs;
  }

  /** What the writer keeps true of every root: document numbers in range, one
      segment per id, and no segment without a live document. */
  ghost predicate WellFormedRoot(segs: seq<SegmentSnapshot>) {
    && DistinctIds(segs)
    && forall s :: s in segs ==> s.WellFormed() && s.LiveSize() > 0
  }

  lemma LiveBagFrame(docs: seq<Doc>, a: set<nat>, b: set<nat>)
    requires forall i: nat :: i < |docs| ==> (i in a <==> i in b)
    ensures LiveBag(docs, a) == LiveBag(docs, b)
  {
  }

  lemma {:induction false} LiveBagSize(docs: seq<Doc>, deleted: set<nat>)
    requires deleted <= AllDocs(docs)
    ensures |LiveBag(docs, deleted)| == |docs| - |deleted|
  {
    if docs == [] {
      assert AllDocs(docs) == {};
      assert deleted == {};
    } else {
      var n := |docs| - 1;
      LiveBagFrame(docs[..n], deleted, deleted - {n});
      LiveBagSize(docs[..n], deleted - {n});
      assert n in deleted ==> deleted == (deleted - {n}) + {n};
      assert n !in deleted ==> deleted - {n} == deleted;
    }
  }

  lemma {:induction false} LiveBagAllDeleted(docs: seq<Doc>, deleted: set<nat>)
    requires AllDocs(docs) <= deleted
    ensures LiveBag(docs, deleted) == multiset{}
  {
    if docs != [] {
      var n := |docs| - 1;
      assert n in AllDocs(docs);
      assert AllDocs(docs[..n]) <= AllDocs(docs);
      LiveBagAllDeleted(docs[..n], deleted);
    }
  }

  lemma {:induction false} LiveBagNone(docs: seq<Doc>)
    ensures LiveBag(docs, {}) == multiset(docs)
  {
    if docs != [] {
      var n := |docs| - 1;
      LiveBagNone(docs[..n]);
      assert docs == docs[..n] + [docs[n]];
    }
  }

  lemma RootBagSnoc(segs: seq<SegmentSnapshot>, s: SegmentSnapshot)
    ensures RootBag(segs + [s]) == RootBag(segs) + SegBag(s)
  {
    assert (segs + [s])[..|segs|] == segs;
  }

  lemma RootBagSnocIf(segs: seq<SegmentSnapshot>, c: bool, s: SegmentSnapshot)
    ensures RootBag(segs + if c then [s] else []) == RootBag(segs) + if c then SegBag(s) else multiset{}
  {
    RootBagSnoc(segs, s);
    assert segs + [] == segs;
  }

  /** Bag sums may be regrouped. */
  lemma Regroup(a: Bag, b: Bag, c: Bag)
    ensures (a + b) + c == (a + c) + b == a + (b + c)
  {
  }

  // ------------------------------------------------------ the plain bag of documents

  /** The specification of deletion: no document matching an id term is left,
      every other document keeps its multiplicity. */
  ghost function RemoveMatching(b: Bag, ids: set<Term>): (r: Bag)
    ensures forall d :: r[d] == if Matches(d, ids) then 0 else b[d]
    decreases |b|
  {
    if b == multiset{} then multiset{}
    else
      var d :| d in b;
      var rest := RemoveMatching(b[d := 0], ids);
      if Matches(d, ids) then rest else rest[d := b[d]]
  }

  lemma RemoveMatchingSum(a: Bag, b: Bag, ids: set<Term>)
    ensures RemoveMatching(a + b, ids) == RemoveMatching(a, ids) + RemoveMatching(b, ids)
  {
  }

  datatype Batch = Batch(idTerms: set<Term>, docs: seq<Doc>)

  ghost function ApplyBatch(b: Bag, batch: Batch): Bag {
    RemoveMatching(b, batch.idTerms) + multiset(batch.docs)
  }

  ghost function ApplyAll(log: seq<Batch>): Bag {
    if log == [] then multiset{} else ApplyBatch(ApplyAll(log[..|log| - 1]), log[|log| - 1])
  }

  /** Marking the documents that match is deleting them from the bag. */
  lemma {:induction false} LiveBagObsolete(docs: seq<Doc>, deleted: set<nat>, ids: set<Term>)
    ensures LiveBag(docs, deleted + MatchingDocs(docs, ids)) == RemoveMatching(LiveBag(docs, deleted), ids)
  {
    if docs != [] {
      var n := |docs| - 1;
      var pre := docs[..n];
      var after := deleted + MatchingDocs(docs, ids);
      assert LiveBag(pre, after) == RemoveMatching(LiveBag(pre, deleted), ids) by {
        LiveBagFrame(pre, after, deleted + MatchingDocs(pre, ids));
        LiveBagObsolete(pre, deleted, ids);
      }
      if n !in deleted {
        RemoveMatchingSum(LiveBag(pre, deleted), multiset{docs[n]}, ids);
        assert n in after <==> Matches(docs[n], ids);
      }
    }
  }

  // ------------------------------------------------------ merging and renumbering

  /** How many documents below d survive: the number d gets in a merge of this one segment. */
  function LiveBefore(deleted: set<nat>, d: nat): nat {
    if d == 0 then 0 else LiveBefore(deleted, d - 1) + if d - 1 in deleted then 0 else 1
  }

  function Kept(docs: seq<Doc>, deleted: set<nat>): seq<Doc> {
    if docs == [] then []
    else
      var n := |docs| - 1;
      Kept(docs[..n], deleted) + if n in deleted then [] else [docs[n]]
  }

  /** The documents of a merged segment: those of its sources that were live, in order. */
  function MergedDocs(sources: seq<SegmentSnapshot>): seq<Doc> {
    if sources == [] then []
    else
      var n := |sources| - 1;
      MergedDocs(sources[..n]) + Kept(sources[n].docs, sources[n].deleted)
  }

  /** The number document d of the i-th source has in the merged segment. */
  function NewDocNum(sources: seq<SegmentSnapshot>, i: nat, d: nat): nat
    requires i < |sources|
  {
    |MergedDocs(sources[..i])| + LiveBefore(sources[i].deleted, d)
  }

  lemma {:induction false} KeptSize(docs: seq<Doc>, deleted: set<nat>)
    ensures |Kept(docs, deleted)| == LiveBefore(deleted, |docs|)
  {
    if docs != [] { KeptSize(docs[..|docs| - 1], deleted); }
  }

  lemma {:induction false} LiveBeforeMono(deleted: set<nat>, a: nat, b: nat)
    requires a < b
    ensures LiveBefore(deleted, a) <= LiveBefore(deleted, b)
    ensures a !in deleted ==> LiveBefore(deleted, a) < LiveBefore(deleted, b)
    decreases b
  {
    if a < b - 1 { LiveBeforeMono(deleted, a, b - 1); }
  }

  lemma {:induction false} MergedPrefixSize(sources: seq<SegmentSnapshot>, i: nat, j: nat)
    requires i < j <= |sources|
    ensures |MergedDocs(sources[..i])| + LiveBefore(sources[i].deleted, |sources[i].docs|) <= |MergedDocs(sources[..j])|
    decreases j
  {
    assert sources[..j][..j - 1] == sources[..j - 1];
    KeptSize(sources[j - 1].docs, sources[j - 1].deleted);
    if i < j - 1 { MergedPrefixSize(sources, i, j - 1); }
  }

  /** Distinct live documents get distinct numbers, whichever source they come from. */
  lemma NewDocNumInjective(sources: seq<SegmentSnapshot>, i: nat, d: nat, j: nat, e: nat)
    requires i < |sources| && d in sources[i].DocNumbersLive()
    requires j < |sources| && e in sources[j].DocNumbersLive()
    requires NewDocNum(sources, i, d) == NewDocNum(sources, j, e)
    ensures i == j && d == e
  {
    LiveBeforeMono(sources[i].deleted, d, |sources[i].docs|);
    LiveBeforeMono(sources[j].deleted, e, |sources[j].docs|);
    if i < j {
      MergedPrefixSize(sources, i, j);
    } else if j < i {
      MergedPrefixSize(sources, j, i);
    } else if d < e {
      LiveBeforeMono(sources[i].deleted, d, e);
    } else if e < d {
      LiveBeforeMono(sources[i].deleted, e, d);
    }
  }

  /** The live documents of one source whose new number was masked. */
  function MaskedAt(docs: seq<Doc>, deleted: set<nat>, base: nat, mask: set<nat>): set<nat> {
    set d: nat | d < |docs| && d !in deleted && base + LiveBefore(deleted, d) in mask
  }

  function Masked(sources: seq<SegmentSnapshot>, i: nat, mask: set<nat>): set<nat>
    requires i < |sources|
  {
    MaskedAt(sources[i].docs, sources[i].deleted, |MergedDocs(sources[..i])|, mask)
  }

  lemma LiveBagSnoc(docs: seq<Doc>, d: Doc, deleted: set<nat>)
    ensures |docs| in deleted ==> LiveBag(docs + [d], deleted) == LiveBag(docs, deleted)
    ensures |docs| !in deleted ==> LiveBag(docs + [d], deleted) == LiveBag(docs, deleted) + multiset{d}
  {
    assert (docs + [d])[..|docs|] == docs;
  }

  lemma {:induction false} LiveBagKept(pre: seq<Doc>, docs: seq<Doc>, deleted: set<nat>, mask: set<nat>)
    ensures LiveBag(pre + Kept(docs, deleted), mask)
         == LiveBag(pre, mask) + LiveBag(docs, deleted + MaskedAt(docs, deleted, |pre|, mask))
  {
    if docs == [] {
      assert pre + Kept(docs, deleted) == pre;
    } else {
      LiveBagKept(pre, docs[..|docs| - 1], deleted, mask);
      LiveBagKeptStep(pre, docs, deleted, mask);
    }
  }

  lemma LiveBagKeptStep(pre: seq<Doc>, docs: seq<Doc>, deleted: set<nat>, mask: set<nat>)
    requires docs != []
    requires
      var init := docs[..|docs| - 1];
      LiveBag(pre + Kept(init, deleted), mask)
      == LiveBag(pre, mask) + LiveBag(init, deleted + MaskedAt(init, deleted, |pre|, mask))
    ensures LiveBag(pre + Kept(docs, deleted), mask)
         == LiveBag(pre, mask) + LiveBag(docs, deleted + MaskedAt(docs, deleted, |pre|, mask))
  {
    var n := |docs| - 1;
    var gone := deleted + MaskedAt(docs, deleted, |pre|, mask);
    var base, mine := LiveBag(pre, mask), LiveBag(docs[..n], gone);
    KeptInitSum(pre, docs, deleted, mask);
    KeptLastSum(pre, docs, deleted, mask);
    LiveBagLast(docs, gone);
    hide *;
    if n !in gone { Regroup(base, mine, multiset{docs[n]}); }
  }

  lemma LiveBagLast(docs: seq<Doc>, deleted: set<nat>)
    requires docs != []
    ensures
      var n := |docs| - 1;
      && (n in deleted ==> LiveBag(docs, deleted) == LiveBag(docs[..n], deleted))
      && (n !in deleted ==> LiveBag(docs, deleted) == LiveBag(docs[..n], deleted) + multiset{docs[n]})
  {
  }

  lemma KeptInitSum(pre: seq<Doc>, docs: seq<Doc>, deleted: set<nat>, mask: set<nat>)
    requires docs != []
    requires
      var init := docs[..|docs| - 1];
      LiveBag(pre + Kept(init, deleted), mask)
      == LiveBag(pre, mask) + LiveBag(init, deleted + MaskedAt(init, deleted, |pre|, mask))
    ensures
      var init := docs[..|docs| - 1];
      LiveBag(pre + Kept(init, deleted), mask)
      == LiveBag(pre, mask) + LiveBag(init, deleted + MaskedAt(docs, deleted, |pre|, mask))
  {
    var init := docs[..|docs| - 1];
    MaskedAtLast(docs, deleted, |pre|, mask);
    LiveBagFrame(init, deleted + MaskedAt(docs, deleted, |pre|, mask), deleted + MaskedAt(init, deleted, |pre|, mask));
  }

  lemma KeptLastSum(pre: seq<Doc>, docs: seq<Doc>, deleted: set<nat>, mask: set<nat>)
    requires docs != []
    ensures
      var n := |docs| - 1;
      var before, after := LiveBag(pre + Kept(docs[..n], deleted), mask), LiveBag(pre + Kept(docs, deleted), mask);
      var gone := deleted + MaskedAt(docs, deleted, |pre|, mask);
      && (n in gone ==> after == before)
      && (n !in gone ==> after == before + multiset{docs[n]})
  {
    var n := |docs| - 1;
    var kept := Kept(docs[..n], deleted);
    if n in deleted {
      assert Kept(docs, deleted) == kept;
    } else {
      assert n in MaskedAt(docs, deleted, |pre|, mask) <==> |pre + kept| in mask by { KeptSize(docs[..n], deleted); }
      assert Kept(docs, deleted) == kept + [docs[n]];
      hide Kept, LiveBag, MaskedAt;
      Assoc(pre, kept, [docs[n]]);
      LiveBagSnoc(pre + kept, docs[n], mask);
    }
  }

  lemma MaskedAtLast(docs: seq<Doc>, deleted: set<nat>, base: nat, mask: set<nat>)
    requires docs != []
    ensures
      var n := |docs| - 1;
      var gone, goneInit := deleted + MaskedAt(docs, deleted, base, mask), deleted + MaskedAt(docs[..n], deleted, base, mask);
      && (n in gone <==> n in deleted || base + LiveBefore(deleted, n) in mask)
      && forall i: nat :: i < n ==> (i in gone <==> i in goneInit)
  {
  }

  /** A source with the documents masked in the merged segment deleted from it. */
  function AfterMask(sources: seq<SegmentSnapshot>, i: nat, mask: set<nat>): SegmentSnapshot
    requires i < |sources|
  {
    sources[i].(deleted := sources[i].deleted + Masked(sources, i, mask))
  }

  function AllAfterMask(sources: seq<SegmentSnapshot>, mask: set<nat>): seq<SegmentSnapshot> {
    seq(|sources|, i requires 0 <= i < |sources| => AfterMask(sources, i, mask))
  }

  lemma AllAfterMaskSnoc(sources: seq<SegmentSnapshot>, mask: set<nat>)
    requires sources != []
    ensures
      var n := |sources| - 1;
      && AllAfterMask(sources, mask) == AllAfterMask(sources[..n], mask) + [AfterMask(sources, n, mask)]
      && forall i: nat :: i < n ==> Masked(sources[..n], i, mask) == Masked(sources, i, mask)
  {
    var n := |sources| - 1;
    assert forall i: nat :: i < n ==> sources[..i] == sources[..n][..i];
  }

  /** Masking numbers in a merged segment is deleting the corresponding documents in its sources. */
  lemma {:induction false} MergedBag(sources: seq<SegmentSnapshot>, mask: set<nat>)
    ensures LiveBag(MergedDocs(sources), mask) == RootBag(AllAfterMask(sources, mask))
  {
    if sources != [] {
      var n := |sources| - 1;
      var init, after := sources[..n], AfterMask(sources, n, mask);
      calc {
        LiveBag(MergedDocs(sources), mask);
        { LiveBagKept(MergedDocs(init), sources[n].docs, sources[n].deleted, mask); }
        LiveBag(MergedDocs(init), mask) + SegBag(after);
        { MergedBag(init, mask); }
        RootBag(AllAfterMask(init, mask)) + SegBag(after);
        { RootBagSnoc(AllAfterMask(init, mask), after); }
        RootBag(AllAfterMask(init, mask) + [after]);
        { AllAfterMaskSnoc(sources, mask); }
        RootBag(AllAfterMask(sources, mask));
      }
    }
  }

  lemma MergedBagUnmasked(sources: seq<SegmentSnapshot>)
    ensures LiveBag(MergedDocs(sources), {}) == RootBag(sources)
    ensures |MergedDocs(sources)| == |RootBag(sources)|
  {
    MergedBag(sources, {});
    forall i: nat | i < |sources| ensures AfterMask(sources, i, {}) == sources[i] {
      assert Masked(sources, i, {}) == {};
    }
    assert AllAfterMask(sources, {}) == sources;
    assert |LiveBag(MergedDocs(sources), {})| == |MergedDocs(sources)| by { LiveBagSize(MergedDocs(sources), {}); }
  }
}
