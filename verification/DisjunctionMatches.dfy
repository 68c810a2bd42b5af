/** The best matches of a disjunction of terms, found while skipping ranges of documents
    whose summed upper bounds cannot enter the result. */
module DisjunctionMatches {
  import opened Basics
  import opened Impacts
  import opened TermSegments
  import opened PostingsIterators
  import opened TopMatches

  /** Each document's matches, computed from all hits of all terms. */
  type Hits = seq<seq<Hit>>

  type Combine = int -> int

  ghost predicate Monotone(combine: Combine) {
    forall a, b :: a <= b ==> combine(a) <= combine(b)
  }

  // ---------------------------------------------------------------- every document's score

  function Contribution(hits: seq<Hit>, score: Score, n: nat): int {
    if hits == [] then 0
    else
      var last := hits[|hits| - 1];
      if last.number == n then score(last.impact) else Contribution(hits[..|hits| - 1], score, n)
  }

  function Sum(all: Hits, scores: seq<Score>, n: nat): int
    requires |all| == |scores|
  {
    if all == [] then 0
    else
      var k := |all| - 1;
      Sum(all[..k], scores[..k], n) + Contribution(all[k], scores[k], n)
  }

  ghost predicate Occurs(hits: seq<Hit>, n: nat) {
    exists h :: h in hits && h.number == n
  }

  ghost predicate Present(all: Hits, n: nat) {
    exists c :: 0 <= c < |all| && Occurs(all[c], n)
  }

  /** The matches of the documents numbered from one bound to another, in order. */
  ghost function Matches(all: Hits, scores: seq<Score>, combine: Combine, from: nat, limit: nat): seq<Match>
    requires |all| == |scores|
    decreases limit
  {
    if limit <= from then []
    else
      Matches(all, scores, combine, from, limit - 1) +
      if Present(all, limit - 1) then [Match(combine(Sum(all, scores, limit - 1)), limit - 1)] else []
  }

  /** The best of the documents below a bound by ranking all of them. */
  ghost function BestBelow(all: Hits, scores: seq<Score>, combine: Combine, m: nat, size: nat): seq<Match>
    requires |all| == |scores|
  {
    Cap(Ranked(Matches(all, scores, combine, 0, m)), size)
  }

  lemma {:induction false} MatchesSplit(all: Hits, scores: seq<Score>, combine: Combine, m: nat, limit: nat)
    requires |all| == |scores| && m <= limit
    ensures Matches(all, scores, combine, 0, limit) == Matches(all, scores, combine, 0, m) + Matches(all, scores, combine, m, limit)
    decreases limit
  {
    if m == limit {
      assert Matches(all, scores, combine, 0, m) + [] == Matches(all, scores, combine, 0, m);
    } else {
      MatchesSplit(all, scores, combine, m, limit - 1);
      Assoc(Matches(all, scores, combine, 0, m), Matches(all, scores, combine, m, limit - 1),
        if Present(all, limit - 1) then [Match(combine(Sum(all, scores, limit - 1)), limit - 1)] else []);
    }
  }

  lemma {:induction false} MatchesMembers(all: Hits, scores: seq<Score>, combine: Combine, from: nat, limit: nat)
    requires |all| == |scores|
    ensures forall m :: m in Matches(all, scores, combine, from, limit) ==>
      from <= m.number < limit && Present(all, m.number) && m.score == combine(Sum(all, scores, m.number))
    ensures (forall n: nat :: from <= n < limit ==> !Present(all, n)) ==> Matches(all, scores, combine, from, limit) == []
    decreases limit
  {
    hide Sum, Present;
    if limit > from {
      MatchesMembers(all, scores, combine, from, limit - 1);
    }
  }

  lemma {:induction false} MatchesComplete(all: Hits, scores: seq<Score>, combine: Combine, limit: nat)
    requires |all| == |scores|
    ensures |Matches(all, scores, combine, 0, limit)| == Documents(all, limit)
    ensures Apart(Matches(all, scores, combine, 0, limit))
    ensures forall n: nat :: n < limit && Present(all, n) ==>
      Match(combine(Sum(all, scores, n)), n) in Matches(all, scores, combine, 0, limit)
    decreases limit
  {
    hide Sum, Present;
    if limit > 0 {
      MatchesComplete(all, scores, combine, limit - 1);
      MatchesMembers(all, scores, combine, 0, limit - 1);
    }
  }

  /** What ranking every document with a hit gives, said without it. */
  lemma BestOfDocuments(all: Hits, scores: seq<Score>, combine: Combine, limit: nat, size: nat)
    requires |all| == |scores|
    ensures
      var best := BestBelow(all, scores, combine, limit, size);
      && |best| == (if Documents(all, limit) < size then Documents(all, limit) else size)
      && (forall m :: m in best ==> m.number < limit && Present(all, m.number) && m.score == combine(Sum(all, scores, m.number)))
      && (forall i, j :: 0 <= i < j < |best| ==>
            best[i].number != best[j].number
            && (best[i].score > best[j].score || (best[i].score == best[j].score && best[i].number < best[j].number)))
      && (forall n: nat :: n < limit && Present(all, n) && (forall b :: b in best ==> b.number != n) ==>
            && |best| == size
            && forall b :: b in best ==>
                 b.score > combine(Sum(all, scores, n)) || (b.score == combine(Sum(all, scores, n)) && b.number < n))
  {
    hide Ranked, Cap, Sum, Present, Documents;
    var ms, best := Matches(all, scores, combine, 0, limit), BestBelow(all, scores, combine, limit, size);
    MatchesMembers(all, scores, combine, 0, limit);
    MatchesComplete(all, scores, combine, limit);
    TopFacts(ms, size);
  }

  /** Where no term has a hit there is nothing to rank. */
  lemma Gap(all: Hits, scores: seq<Score>, combine: Combine, m: nat, limit: nat, size: nat)
    requires |all| == |scores| && m <= limit && forall n: nat :: m <= n < limit ==> !Present(all, n)
    ensures BestBelow(all, scores, combine, limit, size) == BestBelow(all, scores, combine, m, size)
  {
    hide Sum, Present, Ranked, Cap;
    MatchesSplit(all, scores, combine, m, limit);
    MatchesMembers(all, scores, combine, m, limit);
    assert Matches(all, scores, combine, 0, m) + [] == Matches(all, scores, combine, 0, m);
  }

  /** One more document for the best. */
  lemma OneMoreDocument(all: Hits, scores: seq<Score>, combine: Combine, n: nat, size: nat)
    requires |all| == |scores| && size > 0 && Present(all, n)
    ensures |BestBelow(all, scores, combine, n, size)| <= size
    ensures BestBelow(all, scores, combine, n + 1, size) ==
      Offer(BestBelow(all, scores, combine, n, size), Match(combine(Sum(all, scores, n)), n), size)
  {
    hide Sum, Present, Ranked, Offer, Insert;
    var m := Match(combine(Sum(all, scores, n)), n);
    CapRankedSnoc(Matches(all, scores, combine, 0, n), m, size);
    OfferIsCap(BestBelow(all, scores, combine, n, size), m, size);
  }

  // ---------------------------------------------------------------- bounds

  function SumOf(bounds: seq<int>): int {
    if bounds == [] then 0 else SumOf(bounds[..|bounds| - 1]) + bounds[|bounds| - 1]
  }

  /** No hit of a term in the range scores above its bound. */
  ghost predicate Bounded(hits: seq<Hit>, score: Score, from: nat, limit: nat, bound: int) {
    bound >= 0 && forall h :: h in hits && from <= h.number <= limit ==> score(h.impact) <= bound
  }

  lemma {:induction false} ContributionBounded(hits: seq<Hit>, score: Score, from: nat, limit: nat, bound: int, n: nat)
    requires Bounded(hits, score, from, limit, bound) && from <= n <= limit
    ensures Contribution(hits, score, n) <= bound
  {
    if hits != [] {
      var init, last := hits[..|hits| - 1], hits[|hits| - 1];
      assert last in hits && forall h :: h in init ==> h in hits;
      ContributionBounded(init, score, from, limit, bound, n);
    }
  }

  lemma {:induction false} SumBounded(all: Hits, scores: seq<Score>, from: nat, limit: nat, bounds: seq<int>, n: nat)
    requires |all| == |scores| == |bounds| && from <= n <= limit
    requires forall c :: 0 <= c < |all| ==> Bounded(all[c], scores[c], from, limit, bounds[c])
    ensures Sum(all, scores, n) <= SumOf(bounds)
  {
    hide Bounded, Contribution;
    if all != [] {
      var k := |all| - 1;
      SumBounded(all[..k], scores[..k], from, limit, bounds[..k], n);
      ContributionBounded(all[k], scores[k], from, limit, bounds[k], n);
    }
  }

  /** A range whose summed bounds do not exceed the worst of a full collection holds
      nothing that belongs to the best. */
  lemma SkippedRange(all: Hits, scores: seq<Score>, combine: Combine, from: nat, limit: nat, bounds: seq<int>, size: nat)
    requires |all| == |scores| == |bounds| && Monotone(combine) && size > 0 && from <= limit
    requires forall c :: 0 <= c < |all| ==> Bounded(all[c], scores[c], from, limit, bounds[c])
    requires |BestBelow(all, scores, combine, from, size)| == size
    requires combine(SumOf(bounds)) <= BestBelow(all, scores, combine, from, size)[size - 1].score
    ensures BestBelow(all, scores, combine, limit + 1, size) == BestBelow(all, scores, combine, from, size)
  {
    hide Bounded, Sum, SumOf, Present, Ranked, Matches;
    var seen, more := Matches(all, scores, combine, 0, from), Matches(all, scores, combine, from, limit + 1);
    var worst := BestBelow(all, scores, combine, from, size)[size - 1];
    MatchesSplit(all, scores, combine, from, limit + 1);
    MatchesMembers(all, scores, combine, 0, from);
    MatchesMembers(all, scores, combine, from, limit + 1);
    WorstIsSeen(seen, size);
    forall m | m in more ensures !Better(m, worst) {
      SumBounded(all, scores, from, limit, bounds, m.number);
    }
    CapRankedSkips(seen, more, size);
  }

  // ---------------------------------------------------------------- one term's cursor

  /** A term's cursor between rounds: either its posting is the first hit at or after the
      target, or it must move before it is used. */
  ghost predicate Ready(reader: PostingsIterator, hits: seq<Hit>, i: nat, target: nat, posting: Option<Hit>)
    reads reader
  {
    && reader.Valid() && reader.All() == hits && reader.shallowed <= target && reader.segments != []
    && (if posting.Some? && posting.value.number >= target then Held(reader, hits, i, target, posting) else reader.floor <= target)
  }

  /** The cursor's posting is the i-th hit, the first at or after the target. */
  ghost predicate Held(reader: PostingsIterator, hits: seq<Hit>, i: nat, target: nat, posting: Option<Hit>)
    reads reader
    requires reader.Valid()
  {
    && posting.Some? && reader.current == posting && reader.Here() && reader.Entered() <= target
    && CutAt(hits, target, i) && i < |hits| && posting.value == hits[i] && reader.Remaining() == hits[i + 1..]
    && reader.floor <= hits[i].number + 1
  }

  /** A cursor in a round: its posting is the first hit at or after m, if there is one. */
  ghost predicate Placed(reader: PostingsIterator, hits: seq<Hit>, i: nat, low: nat, m: nat, posting: Option<Hit>)
    reads reader
  {
    && reader.Valid() && reader.All() == hits && reader.shallowed <= low <= m && reader.segments != []
    && CutAt(hits, m, i)
    && (if posting.None? then i == |hits| && reader.floor <= m else HeldAt(reader, hits, i, low, posting.value))
  }

  ghost predicate HeldAt(reader: PostingsIterator, hits: seq<Hit>, i: nat, low: nat, h: Hit)
    reads reader
    requires reader.Valid()
  {
    && reader.current == Some(h) && reader.Here() && reader.Entered() <= low
    && i < |hits| && h == hits[i] && reader.Remaining() == hits[i + 1..]
    && reader.floor <= h.number + 1
  }

  /** A shallow advance leaves the cursor ready and bounds the term's hits up to its end. */
  method ShallowOne(reader: PostingsIterator, score: Score, target: UInt64, posting: Option<Hit>, ghost hits: seq<Hit>, ghost i: nat)
    returns (a: Answer)
    requires Ready(reader, hits, i, target, posting) && ImpactsSomewhere(reader.segments) && Rising(score)
    modifies reader
    ensures Ready(reader, hits, i, target, posting) && !a.Failure?
    ensures a.Nothing? ==> forall h :: h in hits ==> h.number < target
    ensures a.Reach? ==> target <= a.end && a.end + 1 < UINT64_SIZE
    ensures a.Reach? && a.impacts != [] ==> Bounded(hits, score, target, a.end, UpperBound(a.impacts, score))
  {
    hide PostingsIterator.Valid, PostingsIterator.Here, PostingsIterator.Remaining, SoundAt, Covered, CutAt;
    a := reader.AdvanceShallow(target);
    reader.SizeFits();
    AnswerOnHits(reader.segments, reader.offsets, target, a);
    if a.Reach? && a.impacts != [] { CoveredIsBounded(hits, score, target, a); }
  }

  lemma CoveredIsBounded(hits: seq<Hit>, score: Score, target: nat, a: Answer)
    requires a.Reach? && Rising(score)
    requires forall h :: h in hits && target <= h.number <= a.end ==> Covered(a.impacts, h.impact)
    ensures Bounded(hits, score, target, a.end, UpperBound(a.impacts, score))
  {
    hide Covered;
    UpperBoundNotNegative(a.impacts, score);
    forall h | h in hits && target <= h.number <= a.end ensures score(h.impact) <= UpperBound(a.impacts, score) {
      UpperBoundCovers(a.impacts, score, h.impact);
    }
  }

  lemma {:induction false} UpperBoundNotNegative(impacts: seq<Impact>, score: Score)
    ensures UpperBound(impacts, score) >= 0
  {
    if impacts != [] { UpperBoundNotNegative(impacts[..|impacts| - 1], score); }
  }

  /** Moves a cursor to the first hit at or after the target, if it is not there yet. */
  method PlaceOne(reader: PostingsIterator, target: nat, posting: Option<Hit>, ghost hits: seq<Hit>, ghost i: nat)
    returns (placed: Option<Hit>, ghost j: nat)
    requires Ready(reader, hits, i, target, posting) && Numbered(hits)
    modifies reader
    ensures Placed(reader, hits, j, target, target, placed)
  {
    hide PostingsIterator.Valid, PostingsIterator.Here, PostingsIterator.Remaining, PostingsIterator.Entered, Numbered;
    placed, j := posting, i;
    if posting.None? || posting.value.number < target {
      j := Passing(hits, target, 0);
      placed := reader.Advance(target);
      if placed.Some? { assert hits[j..][1..] == hits[j + 1..] && hits[j..][0] == hits[j]; }
    }
  }

  /** Moves a cursor past a candidate it stands on. */
  method PassOne(reader: PostingsIterator, ghost low: nat, candidate: nat, posting: Option<Hit>, ghost hits: seq<Hit>, ghost i: nat, ghost m: nat)
    returns (next: Option<Hit>, ghost j: nat)
    requires Placed(reader, hits, i, low, m, posting) && Numbered(hits) && m <= candidate
    requires posting.Some? ==> posting.value.number >= candidate
    modifies reader
    ensures Placed(reader, hits, j, low, candidate + 1, next)
  {
    hide PostingsIterator.Valid, PostingsIterator.Here, PostingsIterator.Remaining, CutAt, Numbered;
    next, j := posting, i;
    if posting.Some? && posting.value.number == candidate {
      next := reader.Next();
      j := i + 1;
      if next.Some? { assert hits[i + 1..][1..] == hits[j + 1..] && hits[i + 1..][0] == hits[j]; }
      PassCut(hits, i, m, candidate, j);
    } else {
      PassCut(hits, i, m, candidate, j);
    }
  }

  lemma PassCut(hits: seq<Hit>, i: nat, m: nat, candidate: nat, j: nat)
    requires CutAt(hits, m, i) && m <= candidate && Numbered(hits)
    requires if i < |hits| && hits[i].number == candidate then j == i + 1 else j == i && (i < |hits| ==> hits[i].number > candidate)
    ensures CutAt(hits, candidate + 1, j)
  {
    if j < |hits| && j == i + 1 { InOrder(hits, i, j); }
    CutThere(hits, candidate + 1, j);
  }

  /** The cursor of a round is ready for the next one. */
  lemma ReadyAgain(reader: PostingsIterator, hits: seq<Hit>, i: nat, low: nat, m: nat, posting: Option<Hit>)
    requires Placed(reader, hits, i, low, m, posting) && low <= m
    requires posting.Some? ==> posting.value.number >= m
    ensures Ready(reader, hits, i, m, posting)
  {
    hide PostingsIterator.Valid, PostingsIterator.Here, PostingsIterator.Remaining;
  }

  /** A ready cursor stays ready when a range is skipped. */
  lemma ReadyLater(reader: PostingsIterator, hits: seq<Hit>, i: nat, target: nat, later: nat, posting: Option<Hit>)
    requires Ready(reader, hits, i, target, posting) && target <= later && Numbered(hits)
    ensures Ready(reader, hits, i, later, posting)
  {
    hide PostingsIterator.Valid, PostingsIterator.Here, PostingsIterator.Remaining;
    if posting.Some? && posting.value.number >= later { CutThere(hits, later, i); }
  }

  // ---------------------------------------------------------------- all terms together

  datatype Term = Term(reader: PostingsIterator, score: Score)

  ghost predicate OwnReaders(terms: seq<Term>) {
    forall i, j :: 0 <= i < j < |terms| ==> terms[i].reader != terms[j].reader
  }

  ghost function Readers(terms: seq<Term>): set<PostingsIterator> {
    set t | t in terms :: t.reader
  }

  function ScoresOf(terms: seq<Term>): (r: seq<Score>)
    ensures |r| == |terms| && forall c :: 0 <= c < |terms| ==> r[c] == terms[c].score
  {
    if terms == [] then [] else ScoresOf(terms[..|terms| - 1]) + [terms[|terms| - 1].score]
  }

  /** What stays fixed during a search. */
  ghost predicate Searchable(terms: seq<Term>, all: Hits) {
    && |all| == |terms| && OwnReaders(terms)
    && forall c :: 0 <= c < |terms| ==>
         ImpactsSomewhere(terms[c].reader.segments) && Rising(terms[c].score) && Numbered(all[c])
  }

  ghost predicate Done(hits: seq<Hit>, target: nat) {
    forall h :: h in hits ==> h.number < target
  }

  /** Cursors that are still searched are ready; the others have no hit left. */
  ghost predicate AllReady(terms: seq<Term>, all: Hits, idx: seq<nat>, target: nat, postings: seq<Option<Hit>>, live: seq<bool>)
    reads Readers(terms)
  {
    && |terms| == |all| == |idx| == |postings| == |live|
    && forall c :: 0 <= c < |terms| ==>
         if live[c] then ReadyIn(terms, c, all[c], idx[c], target, postings[c]) else Done(all[c], target)
  }

  ghost predicate ReadyIn(terms: seq<Term>, c: nat, hits: seq<Hit>, i: nat, target: nat, posting: Option<Hit>)
    requires c < |terms|
    reads Readers(terms)
  {
    assert terms[c] in terms;
    Ready(terms[c].reader, hits, i, target, posting)
  }

  ghost predicate PlacedIn(terms: seq<Term>, c: nat, hits: seq<Hit>, i: nat, low: nat, m: nat, posting: Option<Hit>)
    requires c < |terms|
    reads Readers(terms)
  {
    assert terms[c] in terms;
    Placed(terms[c].reader, hits, i, low, m, posting)
  }

  /** Looks at every cursor's block for the target: which terms still have hits, how far
      the blocks reach together, and what their hits can score at most. */
  method ShallowAll(terms: seq<Term>, target: UInt64, postings: seq<Option<Hit>>, before: seq<bool>,
                    ghost all: Hits, ghost idx: seq<nat>)
    returns (live: seq<bool>, rangeEnd: UInt64, upper: int, unbounded: bool, ghost bounds: seq<int>)
    requires Searchable(terms, all) && AllReady(terms, all, idx, target, postings, before)
    modifies Readers(terms)
    ensures AllReady(terms, all, idx, target, postings, live)
    ensures (exists c :: 0 <= c < |live| && live[c]) ==> target <= rangeEnd < UINT64_SIZE - 1
    ensures |bounds| == |terms| && upper == SumOf(bounds)
    ensures !unbounded ==> forall c :: 0 <= c < |terms| ==> Bounded(all[c], terms[c].score, target, rangeEnd, bounds[c])
  {
    hide Ready, Bounded, SumOf, Done, Rising, Numbered, ImpactsSomewhere;
    live, rangeEnd, upper, unbounded, bounds := before, UINT64_SIZE - 1, 0, false, [];
    NoBounds();
    for c := 0 to |terms|
      invariant |live| == |terms| == |before|
      invariant forall d :: c <= d < |terms| ==> live[d] == before[d]
      invariant AllReady(terms, all, idx, target, postings, live)
      invariant |bounds| == c && upper == SumOf(bounds)
      invariant (exists d :: 0 <= d < c && live[d]) ==> target <= rangeEnd < UINT64_SIZE - 1
      invariant target <= rangeEnd
      invariant !unbounded ==> forall d :: 0 <= d < c ==> Bounded(all[d], terms[d].score, target, rangeEnd, bounds[d])
    {
      var bound := 0;
      assert terms[c] in terms;
      if before[c] {
        assert ReadyIn(terms, c, all[c], idx[c], target, postings[c]);
        var a := ShallowOne(terms[c].reader, terms[c].score, target, postings[c], all[c], idx[c]);
        if a.Reach? {
          ghost var wider := rangeEnd;
          if a.end < rangeEnd {
            rangeEnd := a.end;
          }
          if a.impacts == [] {
            unbounded := true;
          } else {
            bound := UpperBound(a.impacts, terms[c].score);
            Narrower(all[c], terms[c].score, target, a.end, rangeEnd, bound);
          }
          if !unbounded {
            forall d | 0 <= d < c ensures Bounded(all[d], terms[d].score, target, rangeEnd, bounds[d]) {
              Narrower(all[d], terms[d].score, target, wider, rangeEnd, bounds[d]);
            }
          }
        } else {
          live := live[c := false];
          DoneIs(all[c], target);
          DoneIsBounded(all[c], terms[c].score, target, rangeEnd);
        }
      } else {
        DoneIsBounded(all[c], terms[c].score, target, rangeEnd);
      }
      upper := upper + bound;
      SumOfSnoc(bounds, bound);
      bounds := bounds + [bound];
    }
  }

  lemma NoBounds()
    ensures SumOf([]) == 0
  {
  }

  lemma SumOfSnoc(bounds: seq<int>, bound: int)
    ensures SumOf(bounds + [bound]) == SumOf(bounds) + bound
  {
    assert (bounds + [bound])[..|bounds|] == bounds;
  }

  lemma Narrower(hits: seq<Hit>, score: Score, from: nat, wide: nat, narrow: nat, bound: int)
    requires narrow <= wide
    ensures Bounded(hits, score, from, wide, bound) ==> Bounded(hits, score, from, narrow, bound)
  {
  }

  lemma DoneIs(hits: seq<Hit>, target: nat)
    requires forall h :: h in hits ==> h.number < target
    ensures Done(hits, target)
  {
  }

  lemma DoneIsBounded(hits: seq<Hit>, score: Score, target: nat, limit: nat)
    requires Done(hits, target)
    ensures Bounded(hits, score, target, limit, 0)
  {
  }

  /** In a round every searched cursor stands on its first hit at or after m. */
  ghost predicate AllPlaced(terms: seq<Term>, all: Hits, idx: seq<nat>, low: nat, m: nat, postings: seq<Option<Hit>>, live: seq<bool>)
    reads Readers(terms)
  {
    && |terms| == |all| == |idx| == |postings| == |live|
    && forall c :: 0 <= c < |terms| ==>
         if live[c] then PlacedIn(terms, c, all[c], idx[c], low, m, postings[c]) else Done(all[c], low)
  }

  method PlaceAll(terms: seq<Term>, target: UInt64, before: seq<Option<Hit>>, live: seq<bool>, ghost all: Hits, ghost was: seq<nat>)
    returns (postings: seq<Option<Hit>>, ghost idx: seq<nat>)
    requires Searchable(terms, all) && AllReady(terms, all, was, target, before, live)
    modifies Readers(terms)
    ensures AllPlaced(terms, all, idx, target, target, postings, live)
  {
    hide Ready, Placed, Done, Rising, Numbered, ImpactsSomewhere;
    postings, idx := before, was;
    for c := 0 to |terms|
      invariant |postings| == |idx| == |terms| == |live| == |all|
      invariant forall d :: c <= d < |terms| ==> postings[d] == before[d] && idx[d] == was[d]
      invariant forall d :: 0 <= d < c ==>
        if live[d] then PlacedIn(terms, d, all[d], idx[d], target, target, postings[d]) else Done(all[d], target)
      invariant forall d :: c <= d < |terms| ==>
        if live[d] then ReadyIn(terms, d, all[d], idx[d], target, postings[d]) else Done(all[d], target)
    {
      assert terms[c] in terms;
      if live[c] {
        assert ReadyIn(terms, c, all[c], idx[c], target, postings[c]);
        var placed;
        ghost var j;
        placed, j := PlaceOne(terms[c].reader, target, postings[c], all[c], idx[c]);
        postings, idx := postings[c := placed], idx[c := j];
      }
    }
  }

  /** The lowest posting of the round that is not beyond its end. */
  method Candidate(postings: seq<Option<Hit>>, live: seq<bool>, rangeEnd: UInt64) returns (candidate: nat)
    requires |postings| == |live| && rangeEnd < UINT64_SIZE - 1
    ensures candidate == UINT64_SIZE - 1 || candidate <= rangeEnd
    ensures candidate != UINT64_SIZE - 1 ==>
      exists c :: 0 <= c < |live| && live[c] && postings[c].Some? && postings[c].value.number == candidate
    ensures forall c :: 0 <= c < |live| && live[c] && postings[c].Some? && postings[c].value.number <= rangeEnd ==>
      candidate <= postings[c].value.number
  {
    candidate := UINT64_SIZE - 1;
    for c := 0 to |live|
      invariant candidate == UINT64_SIZE - 1 || candidate <= rangeEnd
      invariant candidate != UINT64_SIZE - 1 ==>
        exists d :: 0 <= d < c && live[d] && postings[d].Some? && postings[d].value.number == candidate
      invariant forall d :: 0 <= d < c && live[d] && postings[d].Some? && postings[d].value.number <= rangeEnd ==>
        candidate <= postings[d].value.number
    {
      if live[c] && postings[c].Some? && postings[c].value.number <= rangeEnd && postings[c].value.number < candidate {
        candidate := postings[c].value.number;
      }
    }
  }

  /** What a cursor's place says about its term at a number not before it. */
  lemma PlaceTells(reader: PostingsIterator, hits: seq<Hit>, i: nat, low: nat, m: nat, posting: Option<Hit>, score: Score, n: nat)
    requires Placed(reader, hits, i, low, m, posting) && m <= n && (posting.Some? ==> n <= posting.value.number) && Numbered(hits)
    ensures Contribution(hits, score, n) == if posting.Some? && posting.value.number == n then score(posting.value.impact) else 0
    ensures Occurs(hits, n) <==> posting.Some? && posting.value.number == n
    ensures posting.Some? ==> posting.value.number >= m
  {
    hide PostingsIterator.Valid, PostingsIterator.Here, PostingsIterator.Remaining;
    if posting.Some? && posting.value.number == n {
      ContributionAt(hits, score, i, n);
      assert hits[i] in hits;
    } else {
      forall k | 0 <= k < |hits| ensures hits[k].number != n {
        if posting.Some? && k > i { InOrder(hits, i, k); }
      }
      NoContribution(hits, score, n);
    }
  }

  lemma {:induction false} ContributionAt(hits: seq<Hit>, score: Score, i: nat, n: nat)
    requires Numbered(hits) && i < |hits| && hits[i].number == n
    ensures Contribution(hits, score, n) == score(hits[i].impact)
  {
    if i < |hits| - 1 {
      InOrder(hits, i, |hits| - 1);
      ContributionAt(hits[..|hits| - 1], score, i, n);
    }
  }

  lemma {:induction false} NoContribution(hits: seq<Hit>, score: Score, n: nat)
    requires forall k :: 0 <= k < |hits| ==> hits[k].number != n
    ensures Contribution(hits, score, n) == 0 && !Occurs(hits, n)
  {
    if hits != [] {
      var init := hits[..|hits| - 1];
      assert forall k :: 0 <= k < |init| ==> init[k] == hits[k];
      NoContribution(init, score, n);
      forall h | h in hits ensures h.number != n { var k :| 0 <= k < |hits| && hits[k] == h; }
    }
  }

  lemma DoneTells(hits: seq<Hit>, score: Score, low: nat, n: nat)
    requires Done(hits, low) && low <= n
    ensures Contribution(hits, score, n) == 0 && !Occurs(hits, n)
  {
    forall k | 0 <= k < |hits| ensures hits[k].number != n { assert hits[k] in hits; }
    NoContribution(hits, score, n);
  }

  lemma SumSnoc(all: Hits, scores: seq<Score>, c: nat, n: nat)
    requires |all| == |scores| && c < |all|
    ensures Sum(all[..c + 1], scores[..c + 1], n) == Sum(all[..c], scores[..c], n) + Contribution(all[c], scores[c], n)
    ensures all[..|all|] == all && scores[..|scores|] == scores
  {
    assert all[..c + 1][..c] == all[..c] && scores[..c + 1][..c] == scores[..c];
  }

  /** The candidate's score over all terms, and every cursor moved past it. */
  method ScoreCandidate(terms: seq<Term>, candidate: nat, before: seq<Option<Hit>>, live: seq<bool>,
                        ghost all: Hits, ghost was: seq<nat>, ghost low: nat, ghost m: nat)
    returns (sum: int, postings: seq<Option<Hit>>, ghost idx: seq<nat>)
    requires Searchable(terms, all) && AllPlaced(terms, all, was, low, m, before, live) && low <= m <= candidate
    requires forall c :: 0 <= c < |terms| && live[c] && before[c].Some? ==> candidate <= before[c].value.number
    modifies Readers(terms)
    ensures sum == Sum(all, ScoresOf(terms), candidate)
    ensures AllPlaced(terms, all, idx, low, candidate + 1, postings, live)
    ensures Present(all, candidate) <==>
      exists c :: 0 <= c < |terms| && live[c] && before[c].Some? && before[c].value.number == candidate
  {
    hide Ready, Placed, Done, Rising, Numbered, ImpactsSomewhere, Contribution, Sum, Occurs;
    ghost var scores := ScoresOf(terms);
    sum, postings, idx := 0, before, was;
    NothingSums(candidate);
    for c := 0 to |terms|
      invariant |postings| == |idx| == |terms| == |live| == |all| == |before|
      invariant forall d :: c <= d < |terms| ==> postings[d] == before[d] && idx[d] == was[d]
      invariant sum == Sum(all[..c], scores[..c], candidate)
      invariant forall d :: 0 <= d < c ==>
        if live[d] then PlacedIn(terms, d, all[d], idx[d], low, candidate + 1, postings[d]) else Done(all[d], low)
      invariant forall d :: c <= d < |terms| ==>
        if live[d] then PlacedIn(terms, d, all[d], idx[d], low, m, postings[d]) else Done(all[d], low)
      invariant forall d :: 0 <= d < c ==>
        (Occurs(all[d], candidate) <==> live[d] && before[d].Some? && before[d].value.number == candidate)
    {
      assert terms[c] in terms;
      SumSnoc(all, scores, c, candidate);
      if live[c] {
        assert PlacedIn(terms, c, all[c], idx[c], low, m, postings[c]);
        PlaceTells(terms[c].reader, all[c], idx[c], low, m, postings[c], terms[c].score, candidate);
        if postings[c].Some? && postings[c].value.number == candidate {
          sum := sum + terms[c].score(postings[c].value.impact);
        }
        var next;
        ghost var j;
        next, j := PassOne(terms[c].reader, low, candidate, postings[c], all[c], idx[c], m);
        postings, idx := postings[c := next], idx[c := j];
      } else {
        DoneTells(all[c], terms[c].score, low, candidate);
      }
    }
    assert all[..|all|] == all && scores[..|scores|] == scores;
  }

  lemma NothingSums(n: nat)
    ensures Sum([], [], n) == 0
  {
  }

  /** Numbers before every cursor's posting are in no term. */
  lemma NonePresent(terms: seq<Term>, all: Hits, idx: seq<nat>, low: nat, m: nat, postings: seq<Option<Hit>>, live: seq<bool>, limit: nat)
    requires Searchable(terms, all) && AllPlaced(terms, all, idx, low, m, postings, live) && low <= m
    requires forall c :: 0 <= c < |terms| && live[c] && postings[c].Some? ==> limit <= postings[c].value.number
    ensures forall n: nat :: m <= n < limit ==> !Present(all, n)
  {
    hide Placed, Done, Numbered, Occurs, Contribution;
    forall n: nat, c | m <= n < limit && 0 <= c < |all| ensures !Occurs(all[c], n) {
      assert terms[c] in terms;
      if live[c] {
        assert PlacedIn(terms, c, all[c], idx[c], low, m, postings[c]);
        PlaceTells(terms[c].reader, all[c], idx[c], low, m, postings[c], terms[c].score, n);
      } else {
        DoneTells(all[c], terms[c].score, low, n);
      }
    }
  }

  /** A cursor whose posting is not before a later bound is placed for it. */
  lemma PlacedLater(reader: PostingsIterator, hits: seq<Hit>, i: nat, low: nat, m: nat, later: nat, posting: Option<Hit>)
    requires Placed(reader, hits, i, low, m, posting) && m <= later && Numbered(hits)
    requires posting.Some? ==> later <= posting.value.number
    ensures Placed(reader, hits, i, low, later, posting)
  {
    hide PostingsIterator.Valid, PostingsIterator.Here, PostingsIterator.Remaining;
    CutThere(hits, later, i);
  }

  lemma DoneLater(hits: seq<Hit>, target: nat, later: nat)
    requires Done(hits, target) && target <= later
    ensures Done(hits, later)
  {
  }

  /** After a round every cursor is ready for the next target. */
  lemma AllReadyAgain(terms: seq<Term>, all: Hits, idx: seq<nat>, low: nat, m: nat, later: nat, postings: seq<Option<Hit>>, live: seq<bool>)
    requires Searchable(terms, all) && AllPlaced(terms, all, idx, low, m, postings, live) && low <= m <= later
    requires forall c :: 0 <= c < |terms| && live[c] && postings[c].Some? ==> later <= postings[c].value.number
    ensures AllReady(terms, all, idx, later, postings, live)
  {
    hide Placed, Ready, Done, Numbered;
    forall c | 0 <= c < |terms|
      ensures if live[c] then ReadyIn(terms, c, all[c], idx[c], later, postings[c]) else Done(all[c], later)
    {
      assert terms[c] in terms;
      if live[c] {
        assert PlacedIn(terms, c, all[c], idx[c], low, m, postings[c]);
        PlacedLater(terms[c].reader, all[c], idx[c], low, m, later, postings[c]);
        ReadyAgain(terms[c].reader, all[c], idx[c], low, later, postings[c]);
      } else {
        DoneLater(all[c], low, later);
      }
    }
  }

  lemma AllReadyLater(terms: seq<Term>, all: Hits, idx: seq<nat>, target: nat, later: nat, postings: seq<Option<Hit>>, live: seq<bool>)
    requires Searchable(terms, all) && AllReady(terms, all, idx, target, postings, live) && target <= later
    ensures AllReady(terms, all, idx, later, postings, live)
  {
    hide Ready, Done, Numbered;
    forall c | 0 <= c < |terms|
      ensures if live[c] then ReadyIn(terms, c, all[c], idx[c], later, postings[c]) else Done(all[c], later)
    {
      assert terms[c] in terms;
      if live[c] {
        assert ReadyIn(terms, c, all[c], idx[c], target, postings[c]);
        ReadyLater(terms[c].reader, all[c], idx[c], target, later, postings[c]);
      } else {
        DoneLater(all[c], target, later);
      }
    }
  }

  lemma NotBeforeRound(terms: seq<Term>, all: Hits, idx: seq<nat>, low: nat, m: nat, postings: seq<Option<Hit>>, live: seq<bool>, c: nat)
    requires Searchable(terms, all) && AllPlaced(terms, all, idx, low, m, postings, live)
    requires c < |terms| && live[c] && postings[c].Some?
    ensures m <= postings[c].value.number
  {
    hide PostingsIterator.Valid, PostingsIterator.Here, PostingsIterator.Remaining;
    assert terms[c] in terms;
    assert PlacedIn(terms, c, all[c], idx[c], low, m, postings[c]);
  }

  /** The number of documents below m that some term hits. */
  ghost function Documents(all: Hits, m: nat): nat {
    if m == 0 then 0 else Documents(all, m - 1) + if Present(all, m - 1) then 1 else 0
  }

  lemma {:induction false} DocumentsGrow(all: Hits, m: nat, n: nat)
    requires m <= n
    ensures Documents(all, m) <= Documents(all, n)
    decreases n
  {
    if m < n { DocumentsGrow(all, m, n - 1); }
  }

  /** The hits of all terms. */
  ghost function TotalHits(all: Hits): nat {
    if all == [] then 0 else TotalHits(all[..|all| - 1]) + |all[|all| - 1]|
  }

  /** Scores every document from the target to the end of a range. */
  method ScoreRange(terms: seq<Term>, combine: Combine, size: nat, rangeEnd: UInt64, before: seq<Option<Hit>>, live: seq<bool>,
                    start: seq<Match>, ghost all: Hits, ghost was: seq<nat>, ghost target: nat)
    returns (best: seq<Match>, postings: seq<Option<Hit>>, scored: nat, ghost idx: seq<nat>)
    requires Searchable(terms, all) && size > 0 && target <= rangeEnd < UINT64_SIZE - 1
    requires AllPlaced(terms, all, was, target, target, before, live)
    requires start == BestBelow(all, ScoresOf(terms), combine, target, size)
    modifies Readers(terms)
    ensures best == BestBelow(all, ScoresOf(terms), combine, rangeEnd + 1, size)
    ensures AllReady(terms, all, idx, rangeEnd + 1, postings, live)
    ensures scored + Documents(all, target) == Documents(all, rangeEnd + 1)
  {
    hide AllPlaced, AllReady, Searchable, BestBelow, Present, Sum;
    best, postings, scored, idx := start, before, 0, was;
    ghost var m := target;
    AllPlacedSizes(terms, all, idx, target, m, postings, live);
    while true
      invariant target <= m <= rangeEnd + 1
      invariant AllPlaced(terms, all, idx, target, m, postings, live)
      invariant |postings| == |live| == |terms| == |all|
      invariant best == BestBelow(all, ScoresOf(terms), combine, m, size)
      invariant scored + Documents(all, target) == Documents(all, m)
      decreases rangeEnd + 1 - m
    {
      var candidate := Candidate(postings, live, rangeEnd);
      if candidate == UINT64_SIZE - 1 {
        NonePresent(terms, all, idx, target, m, postings, live, rangeEnd + 1);
        Gap(all, ScoresOf(terms), combine, m, rangeEnd + 1, size);
        NoDocuments(all, m, rangeEnd + 1);
        AllReadyAgain(terms, all, idx, target, m, rangeEnd + 1, postings, live);
        return;
      }
      ghost var c: nat :| c < |live| && live[c] && postings[c].Some? && postings[c].value.number == candidate;
      NotBeforeRound(terms, all, idx, target, m, postings, live, c);
      NotBeyond(postings, live, candidate, rangeEnd);
      NonePresent(terms, all, idx, target, m, postings, live, candidate);
      Gap(all, ScoresOf(terms), combine, m, candidate, size);
      NoDocuments(all, m, candidate);
      IsDocument(terms, all, idx, target, m, postings, live, c);
      scored := scored + 1;
      var sum;
      sum, postings, idx := ScoreCandidate(terms, candidate, postings, live, all, idx, target, m);
      OneMoreDocument(all, ScoresOf(terms), combine, candidate, size);
      best := Offer(best, Match(combine(sum), candidate), size);
      m := candidate + 1;
      AllPlacedSizes(terms, all, idx, target, m, postings, live);
    }
  }

  /** A cursor's posting is a document with a hit. */
  lemma IsDocument(terms: seq<Term>, all: Hits, idx: seq<nat>, low: nat, m: nat, postings: seq<Option<Hit>>, live: seq<bool>, c: nat)
    requires AllPlaced(terms, all, idx, low, m, postings, live) && c < |terms| && live[c] && postings[c].Some?
    ensures Present(all, postings[c].value.number)
    ensures Documents(all, postings[c].value.number + 1) == Documents(all, postings[c].value.number) + 1
  {
    hide PostingsIterator.Valid, PostingsIterator.Here, PostingsIterator.Remaining;
    assert PlacedIn(terms, c, all[c], idx[c], low, m, postings[c]);
    assert all[c][idx[c]] in all[c] && Occurs(all[c], postings[c].value.number);
  }

  lemma {:induction false} NoDocuments(all: Hits, m: nat, n: nat)
    requires m <= n && forall x: nat :: m <= x < n ==> !Present(all, x)
    ensures Documents(all, n) == Documents(all, m)
    decreases n
  {
    hide Present;
    if m < n { NoDocuments(all, m, n - 1); }
  }

  lemma AllPlacedSizes(terms: seq<Term>, all: Hits, idx: seq<nat>, low: nat, m: nat, postings: seq<Option<Hit>>, live: seq<bool>)
    requires AllPlaced(terms, all, idx, low, m, postings, live)
    ensures |terms| == |all| == |idx| == |postings| == |live|
  {
  }

  /** The lowest posting within the range is the lowest of all. */
  lemma NotBeyond(postings: seq<Option<Hit>>, live: seq<bool>, candidate: nat, rangeEnd: nat)
    requires |postings| == |live| && candidate <= rangeEnd
    requires forall c :: 0 <= c < |live| && live[c] && postings[c].Some? && postings[c].value.number <= rangeEnd ==>
      candidate <= postings[c].value.number
    ensures forall c :: 0 <= c < |live| && live[c] && postings[c].Some? ==> candidate <= postings[c].value.number
  {
  }

  // ---------------------------------------------------------------- the search

  ghost predicate AllDone(all: Hits, target: nat) {
    forall c :: 0 <= c < |all| ==> Done(all[c], target)
  }

  lemma NothingLeft(all: Hits, target: nat, limit: nat)
    requires AllDone(all, target)
    ensures forall n: nat :: target <= n < limit ==> !Present(all, n)
  {
    forall n: nat, c | target <= n < limit && 0 <= c < |all| ensures !Occurs(all[c], n) {
      assert Done(all[c], target);
    }
  }

  method SearchRanges(terms: seq<Term>, combine: Combine, size: nat, ghost all: Hits, ghost first: seq<nat>) returns (best: seq<Match>, scored: nat)
    requires Searchable(terms, all) && Monotone(combine) && size > 0
    requires AllReady(terms, all, first, 0, seq(|terms|, _ => None), seq(|terms|, _ => true))
    modifies Readers(terms)
    ensures best == BestBelow(all, ScoresOf(terms), combine, UINT64_SIZE, size) && scored <= Documents(all, UINT64_SIZE)
  {
    hide AllPlaced, AllReady, Searchable, Present, Sum, Ranked, Matches, Monotone, Done, Documents;
    var postings: seq<Option<Hit>>, live, target := seq(|terms|, _ => None), seq(|terms|, _ => true), 0;
    ghost var idx := first;
    best, scored := [], 0;
    AllReadySizes(terms, all, idx, 0, postings, live);
    NothingBelowZero(all, ScoresOf(terms), combine, size);
    while true
      invariant 0 <= target < UINT64_SIZE && |live| == |terms| == |all|
      invariant AllReady(terms, all, idx, target, postings, live)
      invariant best == BestBelow(all, ScoresOf(terms), combine, target, size) && scored <= Documents(all, target)
      decreases UINT64_SIZE - target
    {
      var rangeEnd, upper, unbounded;
      ghost var bounds;
      live, rangeEnd, upper, unbounded, bounds := ShallowAll(terms, target, postings, live, all, idx);
      AllReadySizes(terms, all, idx, target, postings, live);
      if !(exists c :: 0 <= c < |live| && live[c]) {
        OthersDone(terms, all, idx, target, postings, live);
        NothingLeft(all, target, UINT64_SIZE);
        Gap(all, ScoresOf(terms), combine, target, UINT64_SIZE, size);
        DocumentsGrow(all, target, UINT64_SIZE);
        return;
      }
      if !unbounded && |best| == size && combine(upper) <= best[size - 1].score {
        SkippedRange(all, ScoresOf(terms), combine, target, rangeEnd, bounds, size);
        AllReadyLater(terms, all, idx, target, rangeEnd + 1, postings, live);
        DocumentsGrow(all, target, rangeEnd + 1);
      } else {
        postings, idx := PlaceAll(terms, target, postings, live, all, idx);
        var more;
        best, postings, more, idx := ScoreRange(terms, combine, size, rangeEnd, postings, live, best, all, idx, target);
        scored := scored + more;
      }
      target := rangeEnd + 1;
    }
  }

  lemma AllReadySizes(terms: seq<Term>, all: Hits, idx: seq<nat>, target: nat, postings: seq<Option<Hit>>, live: seq<bool>)
    requires AllReady(terms, all, idx, target, postings, live)
    ensures |terms| == |all| == |idx| == |postings| == |live|
  {
  }

  lemma OthersDone(terms: seq<Term>, all: Hits, idx: seq<nat>, target: nat, postings: seq<Option<Hit>>, live: seq<bool>)
    requires AllReady(terms, all, idx, target, postings, live) && forall c :: 0 <= c < |live| ==> !live[c]
    ensures AllDone(all, target)
  {
    hide Done;
  }

  lemma NothingBelowZero(all: Hits, scores: seq<Score>, combine: Combine, size: nat)
    requires |all| == |scores|
    ensures BestBelow(all, scores, combine, 0, size) == []
  {
  }

  /** All hits of the terms. */
  ghost function AllOf(terms: seq<Term>): (r: Hits)
    requires forall t :: t in terms ==> |t.reader.segments| == |t.reader.offsets|
    ensures |r| == |terms|
    ensures forall c :: 0 <= c < |terms| ==> terms[c] in terms && r[c] == AllHits(terms[c].reader.segments, terms[c].reader.offsets)
  {
    if terms == [] then []
    else
      var init, last := terms[..|terms| - 1], terms[|terms| - 1];
      assert last in terms && forall t :: t in init ==> t in terms;
      AllOf(init) + [AllHits(last.reader.segments, last.reader.offsets)]
  }

  ghost predicate Untouched(reader: PostingsIterator)
    reads reader
  {
    reader.Valid() && reader.floor == 0 && reader.shallowed == 0 && reader.current.None?
  }

  /** Searching a disjunction range by range gives exactly the matches that scoring and
      ranking every document with a hit gives. */
  method RawTopNDisjunction(terms: seq<Term>, combine: Combine, size: int, plain: bool) returns (r: Option<Result>)
    requires OwnReaders(terms) && Monotone(combine)
    requires forall t :: t in terms ==> |t.reader.segments| == |t.reader.offsets| && Untouched(t.reader) && Rising(t.score)
    modifies Readers(terms)
    ensures r.Some? <==> plain && forall t :: t in terms ==> ImpactsSomewhere(t.reader.segments)
    ensures r.Some? ==>
      && r.value.matches == BestBelow(AllOf(terms), ScoresOf(terms), combine, UINT64_SIZE, if size <= 0 then 0 else size)
      && r.value.total == TotalHits(AllOf(terms)) && r.value.scored <= Documents(AllOf(terms), UINT64_SIZE)
    ensures r.Some? && size <= 0 ==> r.value.matches == []
    ensures r.Some? && size > 0 ==>
      var ms, all, scores := r.value.matches, AllOf(terms), ScoresOf(terms);
      && |ms| == (if Documents(all, UINT64_SIZE) < size then Documents(all, UINT64_SIZE) else size)
      && (forall m :: m in ms ==> m.number < UINT64_SIZE && Present(all, m.number) && m.score == combine(Sum(all, scores, m.number)))
      && (forall i, j :: 0 <= i < j < |ms| ==>
            ms[i].number != ms[j].number
            && (ms[i].score > ms[j].score || (ms[i].score == ms[j].score && ms[i].number < ms[j].number)))
      && (forall n: nat :: n < UINT64_SIZE && Present(all, n) && (forall m :: m in ms ==> m.number != n) ==>
            && |ms| == size
            && forall m :: m in ms ==>
                 m.score > combine(Sum(all, scores, n)) || (m.score == combine(Sum(all, scores, n)) && m.number < n))
  {
    hide Monotone, Rising, ImpactsSomewhere, BestBelow, Sum, Present, Untouched, Readers, AllReady, Searchable, OwnReaders, Documents, TotalHits,
         AllOf;
    ghost var all := AllOf(terms);
    if !plain {
      return None;
    }
    var has, total := AllHaveImpacts(terms);
    if !has {
      return None;
    }
    if size <= 0 {
      NoBestBelow(all, ScoresOf(terms), combine, UINT64_SIZE);
      return Some(Result([], total, 0));
    }
    BestOfDocuments(all, ScoresOf(terms), combine, UINT64_SIZE, size);
    AllStart(terms, all, seq(|terms|, _ => 0), seq(|terms|, _ => None), seq(|terms|, _ => true));
    var best, scored := SearchRanges(terms, combine, size, all, seq(|terms|, _ => 0));
    r := Some(Result(best, total, scored));
  }

  /** Whether every term has impacts, and the hits of all terms. */
  method AllHaveImpacts(terms: seq<Term>) returns (has: bool, total: nat)
    requires OwnReaders(terms) && forall t :: t in terms ==> Untouched(t.reader)
    requires forall t :: t in terms ==> |t.reader.segments| == |t.reader.offsets|
    modifies Readers(terms)
    ensures forall t :: t in terms ==> Untouched(t.reader)
    ensures has <==> forall t :: t in terms ==> ImpactsSomewhere(t.reader.segments)
    ensures has ==> total == TotalHits(AllOf(terms))
  {
    hide ImpactsSomewhere, PostingsIterator.Valid, AllOf, TotalHits, AllHits;
    total := 0;
    NoHits();
    for c := 0 to |terms|
      invariant forall d :: 0 <= d < |terms| ==> terms[d] in terms && Untouched(terms[d].reader)
      invariant forall d :: 0 <= d < c ==> ImpactsSomewhere(terms[d].reader.segments)
      invariant total == TotalHits(AllOf(terms)[..c])
    {
      assert terms[c] in terms;
      var found := terms[c].reader.HasImpacts();
      if !found {
        return false, total;
      }
      var count := terms[c].reader.Count();
      HitsSnoc(AllOf(terms), c);
      total := total + count;
    }
    assert AllOf(terms)[..|terms|] == AllOf(terms);
    has := true;
  }

  lemma NoHits()
    ensures forall all: Hits :: TotalHits(all[..0]) == 0
  {
  }

  lemma HitsSnoc(all: Hits, c: nat)
    requires c < |all|
    ensures TotalHits(all[..c + 1]) == TotalHits(all[..c]) + |all[c]|
  {
    assert all[..c + 1][..c] == all[..c];
  }

  lemma NoBestBelow(all: Hits, scores: seq<Score>, combine: Combine, m: nat)
    requires |all| == |scores|
    ensures BestBelow(all, scores, combine, m, 0) == []
  {
  }

  lemma AllStart(terms: seq<Term>, all: Hits, idx: seq<nat>, postings: seq<Option<Hit>>, live: seq<bool>)
    requires OwnReaders(terms) && forall t :: t in terms ==> Untouched(t.reader) && Rising(t.score)
    requires forall t :: t in terms ==> ImpactsSomewhere(t.reader.segments)
    requires forall t :: t in terms ==> |t.reader.segments| == |t.reader.offsets|
    requires all == AllOf(terms) && |terms| == |idx| == |postings| == |live|
    requires forall c :: 0 <= c < |terms| ==> idx[c] == 0 && postings[c].None? && live[c]
    ensures Searchable(terms, all)
    ensures AllReady(terms, all, idx, 0, postings, live)
  {
    hide Rising, ImpactsSomewhere, Untouched, Ready, Numbered, AllHits;
    forall c | 0 <= c < |terms|
      ensures Numbered(all[c]) && ReadyIn(terms, c, all[c], 0, 0, None)
      ensures ImpactsSomewhere(terms[c].reader.segments) && Rising(terms[c].score)
    {
      assert terms[c] in terms;
      StartReady(terms[c].reader);
    }
  }

  lemma StartReady(reader: PostingsIterator)
    requires |reader.segments| == |reader.offsets| && Untouched(reader) && ImpactsSomewhere(reader.segments)
    ensures Numbered(AllHits(reader.segments, reader.offsets))
    ensures Ready(reader, AllHits(reader.segments, reader.offsets), 0, 0, None)
  {
    hide ImpactsSomewhere, PostingsIterator.Valid, Numbered;
    AllNumbered(reader);
    HasSegments(reader.segments);
  }
}
