/** The best matches of one term, found while skipping whole blocks by their impacts. */
module TopMatches {
  import opened Basics
  import opened Impacts
  import opened ImpactCoding
  import opened TermSegments
  import opened PostingsIterators

  datatype Match = Match(score: int, number: nat)

  type Score = Impact -> int

  /** Higher score first, then lower document number. */
  predicate Better(a: Match, b: Match) {
    a.score > b.score || (a.score == b.score && a.number < b.number)
  }

  // ---------------------------------------------------------------- ranking everything

  function Insert(ranked: seq<Match>, m: Match): seq<Match> {
    if ranked != [] && Better(m, ranked[|ranked| - 1])
    then Insert(ranked[..|ranked| - 1], m) + [ranked[|ranked| - 1]]
    else ranked + [m]
  }

  /** All matches in rank order. */
  function Ranked(matches: seq<Match>): seq<Match> {
    if matches == [] then [] else Insert(Ranked(matches[..|matches| - 1]), matches[|matches| - 1])
  }

  function Cap(ranked: seq<Match>, size: nat): seq<Match> {
    if |ranked| <= size then ranked else ranked[..size]
  }

  ghost predicate InRankOrder(ms: seq<Match>) {
    forall i, j :: 0 <= i < j < |ms| ==> !Better(ms[j], ms[i])
  }

  lemma {:induction false} InsertFacts(ranked: seq<Match>, m: Match)
    ensures |Insert(ranked, m)| == |ranked| + 1
    ensures multiset(Insert(ranked, m)) == multiset(ranked) + multiset{m}
    ensures InRankOrder(ranked) ==> InRankOrder(Insert(ranked, m))
  {
    hide Better, InRankOrder;
    if ranked == [] {
      SingleInOrder(m);
      assert [] + [m] == [m];
    } else {
      var init, last := ranked[..|ranked| - 1], ranked[|ranked| - 1];
      assert ranked == init + [last];
      if Better(m, last) {
        InsertFacts(init, m);
        if InRankOrder(ranked) {
          OrderOfInit(init, last);
          LastStaysLast(init, last, m, Insert(init, m));
        }
      } else if InRankOrder(ranked) {
        AppendInOrder(ranked, m);
      }
    }
  }

  lemma SingleInOrder(m: Match)
    ensures InRankOrder([m])
  {
  }

  lemma OrderOfInit(init: seq<Match>, last: Match)
    requires InRankOrder(init + [last])
    ensures InRankOrder(init) && forall i :: 0 <= i < |init| ==> !Better(last, init[i])
  {
    hide Better;
    var all := init + [last];
    forall i, j | 0 <= i < j < |init| ensures !Better(init[j], init[i]) { assert !Better(all[j], all[i]); }
    forall i | 0 <= i < |init| ensures !Better(last, init[i]) { assert !Better(all[|init|], all[i]); }
  }

  lemma LastStaysLast(init: seq<Match>, last: Match, m: Match, r: seq<Match>)
    requires InRankOrder(r) && Better(m, last) && multiset(r) == multiset(init) + multiset{m}
    requires forall i :: 0 <= i < |init| ==> !Better(last, init[i])
    ensures InRankOrder(r + [last])
  {
    BetterIsStrict(m, last);
    hide Better;
    forall i | 0 <= i < |r| ensures !Better(last, r[i]) {
      assert r[i] in multiset(r);
      if r[i] != m {
        assert r[i] in init;
        var j :| 0 <= j < |init| && init[j] == r[i];
      }
    }
  }

  lemma BetterIsStrict(a: Match, b: Match)
    ensures Better(a, b) ==> !Better(b, a)
  {
  }

  lemma AppendInOrder(ranked: seq<Match>, m: Match)
    requires InRankOrder(ranked) && ranked != [] && !Better(m, ranked[|ranked| - 1])
    ensures InRankOrder(ranked + [m])
  {
    forall i | 0 <= i < |ranked| ensures !Better(m, ranked[i]) {
      assert i == |ranked| - 1 || !Better(ranked[|ranked| - 1], ranked[i]);
    }
  }

  /** Ranking reorders the matches so that none is better than one before it. */
  lemma {:induction false} RankedFacts(matches: seq<Match>)
    ensures |Ranked(matches)| == |matches| && multiset(Ranked(matches)) == multiset(matches)
    ensures InRankOrder(Ranked(matches))
  {
    if matches != [] {
      var init, last := matches[..|matches| - 1], matches[|matches| - 1];
      RankedFacts(init);
      InsertFacts(Ranked(init), last);
      assert matches == init + [last];
    }
  }

  /** Inserting behind a better last match only appends. */
  lemma InsertBehind(ranked: seq<Match>, m: Match)
    requires ranked == [] || !Better(m, ranked[|ranked| - 1])
    ensures Insert(ranked, m) == ranked + [m]
  {
  }

  /** The best matches after an insertion depend only on the best ones before it. */
  lemma {:induction false} CapInsert(ranked: seq<Match>, m: Match, size: nat)
    requires InRankOrder(ranked) && size > 0
    ensures Cap(Insert(ranked, m), size) == Cap(Insert(Cap(ranked, size), m), size)
    decreases |ranked|
  {
    hide Better, InRankOrder, Insert;
    if |ranked| > size {
      var init, last := ranked[..|ranked| - 1], ranked[|ranked| - 1];
      RankOrderInit(ranked);
      assert Cap(init, size) == Cap(ranked, size);
      CapInsert(init, m, size);
      InsertFacts(init, m);
      InsertLast(init, last, m);
      assert ranked == init + [last];
      if !Better(m, last) {
        NotBetterThanEarlier(ranked, m);
        InsertBehind(init, m);
      }
      CapFirst(Insert(init, m), last, size);
      CapBehind(init, last, m, size);
    }
  }

  lemma InsertLast(init: seq<Match>, last: Match, m: Match)
    ensures Insert(init + [last], m) == if Better(m, last) then Insert(init, m) + [last] else init + [last] + [m]
  {
    assert (init + [last])[..|init|] == init;
  }

  lemma CapFirst(a: seq<Match>, last: Match, size: nat)
    requires |a| >= size
    ensures Cap(a + [last], size) == Cap(a, size)
  {
  }

  lemma CapBehind(init: seq<Match>, last: Match, m: Match, size: nat)
    requires |init| >= size
    ensures Cap(init + [last] + [m], size) == Cap(init + [m], size)
  {
  }

  lemma RankOrderInit(ranked: seq<Match>)
    requires InRankOrder(ranked) && ranked != []
    ensures InRankOrder(ranked[..|ranked| - 1])
  {
  }

  lemma NotBetterThanEarlier(ranked: seq<Match>, m: Match)
    requires InRankOrder(ranked) && |ranked| > 1 && !Better(m, ranked[|ranked| - 1])
    ensures !Better(m, ranked[|ranked| - 2])
  {
    assert !Better(ranked[|ranked| - 1], ranked[|ranked| - 2]);
  }

  /** One more match for the best of a growing collection. */
  lemma CapRankedSnoc(matches: seq<Match>, m: Match, size: nat)
    requires size > 0
    ensures Cap(Ranked(matches + [m]), size) == Cap(Insert(Cap(Ranked(matches), size), m), size)
  {
    assert (matches + [m])[..|matches|] == matches;
    RankedFacts(matches);
    CapInsert(Ranked(matches), m, size);
  }

  /** Matches that are no better than the worst of a full collection change nothing. */
  lemma {:induction false} CapRankedSkips(matches: seq<Match>, more: seq<Match>, size: nat)
    requires size > 0 && |Cap(Ranked(matches), size)| == size
    requires forall m :: m in more ==> !Better(m, Cap(Ranked(matches), size)[size - 1])
    ensures Cap(Ranked(matches + more), size) == Cap(Ranked(matches), size)
    decreases |more|
  {
    hide Ranked, Better;
    if more == [] {
      assert matches + [] == matches;
    } else {
      var init, last := more[..|more| - 1], more[|more| - 1];
      assert forall m :: m in init ==> m in more;
      CapRankedSkips(matches, init, size);
      assert matches + more == (matches + init) + [last];
      CapRankedSnoc(matches + init, last, size);
      assert last in more;
      InsertBehind(Cap(Ranked(matches), size), last);
    }
  }

  ghost predicate Apart(matches: seq<Match>) {
    forall i, j :: 0 <= i < j < |matches| ==> matches[i].number != matches[j].number
  }

  lemma {:induction false} OnlyOnce(matches: seq<Match>, m: Match)
    requires Apart(matches)
    ensures multiset(matches)[m] <= 1
  {
    if matches != [] {
      var init, last := matches[..|matches| - 1], matches[|matches| - 1];
      assert matches == init + [last];
      OnlyOnce(init, m);
      if m == last { assert m !in init; }
    }
  }

  lemma Twice(matches: seq<Match>, i: nat, j: nat)
    requires i < j < |matches| && matches[i] == matches[j]
    ensures multiset(matches)[matches[i]] >= 2
  {
    assert matches == matches[..j] + matches[j..];
    assert matches[..j][i] in multiset(matches[..j]) && matches[j..][0] in multiset(matches[j..]);
  }

  lemma ApartReordered(matches: seq<Match>, r: seq<Match>)
    requires Apart(matches) && multiset(r) == multiset(matches)
    ensures Apart(r)
  {
    forall i, j | 0 <= i < j < |r| ensures r[i].number != r[j].number {
      assert r[i] in multiset(r) && r[j] in multiset(r);
      if r[i] == r[j] {
        OnlyOnce(matches, r[i]);
        Twice(r, i, j);
      } else {
        var x :| 0 <= x < |matches| && matches[x] == r[i];
        var y :| 0 <= y < |matches| && matches[y] == r[j];
      }
    }
  }

  /** The first of the ranked: as many as asked for, or all; in strict order; and better
      than each one left out. */
  lemma TopFacts(matches: seq<Match>, size: nat)
    requires Apart(matches)
    ensures
      var best := Cap(Ranked(matches), size);
      && |best| == (if |matches| < size then |matches| else size)
      && (forall m :: m in best ==> m in matches)
      && (forall i, j :: 0 <= i < j < |best| ==> Better(best[i], best[j]) && best[i].number != best[j].number)
      && (forall m :: m in matches && m !in best ==> |best| == size && forall b :: b in best ==> Better(b, m))
  {
    var ranked, best := Ranked(matches), Cap(Ranked(matches), size);
    RankedFacts(matches);
    ApartReordered(matches, ranked);
    assert forall i, j :: 0 <= i < j < |ranked| ==> !Better(ranked[j], ranked[i]) && ranked[i].number != ranked[j].number;
    forall m | m in best ensures m in matches { assert m in multiset(ranked); }
    forall m | m in matches && m !in best ensures |best| == size && forall b :: b in best ==> Better(b, m) {
      assert m in multiset(matches) && m in multiset(ranked);
      var j :| 0 <= j < |ranked| && ranked[j] == m;
      assert j >= |best|;
      forall b | b in best ensures Better(b, m) { var i :| 0 <= i < |best| && ranked[i] == b; }
    }
  }

  // ---------------------------------------------------------------- the hits of a term as matches

  function MatchOf(h: Hit, score: Score): Match {
    Match(score(h.impact), h.number)
  }

  function MatchesOf(hits: seq<Hit>, score: Score): (r: seq<Match>)
    ensures |r| == |hits| && forall i :: 0 <= i < |hits| ==> r[i] == MatchOf(hits[i], score)
  {
    if hits == [] then [] else MatchesOf(hits[..|hits| - 1], score) + [MatchOf(hits[|hits| - 1], score)]
  }

  /** The best matches by ranking every hit. */
  function Best(hits: seq<Hit>, score: Score, size: nat): seq<Match> {
    Cap(Ranked(MatchesOf(hits, score)), size)
  }

  /** What ranking every hit gives, said without it. */
  lemma BestOfHits(hits: seq<Hit>, score: Score, size: nat)
    requires Numbered(hits)
    ensures
      var best := Best(hits, score, size);
      && |best| == (if |hits| < size then |hits| else size)
      && (forall m :: m in best ==> exists h :: h in hits && m.number == h.number && m.score == score(h.impact))
      && (forall i, j :: 0 <= i < j < |best| ==>
            best[i].number != best[j].number
            && (best[i].score > best[j].score || (best[i].score == best[j].score && best[i].number < best[j].number)))
      && (forall h :: h in hits && (forall b :: b in best ==> b.number != h.number) ==>
            && |best| == size
            && forall b :: b in best ==> b.score > score(h.impact) || (b.score == score(h.impact) && b.number < h.number))
  {
    hide Ranked, Cap, MatchesOf, Numbered;
    MatchesAre(hits, score);
    TopFacts(MatchesOf(hits, score), size);
    assert forall h :: h in hits ==> MatchOf(h, score) in MatchesOf(hits, score);
  }

  lemma MatchesAre(hits: seq<Hit>, score: Score)
    requires Numbered(hits)
    ensures |MatchesOf(hits, score)| == |hits| && Apart(MatchesOf(hits, score))
    ensures forall h :: h in hits ==> MatchOf(h, score) in MatchesOf(hits, score)
    ensures forall m :: m in MatchesOf(hits, score) ==> exists h :: h in hits && m.number == h.number && m.score == score(h.impact)
  {
    var all := MatchesOf(hits, score);
    forall h | h in hits ensures MatchOf(h, score) in all {
      var i :| 0 <= i < |hits| && hits[i] == h;
      assert all[i] in all;
    }
    forall m | m in all ensures exists h :: h in hits && m.number == h.number && m.score == score(h.impact) {
      var i :| 0 <= i < |all| && all[i] == m;
      assert hits[i] in hits;
    }
  }

  /** The largest score of the pairs, at least 0. */
  function UpperBound(impacts: seq<Impact>, score: Score): int {
    if impacts == [] then 0
    else
      var rest := UpperBound(impacts[..|impacts| - 1], score);
      var s := score(impacts[|impacts| - 1]);
      if s > rest then s else rest
  }

  lemma {:induction false} UpperBoundCovers(impacts: seq<Impact>, score: Score, x: Impact)
    requires Rising(score) && Covered(impacts, x)
    ensures score(x) <= UpperBound(impacts, score)
  {
    var f :| f in impacts && Dominates(f, x);
    UpperBoundOf(impacts, score, f);
  }

  lemma {:induction false} UpperBoundOf(impacts: seq<Impact>, score: Score, f: Impact)
    requires f in impacts
    ensures score(f) <= UpperBound(impacts, score)
  {
    var init := impacts[..|impacts| - 1];
    if f in init { UpperBoundOf(init, score, f); }
  }

  // ---------------------------------------------------------------- all hits are in order

  ghost predicate Numbered(hits: seq<Hit>) {
    forall i, j :: 0 <= i < j < |hits| ==> hits[i].number < hits[j].number
  }

  lemma {:induction false} HitMember(segments: seq<TermSegment>, offsets: seq<nat>, i: nat, h: Hit) returns (k: nat, p: Posting)
    requires |segments| == |offsets|
    requires h in HitsFrom(segments, offsets, Zeros(|segments|), i)
    ensures i <= k < |segments| && p in LiveOf(segments[k]) && h == Hit(p.doc + offsets[k], p.impact)
    decreases |segments| - i
  {
    var mine := Left(segments[i], offsets[i], 0);
    if h in mine {
      k := i;
      var x :| 0 <= x < |mine| && mine[x] == h;
      assert LiveOf(segments[i])[0..] == LiveOf(segments[i]);
      p := LiveOf(segments[i])[x];
    } else {
      k, p := HitMember(segments, offsets, i + 1, h);
    }
  }

  lemma {:induction false} HitsInOrder(segments: seq<TermSegment>, offsets: seq<nat>, k: nat)
    requires Laid(segments, offsets) && AllWellFormed(segments) && k <= |segments|
    ensures Numbered(HitsFrom(segments, offsets, Zeros(|segments|), k))
    decreases |segments| - k
  {
    hide AllWellFormed, LiveOf, Size, Left, Numbered;
    if k < |segments| {
      HitsInOrder(segments, offsets, k + 1);
      var mine, rest := Left(segments[k], offsets[k], 0), HitsFrom(segments, offsets, Zeros(|segments|), k + 1);
      OwnInOrder(segments, offsets, k);
      forall a, b | a in mine && b in rest ensures a.number < b.number { LaterHit(segments, offsets, k, a, b); }
      NumberedConcat(mine, rest);
    } else {
      NoneNumbered();
    }
  }

  lemma NoneNumbered()
    ensures Numbered([])
  {
  }

  lemma NumberedConcat(a: seq<Hit>, b: seq<Hit>)
    requires Numbered(a) && Numbered(b) && forall x, y :: x in a && y in b ==> x.number < y.number
    ensures Numbered(a + b)
  {
    assert forall i :: 0 <= i < |a| ==> a[i] in a;
    assert forall i :: 0 <= i < |b| ==> b[i] in b;
  }

  lemma OwnInOrder(segments: seq<TermSegment>, offsets: seq<nat>, k: nat)
    requires Laid(segments, offsets) && AllWellFormed(segments) && k < |segments|
    ensures Numbered(Left(segments[k], offsets[k], 0))
  {
    hide AllWellFormed, LiveOf, Size;
    DocsInRange(segments, k);
    assert LiveOf(segments[k])[0..] == LiveOf(segments[k]);
  }

  /** A hit of a later segment has a greater number. */
  lemma LaterHit(segments: seq<TermSegment>, offsets: seq<nat>, k: nat, a: Hit, b: Hit)
    requires Laid(segments, offsets) && AllWellFormed(segments) && k < |segments|
    requires a in Left(segments[k], offsets[k], 0) && b in HitsFrom(segments, offsets, Zeros(|segments|), k + 1)
    ensures a.number < b.number
  {
    hide AllWellFormed, LiveOf, Size, HitsFrom;
    var live := LiveOf(segments[k]);
    DocsInRange(segments, k);
    assert live[0..] == live;
    var i :| 0 <= i < |live| && Left(segments[k], offsets[k], 0)[i] == a;
    assert live[i] in live;
    var later, p := HitMember(segments, offsets, k + 1, b);
    OffsetsApart(segments, offsets, k, later);
  }

  lemma {:induction false} HitPlace(segments: seq<TermSegment>, offsets: seq<nat>, i: nat, k: nat, p: Posting)
    requires |segments| == |offsets| && i <= k < |segments| && p in LiveOf(segments[k])
    ensures Hit(p.doc + offsets[k], p.impact) in HitsFrom(segments, offsets, Zeros(|segments|), i)
    decreases k - i
  {
    hide LiveOf, Left;
    if i < k { HitPlace(segments, offsets, i + 1, k, p); } else { OwnHit(segments[i], offsets[i], p); }
  }

  lemma OwnHit(s: TermSegment, offset: nat, p: Posting)
    requires p in LiveOf(s)
    ensures Hit(p.doc + offset, p.impact) in Left(s, offset, 0)
  {
    hide LiveOf;
    var live := LiveOf(s);
    assert live[0..] == live;
    var x :| 0 <= x < |live| && live[x] == p;
    assert Left(s, offset, 0)[x] in Left(s, offset, 0);
  }

  /** The hits are the stored postings of documents not deleted, under global numbers, in
      ascending order. */
  lemma HitsAre(segments: seq<TermSegment>, offsets: seq<nat>)
    requires Laid(segments, offsets) && AllWellFormed(segments)
    ensures forall h :: h in AllHits(segments, offsets) <==>
      exists k, p :: 0 <= k < |segments| && p in segments[k].stored && p.doc !in segments[k].deleted
                     && h == Hit(offsets[k] + p.doc, p.impact)
    ensures forall i, j :: 0 <= i < j < |AllHits(segments, offsets)| ==>
      AllHits(segments, offsets)[i].number < AllHits(segments, offsets)[j].number
  {
    HitsInOrder(segments, offsets, 0);
    forall k | 0 <= k < |segments|
      ensures forall p :: p in LiveOf(segments[k]) <==> p in segments[k].stored && p.doc !in segments[k].deleted
    {
      LiveFacts(segments[k].stored, segments[k].deleted);
    }
    hide LiveOf, HitsFrom, AllWellFormed, Laid;
    forall h | h in AllHits(segments, offsets)
      ensures exists k, p :: 0 <= k < |segments| && p in segments[k].stored && p.doc !in segments[k].deleted
                             && h == Hit(offsets[k] + p.doc, p.impact)
    {
      var k, p := HitMember(segments, offsets, 0, h);
    }
    forall h, k, p | 0 <= k < |segments| && p in segments[k].stored && p.doc !in segments[k].deleted
                     && h == Hit(offsets[k] + p.doc, p.impact)
      ensures h in AllHits(segments, offsets)
    {
      HitPlace(segments, offsets, 0, k, p);
    }
  }

  /** Where a number cuts the hits. */
  ghost predicate CutAt(hits: seq<Hit>, number: nat, i: nat) {
    && i <= |hits| && From(hits, number) == hits[i..]
    && (forall k :: 0 <= k < i ==> hits[k].number < number)
    && (forall k :: i <= k < |hits| ==> hits[k].number >= number)
  }

  lemma CutThere(hits: seq<Hit>, number: nat, i: nat)
    requires Numbered(hits) && i <= |hits|
    requires i > 0 ==> hits[i - 1].number < number
    requires i < |hits| ==> number <= hits[i].number
    ensures CutAt(hits, number, i)
  {
    assert forall k :: 0 <= k < i ==> hits[k].number <= hits[i - 1].number;
    CutParts(hits, number, i);
  }

  lemma {:induction false} Passing(hits: seq<Hit>, number: nat, i: nat) returns (j: nat)
    requires Numbered(hits) && i <= |hits| && (i > 0 ==> hits[i - 1].number < number)
    ensures i <= j && CutAt(hits, number, j)
    decreases |hits| - i
  {
    if i < |hits| && hits[i].number < number {
      j := Passing(hits, number, i + 1);
    } else {
      j := i;
      CutThere(hits, number, i);
    }
  }

  lemma AnswerOnHits(segments: seq<TermSegment>, offsets: seq<nat>, number: nat, a: Answer)
    requires |segments| == |offsets| && SoundAnswer(segments, offsets, number, a)
    ensures !a.Failure? || segments == []
    ensures a.Nothing? ==> forall h :: h in AllHits(segments, offsets) ==> h.number < number
    ensures a.Reach? && a.impacts != [] ==>
      forall h :: h in AllHits(segments, offsets) && number <= h.number <= a.end ==> Covered(a.impacts, h.impact)
  {
    hide Covered, HitsFrom, LiveOf;
    if segments != [] { assert SoundAt(segments[0], offsets[0], 0, number, a); }
    forall h | h in AllHits(segments, offsets)
      ensures a.Nothing? ==> h.number < number
      ensures a.Reach? && a.impacts != [] && number <= h.number <= a.end ==> Covered(a.impacts, h.impact)
    {
      var k, p := HitMember(segments, offsets, 0, h);
      assert SoundAt(segments[k], offsets[k], k, number, a);
    }
  }

  // ---------------------------------------------------------------- the search

  /** The worst match of a full collection makes room for a better one. */
  function Offer(best: seq<Match>, m: Match, size: nat): seq<Match>
    requires 0 < size && |best| <= size
  {
    if |best| < size then Insert(best, m)
    else if Better(m, best[size - 1]) then Insert(best[..size - 1], m)
    else best
  }

  lemma OfferIsCap(best: seq<Match>, m: Match, size: nat)
    requires 0 < size && |best| <= size
    ensures Offer(best, m, size) == Cap(Insert(best, m), size)
  {
    InsertFacts(best, m);
    if |best| == size && Better(m, best[size - 1]) { InsertFacts(best[..size - 1], m); }
  }

  lemma BestSize(hits: seq<Hit>, score: Score, size: nat)
    ensures |Best(hits, score, size)| <= size
  {
  }

  lemma OneMoreHit(hits: seq<Hit>, i: nat, best: seq<Match>, score: Score, size: nat)
    requires i < |hits| && best == Best(hits[..i], score, size) && size > 0
    ensures |best| <= size && Offer(best, MatchOf(hits[i], score), size) == Best(hits[..i + 1], score, size)
  {
    hide Ranked, Insert, Offer;
    BestSize(hits[..i], score, size);
    OfferIsCap(best, MatchOf(hits[i], score), size);
    assert hits[..i + 1][..i] == hits[..i];
    assert MatchesOf(hits[..i + 1], score) == MatchesOf(hits[..i], score) + [MatchOf(hits[i], score)];
    CapRankedSnoc(MatchesOf(hits[..i], score), MatchOf(hits[i], score), size);
  }

  /** A block whose upper bound does not exceed the worst of a full collection holds
      nothing that belongs to the best. */
  lemma SkippedBlock(hits: seq<Hit>, i: nat, j: nat, best: seq<Match>, score: Score, size: nat, impacts: seq<Impact>)
    requires Rising(score) && 0 < size && i <= j <= |hits| && Numbered(hits)
    requires best == Best(hits[..i], score, size) && |best| == size
    requires UpperBound(impacts, score) <= best[size - 1].score
    requires forall k :: i <= k < j ==> Covered(impacts, hits[k].impact)
    ensures Best(hits[..j], score, size) == best
  {
    hide Ranked, Covered, Better, UpperBound, Rising, Numbered, Cap;
    var seen, more := MatchesOf(hits[..i], score), MatchesOf(hits[i..j], score);
    MatchesSplit(hits, i, j, score);
    var worst := best[size - 1];
    forall m | m in more ensures !Better(m, worst) {
      var k :| 0 <= k < |more| && more[k] == m;
      NotBetter(hits, i, i + k, worst, score, size, impacts);
    }
    CapRankedSkips(seen, more, size);
  }

  lemma MatchesSplit(hits: seq<Hit>, i: nat, j: nat, score: Score)
    requires i <= j <= |hits|
    ensures MatchesOf(hits[..j], score) == MatchesOf(hits[..i], score) + MatchesOf(hits[i..j], score)
    ensures |MatchesOf(hits[i..j], score)| == j - i
    ensures forall k :: 0 <= k < j - i ==> MatchesOf(hits[i..j], score)[k] == MatchOf(hits[i + k], score)
  {
  }

  lemma NotBetter(hits: seq<Hit>, i: nat, k: nat, worst: Match, score: Score, size: nat, impacts: seq<Impact>)
    requires Rising(score) && 0 < size && i <= k < |hits| && Numbered(hits)
    requires |Best(hits[..i], score, size)| == size && worst == Best(hits[..i], score, size)[size - 1]
    requires UpperBound(impacts, score) <= worst.score && Covered(impacts, hits[k].impact)
    ensures !Better(MatchOf(hits[k], score), worst)
  {
    hide Ranked, Covered, Rising, UpperBound;
    var seen := MatchesOf(hits[..i], score);
    UpperBoundCovers(impacts, score, hits[k].impact);
    WorstIsSeen(seen, size);
    var x :| 0 <= x < |seen| && seen[x] == worst;
    assert worst.number == hits[x].number;
  }

  lemma WorstIsSeen(seen: seq<Match>, size: nat)
    requires 0 < size == |Cap(Ranked(seen), size)|
    ensures Cap(Ranked(seen), size)[size - 1] in seen
  {
    RankedFacts(seen);
    assert Ranked(seen)[size - 1] in multiset(Ranked(seen));
  }

  /** The reader has just returned the i-th hit. */
  ghost predicate AtHit(reader: PostingsIterator, hits: seq<Hit>, i: nat, target: nat, h: Hit)
    reads reader
    requires reader.Valid()
  {
    && reader.floor <= target + 1 && reader.current == Some(h) && reader.Here()
    && i < |hits| && h == hits[i] && target == h.number && reader.Remaining() == hits[i + 1..]
  }

  /** Where the reader stands when the hits before the i-th have been taken. */
  ghost predicate Standing(reader: PostingsIterator, hits: seq<Hit>, i: nat, target: nat, posting: Option<Hit>)
    reads reader
  {
    && reader.Valid() && reader.All() == hits && reader.shallowed <= target && i <= |hits|
    && (posting.None? ==> reader.floor <= target)
    && (posting.Some? ==> AtHit(reader, hits, i, target, posting.value))
  }

  datatype Result = Result(matches: seq<Match>, total: nat, scored: nat)

  /** Scores the postings up to a block's end. */
  method ScoreBlock(reader: PostingsIterator, score: Score, size: nat, end: nat, first: Option<Hit>, start: seq<Match>,
                    ghost hits: seq<Hit>, ghost from: nat)
    returns (posting: Option<Hit>, best: seq<Match>, scored: nat, ghost i: nat)
    requires size > 0 && Numbered(hits) && from <= |hits| && start == Best(hits[..from], score, size)
    requires if first.Some? then Standing(reader, hits, from, first.value.number, first) else from == |hits|
    requires first.None? ==> reader.Valid()
    modifies reader
    ensures from <= i <= |hits| && scored == i - from && best == Best(hits[..i], score, size)
    ensures forall k :: from <= k < i ==> hits[k].number <= end
    ensures
      if posting.Some? then Standing(reader, hits, i, posting.value.number, posting) && posting.value.number > end
      else i == |hits| && reader.Valid()
  {
    hide Best, Ranked, Numbered, PostingsIterator.Valid, PostingsIterator.Remaining, PostingsIterator.Here;
    posting, best, scored, i := first, start, 0, from;
    while posting.Some? && posting.value.number <= end
      invariant from <= i <= |hits| && scored == i - from && best == Best(hits[..i], score, size)
      invariant if posting.Some? then Standing(reader, hits, i, posting.value.number, posting) else i == |hits|
      invariant posting.None? ==> reader.Valid()
      invariant forall k :: from <= k < i ==> hits[k].number <= end
      decreases |hits| - i
    {
      OneMoreHit(hits, i, best, score, size);
      best := Offer(best, MatchOf(posting.value, score), size);
      scored := scored + 1;
      ghost var rest := reader.Remaining();
      posting := reader.Next();
      i := i + 1;
      if posting.Some? { assert hits[i..][1..] == hits[i + 1..]; InOrder(hits, i - 1, i); }
    }
  }

  lemma InOrder(hits: seq<Hit>, i: nat, j: nat)
    requires Numbered(hits) && i < j < |hits|
    ensures hits[i].number < hits[j].number
  {
  }

  /** A shallow advance leaves the reader standing, and its answer speaks of the hits. */
  method Shallow(reader: PostingsIterator, target: UInt64, posting: Option<Hit>, ghost hits: seq<Hit>, ghost i: nat)
    returns (a: Answer)
    requires Standing(reader, hits, i, target, posting) && ImpactsSomewhere(reader.segments)
    modifies reader
    ensures Standing(reader, hits, i, target, posting) && !a.Failure?
    ensures a.Nothing? ==> forall h :: h in hits ==> h.number < target
    ensures a.Reach? ==> target <= a.end && a.end + 1 < UINT64_SIZE
    ensures a.Reach? && a.impacts != [] ==>
      forall h :: h in hits && target <= h.number <= a.end ==> Covered(a.impacts, h.impact)
  {
    hide PostingsIterator.Valid, PostingsIterator.Here, PostingsIterator.Remaining, SoundAt, Covered;
    if posting.Some? { reader.EnteredBeforeCurrent(); }
    a := reader.AdvanceShallow(target);
    reader.SizeFits();
    AnswerOnHits(reader.segments, reader.offsets, target, a);
  }

  /** Makes sure a posting at or after the target is at hand, if there is one. */
  method Position(reader: PostingsIterator, target: nat, posting: Option<Hit>, ghost hits: seq<Hit>, ghost i: nat)
    returns (first: Option<Hit>)
    requires Standing(reader, hits, i, target, posting) && CutAt(hits, target, i) && reader.segments != []
    modifies reader
    ensures if first.Some? then Standing(reader, hits, i, first.value.number, first) else reader.Valid() && i == |hits|
    ensures first.Some? ==> first.value.number >= target && reader.All() == hits
  {
    hide PostingsIterator.Valid, PostingsIterator.Here, PostingsIterator.Remaining;
    first := posting;
    if first.None? {
      first := reader.Advance(target);
      if first.Some? { assert hits[i..][1..] == hits[i + 1..]; }
    }
  }

  /** Searching by blocks gives exactly the matches that ranking every posting gives. */
  method RawTopN(reader: PostingsIterator, score: Score, size: int, plain: bool) returns (r: Option<Result>)
    requires reader.Valid() && reader.floor == 0 && reader.shallowed == 0 && reader.current.None? && Rising(score)
    modifies reader
    ensures r.Some? == (plain && ImpactsSomewhere(reader.segments))
    ensures r.Some? ==> r.value.matches == Best(old(reader.All()), score, if size <= 0 then 0 else size)
    ensures r.Some? ==> r.value.scored <= r.value.total == |old(reader.All())|
    ensures r.Some? && size <= 0 ==> r.value.matches == []
    ensures r.Some? && size > 0 ==>
      var ms, hits := r.value.matches, old(reader.All());
      && |ms| == (if |hits| < size then |hits| else size)
      && (forall m :: m in ms ==> exists h :: h in hits && m.number == h.number && m.score == score(h.impact))
      && (forall i, j :: 0 <= i < j < |ms| ==>
            ms[i].number != ms[j].number
            && (ms[i].score > ms[j].score || (ms[i].score == ms[j].score && ms[i].number < ms[j].number)))
      && (forall h :: h in hits && (forall m :: m in ms ==> m.number != h.number) ==>
            && |ms| == size
            && forall m :: m in ms ==> m.score > score(h.impact) || (m.score == score(h.impact) && m.number < h.number))
  {
    hide Best, Ranked, PostingsIterator.Valid, PostingsIterator.Remaining, PostingsIterator.Here;
    ghost var hits := reader.All();
    var total := reader.Count();
    var has := reader.HasImpacts();
    if !plain || !has {
      return None;
    }
    if size <= 0 {
      NoBest(hits, score);
      return Some(Result([], total, 0));
    }
    AllNumbered(reader);
    BestOfHits(hits, score, size);
    var best, scored := SearchBlocks(reader, score, size, hits);
    r := Some(Result(best, total, scored));
  }

  method SearchBlocks(reader: PostingsIterator, score: Score, size: nat, ghost hits: seq<Hit>)
    returns (best: seq<Match>, scored: nat)
    requires Standing(reader, hits, 0, 0, None) && ImpactsSomewhere(reader.segments)
    requires Rising(score) && Numbered(hits) && size > 0
    modifies reader
    ensures best == Best(hits, score, size) && scored <= |hits|
  {
    hide Best, Standing, CutAt, Numbered, Covered, Rising;
    var posting, target := None, 0;
    best, scored := [], 0;
    ghost var i := 0;
    NoneSeen(hits, score, size);
    while true
      invariant 0 <= target < UINT64_SIZE && scored <= i <= |hits|
      invariant Standing(reader, hits, i, target, posting)
      invariant CutAt(hits, target, i) && best == Best(hits[..i], score, size)
      decreases UINT64_SIZE - target
    {
      var a := Shallow(reader, target, posting, hits, i);
      if !a.Reach? {
        AllBelow(hits, target, i);
        break;
      }
      BestSize(hits[..i], score, size);
      if a.impacts != [] && |best| == size && UpperBound(a.impacts, score) <= best[size - 1].score {
        if a.end == UINT64_SIZE - 1 {
          break;
        }
        ghost var j := SkipBlock(hits, i, target, best, score, size, a);
        StandingAside(reader, hits, i, j, target, a.end + 1, posting);
        i, posting, target := j, None, a.end + 1;
      } else {
        HasSegments(reader.segments);
        var first := Position(reader, target, posting, hits, i);
        var count;
        posting, best, count, i := ScoreBlock(reader, score, size, a.end, first, best, hits, i);
        scored := scored + count;
        if posting.None? {
          WholeSeq(hits);
          break;
        }
        ScoredUpTo(reader, hits, i, posting.value);
        target := posting.value.number;
      }
    }
  }

  lemma WholeSeq(hits: seq<Hit>)
    ensures hits[..|hits|] == hits
  {
  }

  lemma HasSegments(segments: seq<TermSegment>)
    requires ImpactsSomewhere(segments)
    ensures segments != []
  {
  }

  /** After a skip no posting is at hand. */
  lemma StandingAside(reader: PostingsIterator, hits: seq<Hit>, i: nat, j: nat, target: nat, later: nat, posting: Option<Hit>)
    requires Standing(reader, hits, i, target, posting) && target < later && j <= |hits|
    ensures Standing(reader, hits, j, later, None)
  {
  }

  lemma AllBelow(hits: seq<Hit>, target: nat, i: nat)
    requires CutAt(hits, target, i) && forall h :: h in hits ==> h.number < target
    ensures i == |hits| && hits[..i] == hits
  {
    FromEnds(hits, target);
  }

  lemma SkipBlock(hits: seq<Hit>, i: nat, target: nat, best: seq<Match>, score: Score, size: nat, a: Answer) returns (j: nat)
    requires Rising(score) && 0 < size && Numbered(hits) && CutAt(hits, target, i) && best == Best(hits[..i], score, size) && |best| == size
    requires a.Reach? && target <= a.end && UpperBound(a.impacts, score) <= best[size - 1].score
    requires forall h :: h in hits && target <= h.number <= a.end ==> Covered(a.impacts, h.impact)
    ensures i <= j && j <= |hits| && CutAt(hits, a.end + 1, j) && best == Best(hits[..j], score, size)
  {
    hide Best, Covered;
    j := Passing(hits, a.end + 1, i);
    forall k | i <= k < j ensures Covered(a.impacts, hits[k].impact) {
      assert hits[k] in hits;
    }
    SkippedBlock(hits, i, j, best, score, size, a.impacts);
  }

  lemma ScoredUpTo(reader: PostingsIterator, hits: seq<Hit>, i: nat, h: Hit)
    requires Standing(reader, hits, i, h.number, Some(h)) && Numbered(hits)
    ensures CutAt(hits, h.number, i) && h.number < UINT64_SIZE
  {
    hide PostingsIterator.Valid, PostingsIterator.Here, PostingsIterator.Remaining;
    CutThere(hits, h.number, i);
    reader.HitsFit(h);
  }

  lemma NoBest(hits: seq<Hit>, score: Score)
    ensures Best(hits, score, 0) == []
  {
  }

  lemma NoneSeen(hits: seq<Hit>, score: Score, size: nat)
    requires Numbered(hits)
    ensures CutAt(hits, 0, 0) && Best(hits[..0], score, size) == []
  {
    CutThere(hits, 0, 0);
    assert hits[..0] == [];
  }

  lemma AllNumbered(reader: PostingsIterator)
    requires reader.Valid()
    ensures Numbered(reader.All())
  {
    HitsInOrder(reader.segments, reader.offsets, 0);
  }
}
