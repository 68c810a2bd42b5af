/** Ranking candidates by score and then identifier, while reading few identifiers. */
module CandidateRanking {
  import opened Basics
  import opened Identifiers

  type Id = string

  /** A candidate whose identifier may not have been read yet. */
  datatype Candidate = Candidate(doc: nat, score: int, id: Id, idSet: bool)

  datatype Hit = Hit(id: Id, score: int)

  /** What the index stores: the identifier of each document, or that it cannot be read. */
  type Stored = nat -> Option<Id>

  // ---------------------------------------------------------------- the documented order

  predicate Before(a: Hit, b: Hit) {
    a.score > b.score || (a.score == b.score && Less(a.id, b.id))
  }

  ghost predicate InOrder(hits: seq<Hit>) {
    forall i, j :: 0 <= i < j < |hits| ==> !Before(hits[j], hits[i])
  }

  lemma BeforeIsStrict(a: Hit, b: Hit, c: Hit)
    ensures !Before(a, a)
    ensures Before(a, b) && Before(b, c) ==> Before(a, c)
    ensures a == b || Before(a, b) || Before(b, a)
  {
    Irreflexive(a.id);
    if Less(a.id, b.id) && Less(b.id, c.id) { Transitive(a.id, b.id, c.id); }
    Total(a.id, b.id);
  }

  /** There is only one way to put hits in order. */
  lemma {:induction false} OneOrder(s: seq<Hit>, t: seq<Hit>)
    requires InOrder(s) && InOrder(t) && multiset(s) == multiset(t)
    ensures s == t
  {
    hide Before;
    if s == [] {
      assert |multiset(t)| == |multiset(s)| == 0;
    } else {
      assert s[0] in multiset(t) && t != [];
      assert t[0] in multiset(s);
      SameFirst(s, t);
      WithoutFirst(s);
      WithoutFirst(t);
      OneOrder(s[1..], t[1..]);
      assert s == [s[0]] + s[1..] && t == [t[0]] + t[1..];
    }
  }

  lemma WithoutFirst(s: seq<Hit>)
    requires s != []
    ensures multiset(s[1..]) == multiset(s) - multiset{s[0]}
  {
    assert s == [s[0]] + s[1..];
  }

  lemma SameFirst(s: seq<Hit>, t: seq<Hit>)
    requires InOrder(s) && InOrder(t) && s != [] && t != [] && s[0] in t && t[0] in s
    ensures s[0] == t[0]
  {
    BeforeIsStrict(s[0], t[0], s[0]);
    var i :| 0 <= i < |t| && t[i] == s[0];
    var j :| 0 <= j < |s| && s[j] == t[0];
    assert i == 0 || !Before(t[i], t[0]);
    assert j == 0 || !Before(s[j], s[0]);
  }

  function Place(ranked: seq<Hit>, h: Hit): seq<Hit> {
    if ranked != [] && Before(h, ranked[|ranked| - 1])
    then Place(ranked[..|ranked| - 1], h) + [ranked[|ranked| - 1]]
    else ranked + [h]
  }

  /** All hits in the documented order. */
  function Ranking(hits: seq<Hit>): seq<Hit> {
    if hits == [] then [] else Place(Ranking(hits[..|hits| - 1]), hits[|hits| - 1])
  }

  lemma {:induction false} PlaceFacts(ranked: seq<Hit>, h: Hit)
    requires InOrder(ranked)
    ensures InOrder(Place(ranked, h)) && multiset(Place(ranked, h)) == multiset(ranked) + multiset{h}
  {
    if ranked != [] {
      var init, last := ranked[..|ranked| - 1], ranked[|ranked| - 1];
      assert ranked == init + [last];
      if Before(h, last) {
        PlaceFacts(init, h);
        LastStays(init, last, h, Place(init, h));
      } else {
        AppendInOrder(ranked, h);
      }
    }
  }

  lemma LastStays(init: seq<Hit>, last: Hit, h: Hit, r: seq<Hit>)
    requires InOrder(init + [last]) && Before(h, last) && InOrder(r) && multiset(r) == multiset(init) + multiset{h}
    ensures InOrder(r + [last])
  {
    hide Before;
    BeforeIsStrict(h, last, h);
    forall i | 0 <= i < |r| ensures !Before(last, r[i]) {
      assert r[i] in multiset(r);
      if r[i] != h {
        assert r[i] in init;
        var j :| 0 <= j < |init| && init[j] == r[i];
        assert !Before((init + [last])[|init|], (init + [last])[j]);
      }
    }
  }

  lemma AppendInOrder(ranked: seq<Hit>, h: Hit)
    requires InOrder(ranked) && ranked != [] && !Before(h, ranked[|ranked| - 1])
    ensures InOrder(ranked + [h])
  {
    hide Before;
    var last := ranked[|ranked| - 1];
    forall i | 0 <= i < |ranked| ensures !Before(h, ranked[i]) {
      BeforeIsStrict(h, ranked[i], last);
      BeforeIsStrict(ranked[i], last, h);
      BeforeIsStrict(last, h, ranked[i]);
      assert i == |ranked| - 1 || !Before(last, ranked[i]);
    }
  }

  lemma {:induction false} RankingFacts(hits: seq<Hit>)
    ensures InOrder(Ranking(hits)) && multiset(Ranking(hits)) == multiset(hits)
  {
    if hits != [] {
      RankingFacts(hits[..|hits| - 1]);
      PlaceFacts(Ranking(hits[..|hits| - 1]), hits[|hits| - 1]);
      assert hits == hits[..|hits| - 1] + [hits[|hits| - 1]];
    }
  }

  /** Any ordered arrangement is the ranking. */
  lemma RankingIs(hits: seq<Hit>, s: seq<Hit>)
    requires InOrder(s) && multiset(s) == multiset(hits)
    ensures s == Ranking(hits)
  {
    RankingFacts(hits);
    OneOrder(s, Ranking(hits));
  }

  // ---------------------------------------------------------------- candidates as hits

  function HitOf(c: Candidate, stored: Stored): Hit {
    Hit(if c.idSet then c.id else if stored(c.doc).Some? then stored(c.doc).value else "", c.score)
  }

  function HitsOf(cs: seq<Candidate>, stored: Stored): (r: seq<Hit>)
    ensures |r| == |cs| && forall i :: 0 <= i < |cs| ==> r[i] == HitOf(cs[i], stored)
  {
    if cs == [] then [] else HitsOf(cs[..|cs| - 1], stored) + [HitOf(cs[|cs| - 1], stored)]
  }

  lemma CancelOne(a: multiset<Candidate>, b: multiset<Candidate>, x: Candidate)
    requires a + multiset{x} == b + multiset{x}
    ensures a == b
  {
    assert a == (a + multiset{x}) - multiset{x};
    assert b == (b + multiset{x}) - multiset{x};
  }

  lemma HitsOfConcat(a: seq<Candidate>, b: seq<Candidate>, stored: Stored)
    ensures HitsOf(a + b, stored) == HitsOf(a, stored) + HitsOf(b, stored)
  {
    hide HitsOf;
  }

  lemma {:induction false} HitsOfPermuted(a: seq<Candidate>, b: seq<Candidate>, stored: Stored)
    requires multiset(a) == multiset(b)
    ensures multiset(HitsOf(a, stored)) == multiset(HitsOf(b, stored))
    decreases |a|
  {
    hide HitsOf, HitOf;
    if a == [] {
      assert |multiset(b)| == |multiset(a)| == 0;
    } else {
      var x, init := a[|a| - 1], a[..|a| - 1];
      assert a == init + [x];
      var front, back := Around(init, x, b);
      HitsOfPermuted(init, front + back, stored);
      HitsOfAround(front, x, back, stored);
      HitsOfConcat(init, [x], stored);
      HitsOfOne(x, stored);
    }
  }

  /** Where an element of one arrangement is in the other. */
  lemma Around(init: seq<Candidate>, x: Candidate, b: seq<Candidate>) returns (front: seq<Candidate>, back: seq<Candidate>)
    requires multiset(init + [x]) == multiset(b)
    ensures b == front + [x] + back && multiset(init) == multiset(front + back)
  {
    assert x in multiset(b);
    var i :| 0 <= i < |b| && b[i] == x;
    front, back := b[..i], b[i + 1..];
    assert b == front + [x] + back;
    assert multiset(init + [x]) == multiset(init) + multiset{x};
    AroundCounts(front, x, back);
    CancelOne(multiset(init), multiset(front + back), x);
  }

  lemma AroundCounts(front: seq<Candidate>, x: Candidate, back: seq<Candidate>)
    ensures multiset(front + [x] + back) == multiset(front + back) + multiset{x}
  {
  }

  lemma MultisetAround(a: seq<Hit>, h: Hit, b: seq<Hit>)
    ensures multiset(a + [h] + b) == multiset(a + b) + multiset{h}
  {
  }

  lemma HitsOfAround(front: seq<Candidate>, x: Candidate, back: seq<Candidate>, stored: Stored)
    ensures multiset(HitsOf(front + [x] + back, stored)) == multiset(HitsOf(front + back, stored)) + multiset{HitOf(x, stored)}
  {
    hide HitsOf, HitOf;
    calc {
      multiset(HitsOf(front + [x] + back, stored));
      { HitsOfConcat(front + [x], back, stored); HitsOfConcat(front, [x], stored); HitsOfOne(x, stored); }
      multiset(HitsOf(front, stored) + [HitOf(x, stored)] + HitsOf(back, stored));
      { MultisetAround(HitsOf(front, stored), HitOf(x, stored), HitsOf(back, stored)); }
      multiset(HitsOf(front, stored) + HitsOf(back, stored)) + multiset{HitOf(x, stored)};
      { HitsOfConcat(front, back, stored); }
      multiset(HitsOf(front + back, stored)) + multiset{HitOf(x, stored)};
    }
  }

  lemma HitsOfOne(c: Candidate, stored: Stored)
    ensures HitsOf([c], stored) == [HitOf(c, stored)]
  {
  }

  // ---------------------------------------------------------------- sorting and searching

  ghost predicate Comparator(before: (Candidate, Candidate) -> bool) {
    && (forall a, b :: before(a, b) ==> !before(b, a))
    && (forall a, b, c :: !before(b, a) && !before(c, b) ==> !before(c, a))
  }

  ghost predicate SortedBy(cs: seq<Candidate>, before: (Candidate, Candidate) -> bool) {
    forall i, j :: 0 <= i < j < |cs| ==> !before(cs[j], cs[i])
  }

  /** Some sorted arrangement; nothing is promised about equal candidates. */
  method SortFunc(cs: seq<Candidate>, before: (Candidate, Candidate) -> bool) returns (r: seq<Candidate>)
    requires Comparator(before)
    ensures multiset(r) == multiset(cs) && |r| == |cs| && SortedBy(r, before)
  {
    r := [];
    for i := 0 to |cs|
      invariant |r| == i && multiset(r) == multiset(cs[..i]) && SortedBy(r, before)
    {
      var x, k := cs[i], |r|;
      while k > 0 && before(x, r[k - 1])
        invariant 0 <= k <= |r|
        invariant forall j :: k <= j < |r| ==> before(x, r[j])
      {
        k := k - 1;
      }
      assert cs[..i + 1] == cs[..i] + [x];
      InsertSorted(r, x, k, before);
      assert r == r[..k] + r[k..];
      r := r[..k] + [x] + r[k..];
    }
    assert cs[..|cs|] == cs;
  }

  lemma InsertSorted(r: seq<Candidate>, x: Candidate, k: nat, before: (Candidate, Candidate) -> bool)
    requires Comparator(before) && SortedBy(r, before) && k <= |r|
    requires forall j :: k <= j < |r| ==> before(x, r[j])
    requires k == 0 || !before(x, r[k - 1])
    ensures SortedBy(r[..k] + [x] + r[k..], before)
  {
    forall j | 0 <= j < k ensures !before(x, r[j]) {
      assert j == k - 1 || !before(r[k - 1], r[j]);
    }
    forall j | k <= j < |r| ensures !before(r[j], x) { assert before(x, r[j]); }
  }

  /** The first index from which a property holds. */
  method Search(n: nat, holds: nat -> bool) returns (at: nat)
    requires forall i, j :: 0 <= i < j < n && holds(i) ==> holds(j)
    ensures at <= n && (forall i :: 0 <= i < at ==> !holds(i)) && (forall i :: at <= i < n ==> holds(i))
  {
    var low, high := 0, n;
    while low < high
      invariant 0 <= low <= high <= n
      invariant forall i :: 0 <= i < low ==> !holds(i)
      invariant forall i :: high <= i < n ==> holds(i)
    {
      var middle := (low + high) / 2;
      if !holds(middle) {
        low := middle + 1;
      } else {
        high := middle;
      }
    }
    at := low;
  }

  predicate HigherScore(a: Candidate, b: Candidate) {
    a.score > b.score
  }

  predicate ScoreThenId(a: Candidate, b: Candidate) {
    a.score > b.score || (a.score == b.score && Less(a.id, b.id))
  }

  predicate SmallerId(a: Candidate, b: Candidate) {
    Less(a.id, b.id)
  }

  lemma NotLessTransitive(a: Id, b: Id, c: Id)
    requires !Less(b, a) && !Less(c, b)
    ensures !Less(c, a)
  {
    Total(a, b);
    Total(b, c);
    if Less(c, a) {
      if a == b { } else if b == c { } else { Transitive(a, b, c); Asymmetric(a, c); }
    }
  }

  lemma Comparators()
    ensures Comparator(HigherScore) && Comparator(ScoreThenId) && Comparator(SmallerId)
  {
    forall a: Candidate, b: Candidate | Less(a.id, b.id) ensures !Less(b.id, a.id) { Asymmetric(a.id, b.id); }
    forall a: Candidate, b: Candidate, c: Candidate | !Less(b.id, a.id) && !Less(c.id, b.id) ensures !Less(c.id, a.id) {
      NotLessTransitive(a.id, b.id, c.id);
    }
  }

  // ---------------------------------------------------------------- ranking

  /** Reads the missing identifiers. */
  method ResolveIds(cs: seq<Candidate>, stored: Stored) returns (r: Option<seq<Candidate>>, ghost read: set<nat>)
    ensures r.None? <==> exists c :: c in cs && !c.idSet && stored(c.doc).None?
    ensures r.Some? ==> |r.value| == |cs| && HitsOf(r.value, stored) == HitsOf(cs, stored)
    ensures r.Some? ==> forall i :: 0 <= i < |cs| ==> r.value[i].idSet && r.value[i].id == HitOf(cs[i], stored).id
    ensures forall d :: d in read ==> exists c :: c in cs && !c.idSet && c.doc == d
  {
    var out: seq<Candidate> := [];
    read := {};
    for i := 0 to |cs|
      invariant |out| == i
      invariant forall j :: 0 <= j < i ==> HitOf(out[j], stored) == HitOf(cs[j], stored) && out[j].idSet
      invariant forall j :: 0 <= j < i ==> cs[j].idSet || stored(cs[j].doc).Some?
      invariant forall d :: d in read ==> exists c :: c in cs && !c.idSet && c.doc == d
    {
      var c := cs[i];
      if c.idSet {
        out := out + [c];
      } else {
        read := read + {c.doc};
        var id := stored(c.doc);
        if id.None? {
          return None, read;
        }
        out := out + [Candidate(c.doc, c.score, id.value, true)];
      }
    }
    r := Some(out);
  }

  function Take(hits: seq<Hit>, k: nat): seq<Hit> {
    if |hits| <= k then hits else hits[..k]
  }

  /** No fewer than k slots, or a score no lower than the k-th of the ranking. */
  ghost predicate MayRank(cs: seq<Candidate>, stored: Stored, k: nat, c: Candidate)
    requires k > 0
  {
    |cs| <= k || (RankedSize(HitsOf(cs, stored)); c.score >= Ranking(HitsOf(cs, stored))[k - 1].score)
  }

  function Higher(hits: seq<Hit>, score: int): nat {
    if hits == [] then 0
    else Higher(hits[..|hits| - 1], score) + if hits[|hits| - 1].score > score then 1 else 0
  }

  lemma {:induction false} HigherConcat(a: seq<Hit>, b: seq<Hit>, score: int)
    ensures Higher(a + b, score) == Higher(a, score) + Higher(b, score)
  {
    if b == [] {
      assert a + b == a;
    } else {
      assert (a + b)[..|a + b| - 1] == a + b[..|b| - 1];
      HigherConcat(a, b[..|b| - 1], score);
    }
  }

  lemma {:induction false} HigherBounds(hits: seq<Hit>, score: int)
    ensures Higher(hits, score) <= |hits|
    ensures (forall i :: 0 <= i < |hits| ==> hits[i].score > score) ==> Higher(hits, score) == |hits|
    ensures (forall i :: 0 <= i < |hits| ==> hits[i].score <= score) ==> Higher(hits, score) == 0
  {
    if hits != [] { HigherBounds(hits[..|hits| - 1], score); }
  }

  lemma {:induction false} HigherPlaced(ranked: seq<Hit>, h: Hit, score: int)
    ensures Higher(Place(ranked, h), score) == Higher(ranked, score) + if h.score > score then 1 else 0
  {
    hide Before;
    if ranked != [] && Before(h, ranked[|ranked| - 1]) {
      HigherPlaced(ranked[..|ranked| - 1], h, score);
    }
  }

  lemma {:induction false} HigherRanked(hits: seq<Hit>, score: int)
    ensures Higher(Ranking(hits), score) == Higher(hits, score)
  {
    if hits != [] {
      HigherRanked(hits[..|hits| - 1], score);
      HigherPlaced(Ranking(hits[..|hits| - 1]), hits[|hits| - 1], score);
    }
  }

  lemma {:induction false} HigherLess(hits: seq<Hit>, own: nat, score: int)
    requires own < |hits| && hits[own].score <= score
    ensures Higher(hits, score) < |hits|
  {
    if own < |hits| - 1 { HigherLess(hits[..|hits| - 1], own, score); } else { HigherBounds(hits[..own], score); }
  }

  /** The candidates that score higher, by position. */
  ghost function Above(cs: seq<Candidate>, score: int): set<nat> {
    set i: nat | i < |cs| && cs[i].score > score
  }

  lemma AboveSnoc(init: seq<Candidate>, last: Candidate, score: int)
    ensures Above(init + [last], score) == if last.score > score then Above(init, score) + {|init|} else Above(init, score)
  {
  }

  lemma {:induction false} HigherCounts(cs: seq<Candidate>, stored: Stored, score: int)
    ensures Higher(HitsOf(cs, stored), score) == |Above(cs, score)|
  {
    hide Above;
    if cs == [] {
      NoneAbove(score);
    } else {
      var init, last := cs[..|cs| - 1], cs[|cs| - 1];
      HigherCounts(init, stored, score);
      AboveSnoc(init, last, score);
      AboveInRange(init, score);
      assert cs == init + [last];
      assert HitsOf(cs, stored)[..|init|] == HitsOf(init, stored);
    }
  }

  lemma NoneAbove(score: int)
    ensures Above([], score) == {}
  {
  }

  lemma AboveInRange(cs: seq<Candidate>, score: int)
    ensures |cs| !in Above(cs, score)
  {
  }

  /** A candidate may rank exactly when fewer than k candidates score higher. */
  lemma MayRankExactly(cs: seq<Candidate>, stored: Stored, k: nat, c: Candidate)
    requires k > 0 && c in cs
    ensures MayRank(cs, stored, k, c) <==> |set i: nat | i < |cs| && cs[i].score > c.score| < k
  {
    hide Ranking, HitsOf, Higher, HitOf, InOrder;
    var hits, score := HitsOf(cs, stored), c.score;
    HigherCounts(cs, stored, score);
    assert Above(cs, score) == set i: nat | i < |cs| && cs[i].score > score;
    if |cs| <= k {
      var own :| 0 <= own < |cs| && cs[own] == c;
      ScoreOfHit(cs, stored, own);
      HigherLess(hits, own, score);
    } else {
      HigherRanked(hits, score);
      RankingFacts(hits);
      RankedSize(hits);
      HigherInOrder(Ranking(hits), k, score);
    }
  }

  lemma ScoreOfHit(cs: seq<Candidate>, stored: Stored, i: nat)
    requires i < |cs|
    ensures |HitsOf(cs, stored)| == |cs| && HitsOf(cs, stored)[i].score == cs[i].score
  {
  }

  lemma HigherInOrder(ranked: seq<Hit>, k: nat, score: int)
    requires InOrder(ranked) && 0 < k <= |ranked|
    ensures Higher(ranked, score) < k <==> ranked[k - 1].score <= score
  {
    hide Higher;
    forall i, j | 0 <= i <= j < |ranked| ensures ranked[i].score >= ranked[j].score {
      assert i == j || !Before(ranked[j], ranked[i]);
    }
    var m := if ranked[k - 1].score > score then k else k - 1;
    assert ranked == ranked[..m] + ranked[m..];
    HigherConcat(ranked[..m], ranked[m..], score);
    HigherBounds(ranked[..m], score);
    HigherBounds(ranked[m..], score);
  }

  /** What ranking all candidates and taking k gives, said without it. */
  lemma TakenFacts(cs: seq<Candidate>, stored: Stored, k: nat) returns (rest: seq<Hit>)
    ensures
      var r := Take(Ranking(HitsOf(cs, stored)), k);
      && |r| == (if |cs| < k then |cs| else k)
      && (forall i, j :: 0 <= i < j < |r| ==> r[i].score > r[j].score || (r[i].score == r[j].score && !Less(r[j].id, r[i].id)))
      && multiset(r + rest) == multiset(HitsOf(cs, stored))
      && forall h, x :: h in r && x in rest ==> h.score > x.score || (h.score == x.score && !Less(x.id, h.id))
  {
    hide Ranking, HitsOf, Less;
    var ranked := Ranking(HitsOf(cs, stored));
    RankingFacts(HitsOf(cs, stored));
    RankedSize(HitsOf(cs, stored));
    assert forall i, j :: 0 <= i < j < |ranked| ==> !Before(ranked[j], ranked[i]);
    var r := Take(ranked, k);
    rest := ranked[|r|..];
    assert r + rest == ranked;
    forall h, x | h in r && x in rest ensures !Before(x, h) {
      var i :| 0 <= i < |r| && r[i] == h;
      var j :| 0 <= j < |rest| && rest[j] == x;
      assert ranked[i] == h && ranked[|r| + j] == x;
    }
  }

  lemma RankedSize(hits: seq<Hit>)
    ensures |Ranking(hits)| == |hits|
  {
    RankingFacts(hits);
    assert |multiset(Ranking(hits))| == |multiset(hits)|;
  }

  /** Ranking group by group when every score of a group is above those of the next. */
  lemma RankingByGroups(a: seq<Hit>, b: seq<Hit>)
    requires forall x, y :: x in a && y in b ==> x.score > y.score
    ensures Ranking(a + b) == Ranking(a) + Ranking(b)
  {
    hide Ranking, InOrder, Before;
    RankingFacts(a);
    RankingFacts(b);
    ConcatOrder(a, b, Ranking(a), Ranking(b));
    RankingIs(a + b, Ranking(a) + Ranking(b));
  }

  lemma ConcatOrder(a: seq<Hit>, b: seq<Hit>, s: seq<Hit>, t: seq<Hit>)
    requires forall x, y :: x in a && y in b ==> x.score > y.score
    requires InOrder(s) && InOrder(t) && multiset(s) == multiset(a) && multiset(t) == multiset(b)
    ensures InOrder(s + t) && multiset(s + t) == multiset(a + b)
  {
    forall i, j | 0 <= i < |s| && 0 <= j < |t| ensures !Before(t[j], s[i]) {
      assert s[i] in multiset(a) && t[j] in multiset(b);
    }
    assert multiset(a + b) == multiset(a) + multiset(b);
  }

  /** Candidates sorted after their identifiers are read give their ranking. */
  lemma SortedIsRanking(resolved: seq<Candidate>, sorted: seq<Candidate>, stored: Stored)
    requires multiset(sorted) == multiset(resolved) && forall c :: c in resolved ==> c.idSet
    requires SortedBy(sorted, ScoreThenId)
    ensures HitsOf(sorted, stored) == Ranking(HitsOf(resolved, stored))
  {
    hide Ranking, Less;
    HitsOfPermuted(sorted, resolved, stored);
    forall c | c in sorted ensures c.idSet { assert c in multiset(resolved); }
    var hits := HitsOf(sorted, stored);
    forall i, j | 0 <= i < j < |hits| ensures !Before(hits[j], hits[i]) {
      assert !ScoreThenId(sorted[j], sorted[i]);
    }
    RankingIs(HitsOf(resolved, stored), hits);
  }

  lemma SortedTies(sorted: seq<Candidate>, score: int)
    requires SortedBy(sorted, SmallerId) && forall c :: c in sorted ==> c.score == score
    ensures SortedBy(sorted, ScoreThenId)
  {
    forall i, j | 0 <= i < j < |sorted| ensures !ScoreThenId(sorted[j], sorted[i]) {
      assert !SmallerId(sorted[j], sorted[i]);
      assert sorted[i] in sorted && sorted[j] in sorted;
    }
  }

  /** The score groups around the k-th candidate in score order. */
  ghost predicate Groups(byScore: seq<Candidate>, above: nat, tiedEnd: nat, cutoff: int) {
    && above <= tiedEnd <= |byScore|
    && (forall i :: 0 <= i < above ==> byScore[i].score > cutoff)
    && (forall i :: above <= i < tiedEnd ==> byScore[i].score == cutoff)
    && (forall i :: tiedEnd <= i < |byScore| ==> byScore[i].score < cutoff)
  }

  lemma GroupRanking(cs: seq<Candidate>, byScore: seq<Candidate>, above: nat, tiedEnd: nat, cutoff: int, stored: Stored)
    requires multiset(byScore) == multiset(cs) && Groups(byScore, above, tiedEnd, cutoff)
    ensures
      Ranking(HitsOf(cs, stored)) ==
        Ranking(HitsOf(byScore[..above], stored)) + Ranking(HitsOf(byScore[above..tiedEnd], stored)) +
        Ranking(HitsOf(byScore[tiedEnd..], stored))
  {
    hide Ranking, InOrder, HitsOf;
    var a, b, c := HitsOf(byScore[..above], stored), HitsOf(byScore[above..tiedEnd], stored), HitsOf(byScore[tiedEnd..], stored);
    HitsOfPermuted(byScore, cs, stored);
    RankingFacts(HitsOf(byScore, stored));
    RankingIs(HitsOf(cs, stored), Ranking(HitsOf(byScore, stored)));
    GroupHits(byScore, above, tiedEnd, cutoff, stored);
    RankingByGroups(a + b, c);
    RankingByGroups(a, b);
  }

  lemma GroupHits(byScore: seq<Candidate>, above: nat, tiedEnd: nat, cutoff: int, stored: Stored)
    requires Groups(byScore, above, tiedEnd, cutoff)
    ensures
      var a, b, c := HitsOf(byScore[..above], stored), HitsOf(byScore[above..tiedEnd], stored), HitsOf(byScore[tiedEnd..], stored);
      && HitsOf(byScore, stored) == a + b + c
      && (forall x :: x in a ==> x.score > cutoff) && (forall x :: x in b ==> x.score == cutoff)
      && (forall x :: x in c ==> x.score < cutoff)
  {
    hide HitsOf;
    var a, b, c := HitsOf(byScore[..above], stored), HitsOf(byScore[above..tiedEnd], stored), HitsOf(byScore[tiedEnd..], stored);
    assert byScore == byScore[..above] + byScore[above..tiedEnd] + byScore[tiedEnd..];
    HitsOfConcat(byScore[..above] + byScore[above..tiedEnd], byScore[tiedEnd..], stored);
    HitsOfConcat(byScore[..above], byScore[above..tiedEnd], stored);
    forall x | x in a ensures x.score > cutoff { var i :| 0 <= i < |a| && a[i] == x; }
    forall x | x in b ensures x.score == cutoff { var i :| 0 <= i < |b| && b[i] == x; }
    forall x | x in c ensures x.score < cutoff { var i :| 0 <= i < |c| && c[i] == x; }
  }

  /** The scores of a ranked tied group are all the cutoff. */
  lemma TiedRanking(tied: seq<Candidate>, cutoff: int, stored: Stored)
    requires forall c :: c in tied ==> c.score == cutoff
    ensures forall h :: h in Ranking(HitsOf(tied, stored)) ==> h.score == cutoff
    ensures |Ranking(HitsOf(tied, stored))| == |tied|
  {
    var hits := HitsOf(tied, stored);
    RankingFacts(hits);
    RankedSize(hits);
    forall h | h in Ranking(hits) ensures h.score == cutoff {
      assert h in multiset(Ranking(hits));
      var i :| 0 <= i < |hits| && hits[i] == h;
      assert tied[i] in tied;
    }
  }

  lemma HitsSize(cs: seq<Candidate>, stored: Stored)
    ensures |Ranking(HitsOf(cs, stored))| == |HitsOf(cs, stored)| == |cs|
  {
    RankedSize(HitsOf(cs, stored));
  }

  /** The k-th place of the ranking has the cutoff's score. */
  lemma KthScore(cs: seq<Candidate>, byScore: seq<Candidate>, above: nat, tiedEnd: nat, cutoff: int, k: nat, stored: Stored)
    requires multiset(byScore) == multiset(cs) && Groups(byScore, above, tiedEnd, cutoff)
    requires above < k <= tiedEnd && k < |cs|
    ensures k - above <= |Ranking(HitsOf(byScore[above..tiedEnd], stored))|
    ensures |Ranking(HitsOf(cs, stored))| == |cs| && Ranking(HitsOf(cs, stored))[k - 1].score == cutoff
    ensures forall c :: MayRank(cs, stored, k, c) <==> c.score >= cutoff
    ensures Take(Ranking(HitsOf(cs, stored)), k) ==
      Ranking(HitsOf(byScore[..above], stored)) + Ranking(HitsOf(byScore[above..tiedEnd], stored))[..k - above]
  {
    hide Ranking, HitsOf;
    var tied := byScore[above..tiedEnd];
    forall c | c in tied ensures c.score == cutoff { var i :| 0 <= i < |tied| && tied[i] == c; }
    GroupRanking(cs, byScore, above, tiedEnd, cutoff, stored);
    TiedRanking(tied, cutoff, stored);
    HitsSize(byScore[..above], stored);
    HitsSize(cs, stored);
    var r := Ranking(HitsOf(tied, stored));
    assert Ranking(HitsOf(cs, stored))[k - 1] == r[k - 1 - above];
    assert r[k - 1 - above] in r;
  }

  method SplitByScore(cs: seq<Candidate>, k: nat) returns (byScore: seq<Candidate>, above: nat, tiedEnd: nat, cutoff: int)
    requires 0 < k < |cs|
    ensures multiset(byScore) == multiset(cs) && |byScore| == |cs|
    ensures Groups(byScore, above, tiedEnd, cutoff) && above < k <= tiedEnd
  {
    Comparators();
    byScore := SortFunc(cs, HigherScore);
    assert forall i, j :: 0 <= i < j < |byScore| ==> byScore[i].score >= byScore[j].score by {
      forall i, j | 0 <= i < j < |byScore| ensures byScore[i].score >= byScore[j].score {
        assert !HigherScore(byScore[j], byScore[i]);
      }
    }
    cutoff := byScore[k - 1].score;
    ScoresFall(byScore);
    above, tiedEnd := Cutoffs(byScore, byScore[k - 1].score);
  }

  lemma ScoresFall(cs: seq<Candidate>)
    requires SortedBy(cs, HigherScore)
    ensures forall i, j :: 0 <= i < j < |cs| ==> cs[i].score >= cs[j].score
  {
    forall i, j | 0 <= i < j < |cs| ensures cs[i].score >= cs[j].score { assert !HigherScore(cs[j], cs[i]); }
  }

  method Cutoffs(byScore: seq<Candidate>, cutoff: int) returns (above: nat, tiedEnd: nat)
    requires forall i, j :: 0 <= i < j < |byScore| ==> byScore[i].score >= byScore[j].score
    ensures Groups(byScore, above, tiedEnd, cutoff)
  {
    var notAbove: nat -> bool := (i: nat) => i < |byScore| && byScore[i].score <= cutoff;
    above := Search(|byScore|, notAbove);
    var start := above;
    var below: nat -> bool := (i: nat) => start + i < |byScore| && byScore[start + i].score < cutoff;
    var ties := Search(|byScore| - above, below);
    tiedEnd := above + ties;
    forall i | 0 <= i < above ensures byScore[i].score > cutoff { assert !notAbove(i); }
    forall i | above <= i < tiedEnd ensures byScore[i].score == cutoff { assert notAbove(i) && !below(i - above); }
    forall i | tiedEnd <= i < |byScore| ensures byScore[i].score < cutoff { assert below(i - above); }
  }

  /** The first k of all candidates in the documented order, `rest` being the others. No
      identifier is read of a candidate that scores below the k-th. */
  method RankCandidates(cs: seq<Candidate>, k: nat, stored: Stored)
    returns (r: Option<seq<Hit>>, ghost read: set<nat>, ghost rest: seq<Hit>)
    requires k > 0
    ensures r.Some? ==> r.value == Take(Ranking(HitsOf(cs, stored)), k)
    ensures r.Some? ==>
      && |r.value| == (if |cs| < k then |cs| else k)
      && (forall i, j :: 0 <= i < j < |r.value| ==>
            r.value[i].score > r.value[j].score || (r.value[i].score == r.value[j].score && !Less(r.value[j].id, r.value[i].id)))
      && multiset(r.value + rest) == multiset(HitsOf(cs, stored))
      && forall h, x :: h in r.value && x in rest ==> h.score > x.score || (h.score == x.score && !Less(x.id, h.id))
    ensures forall d :: d in read ==> exists c :: c in cs && !c.idSet && c.doc == d && MayRank(cs, stored, k, c)
    ensures r.None? <==> exists c :: c in cs && !c.idSet && stored(c.doc).None? && MayRank(cs, stored, k, c)
  {
    hide Ranking, HitsOf, Less, ScoreThenId, SmallerId, Groups, Higher, Before, HitOf, InOrder, SortedBy, Comparator,
         Take, MayRank;
    Comparators();
    rest := TakenFacts(cs, stored, k);
    if |cs| <= k {
      FewMayRank(cs, stored, k);
      var all, readAll := ResolveIds(cs, stored);
      read := readAll;
      if all.None? {
        return None, read, rest;
      }
      var sorted := SortFunc(all.value, ScoreThenId);
      SortedIsRanking(all.value, sorted, stored);
      return Some(HitsOf(sorted, stored)), read, rest;
    }
    var byScore, above, tiedEnd, cutoff := SplitByScore(cs, k);
    KthScore(cs, byScore, above, tiedEnd, cutoff, k, stored);
    GroupMembers(cs, byScore, above, tiedEnd, cutoff);
    var selected, readSelected := ResolveIds(byScore[..above], stored);
    read := readSelected;
    if selected.None? {
      return None, read, rest;
    }
    var tied, readTied := ResolveIds(byScore[above..tiedEnd], stored);
    read := read + readTied;
    if tied.None? {
      return None, read, rest;
    }
    var hits := JoinGroups(byScore[..above], selected.value, byScore[above..tiedEnd], tied.value, cutoff, k - above, stored);
    r := Some(hits);
  }

  /** The better candidates in order, and then the first of those at the cutoff. */
  method JoinGroups(ghost above: seq<Candidate>, selected: seq<Candidate>, ghost at: seq<Candidate>, tied: seq<Candidate>,
                    ghost cutoff: int, keep: nat, stored: Stored)
    returns (hits: seq<Hit>)
    requires |selected| == |above| && HitsOf(selected, stored) == HitsOf(above, stored) && forall c :: c in selected ==> c.idSet
    requires |tied| == |at| && HitsOf(tied, stored) == HitsOf(at, stored) && forall c :: c in tied ==> c.idSet
    requires (forall i :: 0 <= i < |at| ==> at[i].score == cutoff) && keep <= |tied|
    ensures keep <= |Ranking(HitsOf(at, stored))|
    ensures hits == Ranking(HitsOf(above, stored)) + Ranking(HitsOf(at, stored))[..keep]
  {
    hide Ranking, HitsOf, Less, ScoreThenId, SmallerId, HitOf, InOrder, SortedBy, Comparator;
    Comparators();
    var sortedSelected := SortFunc(selected, ScoreThenId);
    SortedIsRanking(selected, sortedSelected, stored);
    var sortedTied := SortFunc(tied, SmallerId);
    TiesStay(at, tied, sortedTied, cutoff, stored);
    SortedTies(sortedTied, cutoff);
    SortedIsRanking(tied, sortedTied, stored);
    RankedSize(HitsOf(at, stored));
    FirstHits(sortedTied, keep, stored);
    hits := HitsOf(sortedSelected, stored) + HitsOf(sortedTied[..keep], stored);
  }

  lemma FirstHits(cs: seq<Candidate>, keep: nat, stored: Stored)
    requires keep <= |cs|
    ensures HitsOf(cs[..keep], stored) == HitsOf(cs, stored)[..keep]
  {
  }

  lemma FewMayRank(cs: seq<Candidate>, stored: Stored, k: nat)
    requires |cs| <= k && k > 0
    ensures Take(Ranking(HitsOf(cs, stored)), k) == Ranking(HitsOf(cs, stored))
    ensures forall c :: MayRank(cs, stored, k, c)
  {
    RankedSize(HitsOf(cs, stored));
  }

  lemma GroupMembers(cs: seq<Candidate>, byScore: seq<Candidate>, above: nat, tiedEnd: nat, cutoff: int)
    requires multiset(byScore) == multiset(cs) && Groups(byScore, above, tiedEnd, cutoff)
    ensures forall c :: c in byScore[..above] || c in byScore[above..tiedEnd] <==> c in cs && c.score >= cutoff
  {
    forall c ensures c in byScore[..above] || c in byScore[above..tiedEnd] <==> c in cs && c.score >= cutoff {
      assert c in cs <==> c in multiset(byScore);
      if c in byScore && c.score >= cutoff {
        var i :| 0 <= i < |byScore| && byScore[i] == c;
        if i < above { assert byScore[..above][i] == c; } else { assert byScore[above..tiedEnd][i - above] == c; }
      }
    }
  }

  lemma TiesStay(tied: seq<Candidate>, resolved: seq<Candidate>, sorted: seq<Candidate>, cutoff: int, stored: Stored)
    requires |resolved| == |tied| && HitsOf(resolved, stored) == HitsOf(tied, stored)
    requires multiset(sorted) == multiset(resolved) && forall i :: 0 <= i < |tied| ==> tied[i].score == cutoff
    ensures forall c :: c in sorted ==> c.score == cutoff
  {
    forall c | c in sorted ensures c.score == cutoff {
      assert c in multiset(resolved);
      var i :| 0 <= i < |resolved| && resolved[i] == c;
      assert HitsOf(resolved, stored)[i].score == HitsOf(tied, stored)[i].score;
    }
  }
}
