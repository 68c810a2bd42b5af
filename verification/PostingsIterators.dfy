/** The iterator over one term's postings in every segment of a snapshot. */
module PostingsIterators {
  import opened Basics
  import opened Impacts
  import opened ImpactCoding
  import opened ImpactDecoding
  import opened TermSegments

  /** A posting under its global number. */
  datatype Hit = Hit(number: nat, impact: Impact)

  function Shift(ps: seq<Posting>, offset: nat): (r: seq<Hit>)
    ensures |r| == |ps| && forall i :: 0 <= i < |ps| ==> r[i] == Hit(ps[i].doc + offset, ps[i].impact)
  {
    if ps == [] then [] else [Hit(ps[0].doc + offset, ps[0].impact)] + Shift(ps[1..], offset)
  }

  ghost predicate Positions(segments: seq<TermSegment>, offsets: seq<nat>, positions: seq<nat>) {
    && |segments| == |offsets| == |positions|
    && forall k :: 0 <= k < |segments| ==> positions[k] <= |LiveOf(segments[k])|
  }

  ghost function Left(s: TermSegment, offset: nat, position: nat): seq<Hit>
    requires position <= |LiveOf(s)|
  {
    Shift(LiveOf(s)[position..], offset)
  }

  /** The hits from the k-th segment on, each segment read from its position. */
  ghost function HitsFrom(segments: seq<TermSegment>, offsets: seq<nat>, positions: seq<nat>, k: nat): seq<Hit>
    requires Positions(segments, offsets, positions)
    decreases |segments| - k
  {
    if k >= |segments| then []
    else Left(segments[k], offsets[k], positions[k]) + HitsFrom(segments, offsets, positions, k + 1)
  }

  function Zeros(n: nat): seq<nat> {
    seq(n, _ => 0)
  }

  /** Every live posting of the term, in order. */
  ghost function AllHits(segments: seq<TermSegment>, offsets: seq<nat>): seq<Hit>
    requires |segments| == |offsets|
  {
    HitsFrom(segments, offsets, Zeros(|segments|), 0)
  }

  function From(hits: seq<Hit>, number: nat): seq<Hit> {
    if hits == [] then []
    else (if hits[0].number >= number then [hits[0]] else []) + From(hits[1..], number)
  }

  lemma {:induction false} FromConcat(a: seq<Hit>, b: seq<Hit>, number: nat)
    ensures From(a + b, number) == From(a, number) + From(b, number)
  {
    if a == [] {
      assert a + b == b;
    } else {
      assert (a + b)[1..] == a[1..] + b && (a + b)[0] == a[0];
      FromConcat(a[1..], b, number);
      Assoc(if a[0].number >= number then [a[0]] else [], From(a[1..], number), From(b, number));
    }
  }

  lemma {:induction false} FromEnds(hits: seq<Hit>, number: nat)
    ensures (forall h :: h in hits ==> h.number >= number) ==> From(hits, number) == hits
    ensures (forall h :: h in hits ==> h.number < number) ==> From(hits, number) == []
  {
    if hits != [] {
      FromEnds(hits[1..], number);
      assert hits[0] in hits && forall h :: h in hits[1..] ==> h in hits;
      assert hits == [hits[0]] + hits[1..];
    }
  }

  lemma {:induction false} CutParts(hits: seq<Hit>, number: nat, i: nat)
    requires i <= |hits|
    requires forall k :: 0 <= k < i ==> hits[k].number < number
    requires forall k :: i <= k < |hits| ==> number <= hits[k].number
    ensures From(hits, number) == hits[i..]
  {
    if i == 0 {
      assert hits[0..] == hits;
      FromEnds(hits, number);
    } else {
      var rest := hits[1..];
      assert hits[0].number < number && rest[i - 1..] == hits[i..];
      CutParts(rest, number, i - 1);
      assert From(hits, number) == From(rest, number);
    }
  }

  // ---------------------------------------------------------------- moving the positions

  lemma ShiftSplit(ps: seq<Posting>, offset: nat, i: nat)
    requires i <= |ps|
    ensures Shift(ps, offset) == Shift(ps[..i], offset) + Shift(ps[i..], offset)
  {
    var a, b := Shift(ps[..i], offset), Shift(ps[i..], offset);
    forall j | 0 <= j < |ps| ensures Shift(ps, offset)[j] == (a + b)[j] {
      if j >= i { assert ps[i..][j - i] == ps[j]; }
    }
  }

  /** Moving a position forward over postings below the number, to one at or after it. */
  lemma {:induction false} MovedIsFrom(s: TermSegment, offset: nat, from: nat, to: nat, number: nat)
    requires from <= to <= |LiveOf(s)|
    requires forall i :: from <= i < to ==> LiveOf(s)[i].doc + offset < number
    requires forall i :: to <= i < |LiveOf(s)| ==> LiveOf(s)[i].doc + offset >= number
    ensures From(Left(s, offset, from), number) == Left(s, offset, to)
    decreases |LiveOf(s)| - from
  {
    hide LiveOf;
    if from == to {
      FromEnds(Left(s, offset, to), number);
    } else {
      MovedIsFrom(s, offset, from + 1, to, number);
      LeftStep(s, offset, from);
      assert Left(s, offset, from)[1..] == Left(s, offset, from + 1);
      assert From(Left(s, offset, from), number) == [] + From(Left(s, offset, from + 1), number);
    }
  }

  /** Segments wholly before a number add nothing at or after it. */
  lemma {:induction false} EarlierAdd(segments: seq<TermSegment>, offsets: seq<nat>, i: nat, k: nat, number: nat)
    requires |segments| == |offsets| && i <= k <= |segments|
    requires forall j :: i <= j < k ==> Passed(segments[j], offsets[j], number)
    ensures From(HitsFrom(segments, offsets, Zeros(|segments|), i), number) ==
            From(HitsFrom(segments, offsets, Zeros(|segments|), k), number)
    decreases k - i
  {
    hide Passed, LiveOf, Left, From;
    if i < k {
      EarlierAdd(segments, offsets, i + 1, k, number);
      PassedIsEmpty(segments[i], offsets[i], number);
      SkipEmpty(Left(segments[i], offsets[i], 0), HitsFrom(segments, offsets, Zeros(|segments|), i + 1), number);
    }
  }

  lemma SkipEmpty(a: seq<Hit>, b: seq<Hit>, number: nat)
    requires From(a, number) == []
    ensures From(a + b, number) == From(b, number)
  {
    FromConcat(a, b, number);
    assert [] + From(b, number) == From(b, number);
  }

  lemma PassedIsEmpty(s: TermSegment, offset: nat, number: nat)
    requires Passed(s, offset, number)
    ensures From(Left(s, offset, 0), number) == []
  {
    assert LiveOf(s)[0..] == LiveOf(s);
    FromEnds(Left(s, offset, 0), number);
  }

  /** What was taken from the segments all lies below the floor. */
  ghost predicate TakenBelow(segments: seq<TermSegment>, offsets: seq<nat>, positions: seq<nat>, floor: nat) {
    && Positions(segments, offsets, positions)
    && forall k :: 0 <= k < |segments| ==> TakenIn(segments[k], offsets[k], positions[k], floor)
  }

  ghost predicate TakenIn(s: TermSegment, offset: nat, position: nat, floor: nat) {
    position <= |LiveOf(s)| && forall i :: 0 <= i < position ==> LiveOf(s)[i].doc + offset < floor
  }

  lemma TakenBelowLater(segments: seq<TermSegment>, offsets: seq<nat>, positions: seq<nat>, floor: nat, later: nat)
    requires TakenBelow(segments, offsets, positions, floor) && floor <= later
    ensures TakenBelow(segments, offsets, positions, later)
  {
    hide LiveOf;
    forall k | 0 <= k < |segments| ensures TakenIn(segments[k], offsets[k], positions[k], later) {
      assert TakenIn(segments[k], offsets[k], positions[k], floor);
    }
  }

  lemma TakenBelowUpdate(segments: seq<TermSegment>, offsets: seq<nat>, positions: seq<nat>, floor: nat, k: nat, position: nat)
    requires TakenBelow(segments, offsets, positions, floor) && k < |segments|
    requires TakenIn(segments[k], offsets[k], position, floor)
    ensures TakenBelow(segments, offsets, positions[k := position], floor)
  {
    hide TakenIn;
    assert position <= |LiveOf(segments[k])| by { TakenInBound(segments[k], offsets[k], position, floor); }
  }

  lemma TakenInBound(s: TermSegment, offset: nat, position: nat, floor: nat)
    requires TakenIn(s, offset, position, floor)
    ensures position <= |LiveOf(s)|
  {
  }

  lemma DocsInRange(segments: seq<TermSegment>, k: nat)
    requires AllWellFormed(segments) && k < |segments|
    ensures forall p :: p in LiveOf(segments[k]) ==> p.doc < segments[k].size
    ensures Increasing(LiveOf(segments[k]))
  {
    assert segments[k] in segments;
    LiveFacts(segments[k].stored, segments[k].deleted);
  }

  /** What is left at or after a number once the k-th segment is moved to it. */
  ghost function Onward(segments: seq<TermSegment>, offsets: seq<nat>, positions: seq<nat>, k: nat, number: nat): seq<Hit>
    requires Positions(segments, offsets, positions) && k < |segments|
  {
    From(Left(segments[k], offsets[k], positions[k]), number) + HitsFrom(segments, offsets, positions, k + 1)
  }

  lemma {:induction false} SomeFrom(hits: seq<Hit>, number: nat)
    ensures From(hits, number) == [] <==> forall h :: h in hits ==> h.number < number
  {
    if hits != [] {
      SomeFrom(hits[1..], number);
      assert forall h :: h in hits <==> h == hits[0] || h in hits[1..];
    }
  }

  /** Taking postings away loses hits if and only if one taken is at or after the number. */
  lemma TakenAway(s: TermSegment, offset: nat, position: nat, number: nat)
    requires position <= |LiveOf(s)|
    ensures |From(Left(s, offset, position), number)| <= |From(Left(s, offset, 0), number)|
    ensures From(Left(s, offset, position), number) == From(Left(s, offset, 0), number) <==> TakenIn(s, offset, position, number)
  {
    hide LiveOf, From;
    var ps := LiveOf(s);
    var taken := Shift(ps[..position], offset);
    assert ps[0..] == ps;
    ShiftSplit(ps, offset, position);
    FromConcat(taken, Shift(ps[position..], offset), number);
    SomeFrom(taken, number);
    assert [] + From(Left(s, offset, position), number) == From(Left(s, offset, position), number);
    assert TakenIn(s, offset, position, number) <==> forall h :: h in taken ==> h.number < number by {
      assert forall i :: 0 <= i < position ==> taken[i] in taken && taken[i].number == ps[i].doc + offset;
    }
  }

  /** The same over all segments from the k-th on. */
  lemma {:induction false} AllTakenAway(segments: seq<TermSegment>, offsets: seq<nat>, positions: seq<nat>, k: nat, number: nat)
    requires Positions(segments, offsets, positions)
    ensures
      var left, whole := From(HitsFrom(segments, offsets, positions, k), number), From(HitsFrom(segments, offsets, Zeros(|segments|), k), number);
      && |left| <= |whole|
      && (left == whole <==> forall j :: k <= j < |segments| ==> TakenIn(segments[j], offsets[j], positions[j], number))
    decreases |segments| - k
  {
    hide LiveOf, Left, From, TakenIn;
    if k < |segments| {
      AllTakenAway(segments, offsets, positions, k + 1, number);
      TakenAway(segments[k], offsets[k], positions[k], number);
      FromConcat(Left(segments[k], offsets[k], positions[k]), HitsFrom(segments, offsets, positions, k + 1), number);
      FromConcat(Left(segments[k], offsets[k], 0), HitsFrom(segments, offsets, Zeros(|segments|), k + 1), number);
      SamePieces(From(Left(segments[k], offsets[k], positions[k]), number), From(HitsFrom(segments, offsets, positions, k + 1), number),
                 From(Left(segments[k], offsets[k], 0), number), From(HitsFrom(segments, offsets, Zeros(|segments|), k + 1), number));
    }
  }

  lemma SamePieces(a: seq<Hit>, b: seq<Hit>, c: seq<Hit>, d: seq<Hit>)
    requires |a| <= |c| && |b| <= |d|
    ensures a + b == c + d <==> a == c && b == d
  {
    if a + b == c + d {
      assert |a| == |c|;
      assert (a + b)[..|a|] == a && (c + d)[..|c|] == c && (a + b)[|a|..] == b && (c + d)[|c|..] == d;
    }
  }

  lemma {:induction false} LaterHits(segments: seq<TermSegment>, offsets: seq<nat>, positions: seq<nat>, k: nat, number: nat)
    requires Positions(segments, offsets, positions) && forall j :: k <= j < |segments| ==> number <= offsets[j]
    ensures forall h :: h in HitsFrom(segments, offsets, positions, k) ==> h.number >= number
    decreases |segments| - k
  {
    hide LiveOf;
    if k < |segments| { LaterHits(segments, offsets, positions, k + 1, number); }
  }

  /** Going on to the segment of a number finds every hit from the number on, if and only
      if none of them was taken before. */
  lemma JumpIsFrom(segments: seq<TermSegment>, offsets: seq<nat>, positions: seq<nat>, k: nat, number: nat)
    requires Laid(segments, offsets) && AllWellFormed(segments)
    requires Positions(segments, offsets, positions) && InSegment(segments, offsets, number, k)
    ensures Onward(segments, offsets, positions, k, number) == From(AllHits(segments, offsets), number)
            <==> TakenBelow(segments, offsets, positions, number)
  {
    hide Size, LiveOf, AllWellFormed, From, TakenIn;
    forall j | 0 <= j < |segments|
      ensures j > k ==> number <= offsets[j]
      ensures j < k ==> Passed(segments[j], offsets[j], number) && TakenIn(segments[j], offsets[j], positions[j], number)
    {
      LaterSegments(segments, offsets, number, k, j);
      DocsInRange(segments, j);
      if j < k { PassedIsTaken(segments[j], offsets[j], positions[j], number); }
    }
    LaterHits(segments, offsets, positions, k + 1, number);
    FromEnds(HitsFrom(segments, offsets, positions, k + 1), number);
    FromConcat(Left(segments[k], offsets[k], positions[k]), HitsFrom(segments, offsets, positions, k + 1), number);
    AllTakenAway(segments, offsets, positions, k, number);
    EarlierAdd(segments, offsets, 0, k, number);
  }

  lemma PassedIsTaken(s: TermSegment, offset: nat, position: nat, number: nat)
    requires Passed(s, offset, number) && position <= |LiveOf(s)|
    ensures TakenIn(s, offset, position, number)
  {
    assert forall i :: 0 <= i < position ==> LiveOf(s)[i] in LiveOf(s);
  }

  /** Taking the next posting of a segment. */
  lemma TakeOne(segments: seq<TermSegment>, offsets: seq<nat>, positions: seq<nat>, k: nat)
    requires Positions(segments, offsets, positions) && k < |segments|
    ensures
      var s, i := segments[k], positions[k];
      if i < |LiveOf(s)| then
        && Positions(segments, offsets, positions[k := i + 1])
        && HitsFrom(segments, offsets, positions, k) ==
           [Hit(LiveOf(s)[i].doc + offsets[k], LiveOf(s)[i].impact)] + HitsFrom(segments, offsets, positions[k := i + 1], k)
      else HitsFrom(segments, offsets, positions, k) == HitsFrom(segments, offsets, positions, k + 1)
  {
    var s, i := segments[k], positions[k];
    if i < |LiveOf(s)| { TakeFrom(segments, offsets, positions, k, positions[k := i + 1]); } else { TakeNone(segments, offsets, positions, k); }
  }

  lemma TakeNone(segments: seq<TermSegment>, offsets: seq<nat>, positions: seq<nat>, k: nat)
    requires Positions(segments, offsets, positions) && k < |segments| && positions[k] == |LiveOf(segments[k])|
    ensures HitsFrom(segments, offsets, positions, k) == HitsFrom(segments, offsets, positions, k + 1)
  {
    hide LiveOf, Left;
    LeftEnd(segments[k], offsets[k]);
    assert [] + HitsFrom(segments, offsets, positions, k + 1) == HitsFrom(segments, offsets, positions, k + 1);
  }

  lemma TakeFrom(segments: seq<TermSegment>, offsets: seq<nat>, positions: seq<nat>, k: nat, next: seq<nat>)
    requires Positions(segments, offsets, positions) && k < |segments| && positions[k] < |LiveOf(segments[k])|
    requires next == positions[k := positions[k] + 1]
    ensures Positions(segments, offsets, next)
    ensures
      var s, i := segments[k], positions[k];
      HitsFrom(segments, offsets, positions, k) ==
        [Hit(LiveOf(s)[i].doc + offsets[k], LiveOf(s)[i].impact)] + HitsFrom(segments, offsets, next, k)
  {
    hide LiveOf, Left, HitsFrom;
    var s, i := segments[k], positions[k];
    SameLater(segments, offsets, positions, next, k + 1);
    HitsFromHere(segments, offsets, positions, k);
    HitsFromHere(segments, offsets, next, k);
    var h := Hit(LiveOf(s)[i].doc + offsets[k], LiveOf(s)[i].impact);
    LeftStep(s, offsets[k], i);
    Assoc([h], Left(s, offsets[k], i + 1), HitsFrom(segments, offsets, next, k + 1));
  }

  lemma LeftStep(s: TermSegment, offset: nat, i: nat)
    requires i < |LiveOf(s)|
    ensures Left(s, offset, i) == [Hit(LiveOf(s)[i].doc + offset, LiveOf(s)[i].impact)] + Left(s, offset, i + 1)
  {
    assert LiveOf(s)[i..][1..] == LiveOf(s)[i + 1..];
  }

  lemma LeftEnd(s: TermSegment, offset: nat)
    ensures Left(s, offset, |LiveOf(s)|) == []
  {
  }

  lemma {:induction false} SameLater(segments: seq<TermSegment>, offsets: seq<nat>, a: seq<nat>, b: seq<nat>, k: nat)
    requires Positions(segments, offsets, a) && Positions(segments, offsets, b)
    requires forall j :: k <= j < |segments| ==> a[j] == b[j]
    ensures HitsFrom(segments, offsets, a, k) == HitsFrom(segments, offsets, b, k)
    decreases |segments| - k
  {
    hide Left, LiveOf;
    if k < |segments| { SameLater(segments, offsets, a, b, k + 1); }
  }

  // ---------------------------------------------------------------- the iterator

  ghost predicate ImpactsSomewhere(segments: seq<TermSegment>) {
    exists s :: s in segments && LiveOf(s) != [] && s.impacts.Some?
  }

  /** The segment a number falls into. */
  function SegmentFor(offsets: seq<nat>, number: nat): (k: nat)
    ensures offsets != [] ==> k < |offsets|
  {
    if |offsets| <= 1 then 0
    else if offsets[|offsets| - 1] <= number then |offsets| - 1
    else SegmentFor(offsets[..|offsets| - 1], number)
  }

  lemma {:induction false} LastAtMost(offsets: seq<nat>, number: nat, k: nat)
    requires k < |offsets| && offsets[k] <= number && forall j :: k < j < |offsets| ==> number < offsets[j]
    ensures SegmentFor(offsets, number) == k
  {
    if k + 1 < |offsets| { LastAtMost(offsets[..|offsets| - 1], number, k); }
  }

  lemma SegmentForIs(segments: seq<TermSegment>, offsets: seq<nat>, number: nat, k: nat)
    requires Laid(segments, offsets) && InSegment(segments, offsets, number, k)
    ensures SegmentFor(offsets, number) == k
  {
    hide Size, SegmentFor;
    forall j | k < j < |offsets| ensures number < offsets[j] { LaterSegments(segments, offsets, number, k, j); }
    LastAtMost(offsets, number, k);
  }

  lemma SizeIsEnd(segments: seq<TermSegment>, offsets: seq<nat>)
    requires Laid(segments, offsets)
    ensures segments != [] ==> Size(segments) == offsets[|segments| - 1] + segments[|segments| - 1].size
  {
  }

  /** The answer for a number: the block it leads to, or nothing beyond the last document. */
  ghost predicate Answered(segments: seq<TermSegment>, offsets: seq<nat>, number: nat, a: Answer)
    requires |segments| == |offsets|
  {
    if number >= Size(segments) then a == Nothing
    else exists k :: InSegment(segments, offsets, number, k) && LeadsTo(segments, offsets, k, number, a)
  }

  /** The segment an iterator stands in after a shallow advance to a number. */
  ghost function Standing(segments: seq<TermSegment>, offsets: seq<nat>, cursors: Cursors, before: nat, number: UInt64): nat
    requires |segments| == |offsets| == |cursors|
  {
    if !ImpactsSomewhere(segments) || segments == [] then before
    else if number >= offsets[|segments| - 1] + segments[|segments| - 1].size then before
    else
      var k := SegmentFor(offsets, number);
      var a := Walk(segments, offsets, cursors, k, Local(number, offsets[k])).1;
      if a.Reach? then a.seg else before
  }

  /** The first posting at or after a document, from a position on. */
  method FirstFrom(live: seq<Posting>, from: nat, local: nat) returns (i: nat)
    requires Increasing(live) && from <= |live|
    ensures from <= i <= |live|
    ensures forall j :: from <= j < i ==> live[j].doc < local
    ensures forall j :: i <= j < |live| ==> live[j].doc >= local
  {
    i := from;
    while i < |live| && live[i].doc < local
      invariant from <= i <= |live|
      invariant forall j :: from <= j < i ==> live[j].doc < local
    {
      i := i + 1;
    }
  }

  lemma MovedIsTaken(segments: seq<TermSegment>, offsets: seq<nat>, positions: seq<nat>, floor: nat, reached: nat, k: nat, i: nat)
    requires TakenBelow(segments, offsets, positions, floor) && floor <= reached && k < |segments|
    requires positions[k] <= i <= |LiveOf(segments[k])|
    requires forall j :: positions[k] <= j < i ==> LiveOf(segments[k])[j].doc + offsets[k] < reached
    ensures TakenBelow(segments, offsets, positions[k := i], reached)
  {
    hide LiveOf, TakenBelow;
    TakenBelowLater(segments, offsets, positions, floor, reached);
    TakenAt(segments, offsets, positions, reached, k);
    TakenBelowUpdate(segments, offsets, positions, reached, k, i);
  }

  lemma TakenAt(segments: seq<TermSegment>, offsets: seq<nat>, positions: seq<nat>, floor: nat, k: nat)
    requires TakenBelow(segments, offsets, positions, floor) && k < |segments|
    ensures |segments| == |offsets| == |positions| && TakenIn(segments[k], offsets[k], positions[k], floor)
  {
  }

  class PostingsIterator {
    const segments: seq<TermSegment>
    const offsets: seq<nat>
    var segmentOffset: nat
    var positions: seq<nat>
    var cursors: Cursors
    var current: Option<Hit>
    var impactState: int

    ghost var shallowed: nat
    ghost var floor: nat
    ghost var entered: nat
    ghost var at: nat

    ghost predicate Valid()
      reads this
    {
      && Laid(segments, offsets) && AllWellFormed(segments)
      && TakenBelow(segments, offsets, positions, floor)
      && CursorsOk(segments, offsets, cursors, shallowed)
      && (current.Some? ==> current.value.number < floor && CurrentIn(segments, offsets, current.value.number, at))
      && (current.Some? ==> Swept(segments, positions, entered, at))
      && (impactState != 0 ==> (impactState > 0 <==> ImpactsSomewhere(segments)))
    }

    /** What Next has still to return. */
    ghost function Remaining(): seq<Hit>
      reads this
      requires Valid()
    {
      HitsFrom(segments, offsets, positions, segmentOffset)
    }

    ghost function All(): seq<Hit>
      reads this
      requires Valid()
    {
      AllHits(segments, offsets)
    }

    /** Next goes on from the current posting: nothing is left in the segments between
        the one the iterator stands in and the current posting's. */
    ghost predicate Here()
      reads this
    {
      current.Some? && entered <= segmentOffset <= at
    }

    /** The first number of the segment entered last. */
    ghost function Entered(): nat
      reads this
    {
      if entered < |offsets| then offsets[entered] else 0
    }

    lemma EnteredBeforeCurrent()
      requires Valid() && Here()
      ensures Entered() <= current.value.number
    {
      hide CursorsOk, TakenBelow, Swept;
      CurrentInside(segments, offsets, current.value.number, at);
      if entered < at { OffsetsApart(segments, offsets, entered, at); }
    }

    lemma SizeFits()
      requires Valid()
      ensures |segments| == |offsets| && Size(segments) < UINT64_SIZE
    {
    }

    lemma HitsFit(h: Hit)
      requires Valid() && h in All()
      ensures h.number < UINT64_SIZE
    {
      HitBelowSize(segments, offsets, 0, h);
    }

    constructor (segments: seq<TermSegment>, offsets: seq<nat>)
      requires Laid(segments, offsets) && AllWellFormed(segments)
      ensures Valid() && Remaining() == All() && this.segments == segments && this.offsets == offsets
      ensures floor == 0 && shallowed == 0 && current.None?
    {
      this.segments, this.offsets := segments, offsets;
      segmentOffset, positions, cursors := 0, Zeros(|segments|), seq(|segments|, _ => None);
      current, impactState, shallowed, floor, entered, at := None, 0, 0, 0, 0, 0;
      new;
    }

    method Next() returns (r: Option<Hit>)
      requires Valid()
      modifies this
      ensures Valid() && shallowed == old(shallowed) && floor >= old(floor)
      ensures
        if old(Remaining()) == [] then r == None && current == old(current) && floor == old(floor) && Remaining() == [] && entered == old(entered)
        else r == Some(old(Remaining())[0]) && current == r && Here() && Remaining() == old(Remaining())[1..]
             && (floor == old(floor) || floor == r.value.number + 1)
             && entered == (if old(Here()) then old(entered) else old(segmentOffset))
    {
      hide TakenBelow, CursorsOk, Laid, AllWellFormed, LiveOf, CurrentIn, HitsFrom;
      ghost var from := if Here() then entered else segmentOffset;
      TakenPositions(segments, offsets, positions, floor);
      StartSwept(segments, positions, entered, at, segmentOffset, from, current.Some?);
      PassEmpty(from);
      TakenPositions(segments, offsets, positions, floor);
      if segmentOffset >= |segments| {
        NothingBehind(segments, offsets, positions, segmentOffset);
        return None;
      }
      TakeOne(segments, offsets, positions, segmentOffset);
      r := TakePosting(segmentOffset, from);
    }

    /** Moves on to the next segment that has postings left. */
    method PassEmpty(ghost from: nat)
      requires Valid() && from <= segmentOffset && Swept(segments, positions, from, segmentOffset)
      modifies this`segmentOffset
      ensures Valid() && Remaining() == old(Remaining())
      ensures from <= segmentOffset && Swept(segments, positions, from, segmentOffset)
      ensures |positions| == |segments| == |offsets|
      ensures segmentOffset < |segments| ==> positions[segmentOffset] < |LiveOf(segments[segmentOffset])|
    {
      hide TakenBelow, CursorsOk, Laid, AllWellFormed, LiveOf, CurrentIn, HitsFrom;
      TakenPositions(segments, offsets, positions, floor);
      while segmentOffset < |segments| && positions[segmentOffset] >= |LiveOf(segments[segmentOffset])|
        invariant Valid() && Remaining() == old(Remaining())
        invariant from <= segmentOffset && Swept(segments, positions, from, segmentOffset)
        decreases |segments| - segmentOffset
      {
        TakeOne(segments, offsets, positions, segmentOffset);
        segmentOffset := segmentOffset + 1;
      }
    }

    /** Hands out the posting at the position of the k-th segment. */
    method TakePosting(k: nat, ghost from: nat) returns (r: Option<Hit>)
      requires Valid() && from <= k == segmentOffset < |segments| == |offsets| == |positions|
      requires positions[k] < |LiveOf(segments[k])| && Swept(segments, positions, from, k)
      modifies this
      ensures Valid() && shallowed == old(shallowed) && segmentOffset == old(segmentOffset)
      ensures positions == old(positions[k := positions[k] + 1])
      ensures current == r && Here() && entered == from
      ensures
        var p := LiveOf(segments[k])[old(positions)[k]];
        r == Some(Hit(p.doc + offsets[k], p.impact))
      ensures floor >= old(floor) && (floor == old(floor) || floor == r.value.number + 1)
    {
      hide CursorsOk, Laid, LiveOf, WellFormed;
      var live := LiveOf(segments[k]);
      var p := live[positions[k]];
      ghost var reached := if floor < p.doc + offsets[k] + 1 then p.doc + offsets[k] + 1 else floor;
      DocsInRange(segments, k);
      TakenBelowLater(segments, offsets, positions, floor, reached);
      TakenBelowUpdate(segments, offsets, positions, reached, k, positions[k] + 1);
      assert p in live;
      positions := positions[k := positions[k] + 1];
      current := Some(Hit(p.doc + offsets[k], p.impact));
      floor, entered, at := reached, from, k;
      r := current;
    }

    /** The segment a global number falls into: the last whose offset is not above it. */
    method SegmentOf(number: nat) returns (k: nat, local: nat)
      requires Laid(segments, offsets) && segments != []
      ensures InSegment(segments, offsets, number, k) && local == number - offsets[k]
    {
      hide Size;
      var low, high := 0, |offsets|;
      FirstOffset(segments, offsets);
      while low < high
        invariant 0 <= low <= high <= |offsets|
        invariant forall i :: 0 <= i < low ==> offsets[i] <= number
        invariant forall i :: high <= i < |offsets| ==> offsets[i] > number
      {
        var middle := (low + high) / 2;
        OffsetsSorted(segments, offsets, middle);
        if offsets[middle] > number {
          high := middle;
        } else {
          low := middle + 1;
        }
      }
      k, local := low - 1, number - offsets[low - 1];
    }

    /** Moves the k-th segment on to its next posting at or after a local number. */
    method AdvanceSegment(k: nat, local: nat)
      requires Valid() && k < |segments| == |offsets| == |positions|
      requires current.Some? ==> at <= k
      modifies this`positions, this`floor, this`entered
      ensures Valid() && entered == k
      ensures floor == if old(floor) <= local + offsets[k] then local + offsets[k] else old(floor)
      ensures |positions| == |segments| && forall j :: 0 <= j < |segments| && j != k ==> positions[j] == old(positions)[j]
      ensures positions[k] <= |LiveOf(segments[k])| && old(positions)[k] <= |LiveOf(segments[k])|
      ensures Left(segments[k], offsets[k], positions[k]) ==
              From(Left(segments[k], offsets[k], old(positions)[k]), local + offsets[k])
    {
      hide CursorsOk, Laid, AllWellFormed, LiveOf, TakenBelow, From, Left, CurrentIn;
      ghost var number := local + offsets[k];
      ghost var reached := if floor <= number then number else floor;
      TakenPositions(segments, offsets, positions, floor);
      DocsInRange(segments, k);
      var i := FirstFrom(LiveOf(segments[k]), positions[k], local);
      MovedIsFrom(segments[k], offsets[k], positions[k], i, number);
      MovedIsTaken(segments, offsets, positions, floor, reached, k, i);
      floor, entered, positions := reached, k, positions[k := i];
    }

    method Restart()
      requires Valid()
      modifies this
      ensures Valid() && current.None? && floor == 0 && shallowed == 0
      ensures positions == Zeros(|segments|)
    {
      hide Laid, AllWellFormed;
      segmentOffset, positions, cursors := 0, Zeros(|segments|), seq(|segments|, _ => None);
      current, impactState, shallowed, floor, entered, at := None, 0, 0, 0, 0, 0;
    }

    /** A search starts over when it goes back to or before the current posting. */
    predicate StartsOver(number: nat)
      reads this
    {
      current.Some? && current.value.number >= number
    }

    /** What a search for a number goes through. */
    ghost function Sought(number: nat): seq<Hit>
      reads this
      requires Valid() && segments != []
    {
      Onward(segments, offsets, if StartsOver(number) then Zeros(|segments|) else positions, SegmentFor(offsets, number), number)
    }

    lemma SoughtExactly(number: nat)
      requires Valid() && segments != []
      ensures Sought(number) == From(All(), number) <==> StartsOver(number) || TakenBelow(segments, offsets, positions, number)
      ensures floor <= number ==> TakenBelow(segments, offsets, positions, number)
      ensures forall h :: h in Sought(number) ==> h.number >= number
    {
      hide TakenBelow, CursorsOk, Laid, AllWellFormed, LiveOf, HitsFrom, CurrentIn, From, Onward, SegmentFor;
      var from := if StartsOver(number) then Zeros(|segments|) else positions;
      TakenPositions(segments, offsets, positions, floor);
      SegmentForHolds(segments, offsets, number);
      JumpIsFrom(segments, offsets, from, SegmentFor(offsets, number), number);
      SoughtAtLeast(segments, offsets, from, SegmentFor(offsets, number), number);
      NoneTaken(segments, offsets, number);
      if floor <= number { TakenBelowLater(segments, offsets, positions, floor, number); }
    }

    /** Moves to the segment of a number and, in it, to the number. */
    method MoveTo(number: nat)
      requires Valid() && segments != []
      modifies this
      ensures Valid() && shallowed <= old(shallowed)
      ensures Remaining() == old(Sought(number)) && Entered() <= number && segmentOffset == entered
      ensures floor == if old(floor) <= number || old(StartsOver(number)) then number else old(floor)
    {
      hide TakenBelow, CursorsOk, Laid, AllWellFormed, LiveOf, Left, HitsFrom, CurrentIn, From;
      if current.Some? && current.value.number >= number {
        Restart();
      }
      var k, local := SegmentOf(number);
      SegmentForIs(segments, offsets, number, k);
      if current.Some? { ForwardOnly(segments, offsets, current.value.number, at, number, k); }
      segmentOffset := k;
      TakenPositions(segments, offsets, positions, floor);
      ghost var were := positions;
      AdvanceSegment(k, local);
      TakenPositions(segments, offsets, positions, floor);
      SameLater(segments, offsets, were, positions, k + 1);
      HitsFromHere(segments, offsets, positions, k);
    }

    /** The first posting at or after a number. Nothing is missed if and only if the search
        starts over or everything taken so far lies below the number; a search backwards
        after one that found nothing is neither. */
    method Advance(number: nat) returns (r: Option<Hit>)
      requires Valid() && segments != []
      modifies this
      ensures Valid() && shallowed <= old(shallowed)
      ensures
        var hits := old(Sought(number));
        if hits == [] then r == None && Remaining() == []
        else r == Some(hits[0]) && current == r && Here() && Remaining() == hits[1..]
      ensures old(Sought(number)) == From(All(), number) <==>
              old(StartsOver(number) || TakenBelow(segments, offsets, positions, number))
      ensures old(floor) <= number || old(StartsOver(number)) ==> old(Sought(number)) == From(All(), number)
      ensures old(floor) <= number || old(StartsOver(number)) ==>
        if r.None? then floor == number else floor <= r.value.number + 1
      ensures Entered() <= number
    {
      hide TakenBelow, CursorsOk, Laid, AllWellFormed, LiveOf, HitsFrom, CurrentIn, From, Onward, Swept;
      SoughtExactly(number);
      ghost var hits := Sought(number);
      assert hits != [] ==> hits[0] in hits;
      MoveTo(number);
      r := Next();
    }

    method Count() returns (count: nat)
      requires Valid()
      ensures count == |All()|
    {
      hide LiveOf, Size, CursorsOk, AllWellFormed;
      count := 0;
      for k := 0 to |segments|
        invariant count + |HitsFrom(segments, offsets, Zeros(|segments|), k)| == |All()|
      {
        count := count + |LiveOf(segments[k])|;
      }
    }

    method HasImpacts() returns (has: bool)
      requires Valid()
      modifies this`impactState
      ensures Valid() && has == ImpactsSomewhere(segments)
    {
      hide TakenBelow, CursorsOk, Laid, AllWellFormed, LiveOf;
      if impactState != 0 {
        return impactState > 0;
      }
      var found := false;
      for k := 0 to |segments|
        invariant found <==> exists j :: 0 <= j < k && LiveOf(segments[j]) != [] && segments[j].impacts.Some?
      {
        if LiveOf(segments[k]) != [] && segments[k].impacts.Some? {
          found := true;
        }
      }
      impactState := if found then 1 else -1;
      has := found;
    }

    /** The walk over the segments from the k-th on. */
    method WalkSegments(start: nat, startLocal: UInt64) returns (a: Answer)
      requires |segments| == |offsets| == |cursors|
      modifies this`cursors, this`segmentOffset
      ensures
        var walk := Walk(segments, offsets, old(cursors), start, startLocal);
        a == walk.1 && (!a.Failure? ==> cursors == walk.0)
      ensures segmentOffset == if a.Reach? then a.seg else old(segmentOffset)
    {
      hide ShallowIn, LiveOf;
      var k, local := start, startLocal;
      while k < |segments|
        invariant |segments| == |cursors| && segmentOffset == old(segmentOffset)
        invariant Walk(segments, offsets, cursors, k, local) == Walk(segments, offsets, old(cursors), start, startLocal)
        decreases |segments| - k
      {
        var s := segments[k];
        if LiveOf(s) != [] {
          if s.impacts.Some? {
            var (c, r) := ShallowIn(s, cursors[k], local);
            if r.Failed? {
              return Failure;
            }
            cursors := cursors[k := c];
            if r.Reached? {
              segmentOffset := k;
              return Reach(r.block.end + offsets[k], r.block.impacts, k);
            }
          } else if s.size > 0 {
            segmentOffset := k;
            return Reach(offsets[k] + s.size - 1, [], k);
          }
        }
        local := 0;
        k := k + 1;
      }
      a := Nothing;
    }

    /** Nothing is left to return in the segments a shallow advance to the number moves over. */
    ghost predicate StaysPut(number: UInt64)
      reads this
      requires Valid()
    {
      var to := Standing(segments, offsets, cursors, segmentOffset, number);
      Swept(segments, positions, segmentOffset, to) && Swept(segments, positions, to, segmentOffset)
    }

    lemma StaysPutExactly(number: UInt64)
      requires Valid()
      ensures
        var to := Standing(segments, offsets, cursors, segmentOffset, number);
        Remaining() == HitsFrom(segments, offsets, positions, to) <==> StaysPut(number)
    {
      hide Standing, Swept, TakenIn, Laid, AllWellFormed, CursorOk, CurrentIn, LiveOf;
      var to := Standing(segments, offsets, cursors, segmentOffset, number);
      SweptExactly(segments, offsets, positions, segmentOffset, to);
      SweptExactly(segments, offsets, positions, to, segmentOffset);
      if to < segmentOffset { SweptNowhere(segments, positions, segmentOffset, to); }
      if segmentOffset <= to { SweptNowhere(segments, positions, to, segmentOffset); }
    }

    /** Asking for a number between the segment entered last and the current posting. */
    lemma OwnBlockStaysPut(number: UInt64)
      requires Valid() && shallowed <= number && Here() && Entered() <= number <= current.value.number
      ensures
        var to := Standing(segments, offsets, cursors, segmentOffset, number);
        entered <= to <= at && StaysPut(number)
    {
      hide TakenBelow, Laid, CursorOk, AllWellFormed, LiveOf, Walk, Covered, CurrentIn, SegmentFor;
      CurrentInside(segments, offsets, current.value.number, at);
      var last := |segments| - 1;
      if ImpactsSomewhere(segments) && number < offsets[last] + segments[last].size {
        var k := SegmentFor(offsets, number);
        SegmentForHolds(segments, offsets, number);
        CursorsOkLater(segments, offsets, cursors, shallowed, number);
        StartsAhead(segments, offsets, k, number);
        WalkIsSound(segments, offsets, cursors, k, number);
        WalkGoesForward(segments, offsets, cursors, k, number - offsets[k]);
        StandsBetween(segments, offsets, number, k, current.value.number, at, entered,
                      Walk(segments, offsets, cursors, k, number - offsets[k]).1);
      }
    }

    /** The cursors and the segment move as the walk over the segments says. */
    method MoveShallow(number: UInt64) returns (a: Answer)
      requires Valid() && shallowed <= number
      modifies this`cursors, this`segmentOffset, this`shallowed, this`impactState
      ensures Valid() && shallowed == number
      ensures if ImpactsSomewhere(segments) then SoundAnswer(segments, offsets, number, a) else a == Nothing
      ensures ImpactsSomewhere(segments) ==> Answered(segments, offsets, number, a)
      ensures segmentOffset == old(Standing(segments, offsets, cursors, segmentOffset, number))
      ensures segmentOffset == if a.Reach? then a.seg else old(segmentOffset)
    {
      hide TakenBelow, Laid, CursorOk, AllWellFormed, LiveOf, Walk, Passed, Covered, CurrentIn, Swept, SegmentFor, LeadsTo, Size;
      SizeIsEnd(segments, offsets);
      CursorsOkLater(segments, offsets, cursors, shallowed, number);
      shallowed := number;
      var has := HasImpacts();
      if !has || |segments| == 0 {
        return Nothing;
      }
      var last := |segments| - 1;
      if number >= offsets[last] + segments[last].size {
        BeyondTheEnd(segments, offsets, number);
        return Nothing;
      }
      var k, local := SegmentOf(number);
      SegmentForIs(segments, offsets, number, k);
      StartsAhead(segments, offsets, k, number);
      WalkIsSound(segments, offsets, cursors, k, number);
      WalkLeadsTo(segments, offsets, cursors, k, number);
      a := WalkSegments(k, local);
    }

    /** Moves the impact cursors, and the iterator to the segment reached. Without impacts
        anywhere there is no answer; otherwise the answer is sound. What Next returns stays
        the same if and only if nothing was left in the segments moved over, as when the
        current posting's own block is asked for. */
    method AdvanceShallow(number: UInt64) returns (a: Answer)
      requires Valid() && shallowed <= number
      modifies this
      ensures Valid() && shallowed == number && current == old(current) && floor == old(floor) && positions == old(positions)
      ensures if ImpactsSomewhere(segments) then SoundAnswer(segments, offsets, number, a) else a == Nothing
      ensures ImpactsSomewhere(segments) && number >= Size(segments) ==> a == Nothing
      ensures ImpactsSomewhere(segments) && number < Size(segments) ==>
        exists k :: InSegment(segments, offsets, number, k) && LeadsTo(segments, offsets, k, number, a)
      ensures entered == old(entered) && segmentOffset == if a.Reach? then a.seg else old(segmentOffset)
      ensures segmentOffset == old(Standing(segments, offsets, cursors, segmentOffset, number))
      ensures Remaining() == old(Remaining()) <==> old(StaysPut(number))
      ensures old(Here()) && Entered() <= number <= current.value.number ==> Here() && Remaining() == old(Remaining())
    {
      hide Standing, Swept, TakenBelow, CursorsOk, Laid, AllWellFormed, LiveOf, CurrentIn, SoundAnswer, LeadsTo, Size;
      StaysPutExactly(number);
      if Here() && Entered() <= number <= current.value.number { OwnBlockStaysPut(number); }
      a := MoveShallow(number);
    }
  }

  lemma SweptNowhere(segments: seq<TermSegment>, positions: seq<nat>, from: nat, to: nat)
    requires |positions| == |segments| && to <= from
    ensures Swept(segments, positions, from, to)
  {
  }

  lemma {:induction false} AfterLast(offsets: seq<nat>, number: nat)
    requires offsets != [] && offsets[0] <= number
    ensures
      var k := SegmentFor(offsets, number);
      offsets[k] <= number && (k + 1 < |offsets| ==> number < offsets[k + 1])
  {
    if |offsets| > 1 && offsets[|offsets| - 1] > number { AfterLast(offsets[..|offsets| - 1], number); }
  }

  lemma SegmentForHolds(segments: seq<TermSegment>, offsets: seq<nat>, number: nat)
    requires Laid(segments, offsets) && segments != []
    ensures InSegment(segments, offsets, number, SegmentFor(offsets, number))
  {
    hide SegmentFor;
    FirstOffset(segments, offsets);
    AfterLast(offsets, number);
  }

  lemma {:induction false} HitBelowSize(segments: seq<TermSegment>, offsets: seq<nat>, i: nat, h: Hit)
    requires Laid(segments, offsets) && AllWellFormed(segments)
    requires h in HitsFrom(segments, offsets, Zeros(|segments|), i)
    ensures h.number < Size(segments)
    decreases |segments| - i
  {
    hide AllWellFormed, LiveOf, Size;
    var mine := Left(segments[i], offsets[i], 0);
    if h in mine {
      DocsInRange(segments, i);
      OffsetsApart(segments, offsets, i, |segments|);
      var x :| 0 <= x < |mine| && mine[x] == h;
      assert LiveOf(segments[i])[0..] == LiveOf(segments[i]);
      assert LiveOf(segments[i])[x] in LiveOf(segments[i]);
    } else {
      HitBelowSize(segments, offsets, i + 1, h);
    }
  }

  lemma NothingBehind(segments: seq<TermSegment>, offsets: seq<nat>, positions: seq<nat>, k: nat)
    requires Positions(segments, offsets, positions) && k >= |segments|
    ensures HitsFrom(segments, offsets, positions, k) == []
  {
  }

  lemma TakenPositions(segments: seq<TermSegment>, offsets: seq<nat>, positions: seq<nat>, floor: nat)
    requires TakenBelow(segments, offsets, positions, floor)
    ensures Positions(segments, offsets, positions)
  {
  }

  lemma FirstOffset(segments: seq<TermSegment>, offsets: seq<nat>)
    requires Laid(segments, offsets) && segments != []
    ensures offsets[0] == 0
  {
    assert segments[..0] == [];
  }

  lemma OffsetsSorted(segments: seq<TermSegment>, offsets: seq<nat>, k: nat)
    requires Laid(segments, offsets) && k < |segments|
    ensures forall i :: 0 <= i < k ==> offsets[i] <= offsets[k]
    ensures forall i :: k < i < |segments| ==> offsets[k] <= offsets[i]
  {
    forall i | 0 <= i < k ensures offsets[i] <= offsets[k] { OffsetsApart(segments, offsets, i, k); }
    forall i | k < i < |segments| ensures offsets[k] <= offsets[i] { OffsetsApart(segments, offsets, k, i); }
  }

  lemma {:induction false} FromAtLeast(hits: seq<Hit>, number: nat)
    ensures forall h :: h in From(hits, number) ==> h in hits && h.number >= number
  {
    if hits != [] { FromAtLeast(hits[1..], number); }
  }

  lemma HitsFromHere(segments: seq<TermSegment>, offsets: seq<nat>, positions: seq<nat>, k: nat)
    requires Positions(segments, offsets, positions) && k < |segments|
    ensures HitsFrom(segments, offsets, positions, k) ==
            Left(segments[k], offsets[k], positions[k]) + HitsFrom(segments, offsets, positions, k + 1)
  {
  }

  lemma NoneTaken(segments: seq<TermSegment>, offsets: seq<nat>, number: nat)
    requires |segments| == |offsets|
    ensures TakenBelow(segments, offsets, Zeros(|segments|), number)
  {
  }

  lemma SoughtAtLeast(segments: seq<TermSegment>, offsets: seq<nat>, positions: seq<nat>, k: nat, number: nat)
    requires Laid(segments, offsets) && Positions(segments, offsets, positions) && InSegment(segments, offsets, number, k)
    ensures forall h :: h in Onward(segments, offsets, positions, k, number) ==> h.number >= number
  {
    hide Size, LiveOf, From, Left;
    forall j | k + 1 <= j < |segments| ensures number <= offsets[j] { LaterSegments(segments, offsets, number, k, j); }
    LaterHits(segments, offsets, positions, k + 1, number);
    FromAtLeast(Left(segments[k], offsets[k], positions[k]), number);
  }

  lemma BeyondTheEnd(segments: seq<TermSegment>, offsets: seq<nat>, number: nat)
    requires Laid(segments, offsets) && AllWellFormed(segments) && segments != []
    requires number >= offsets[|segments| - 1] + segments[|segments| - 1].size
    ensures SoundAnswer(segments, offsets, number, Nothing)
  {
    var last := |segments| - 1;
    forall k | 0 <= k < |segments| ensures Passed(segments[k], offsets[k], number) {
      DocsInRange(segments, k);
      if k < last { OffsetsApart(segments, offsets, k, last); }
    }
  }

  lemma StartsAhead(segments: seq<TermSegment>, offsets: seq<nat>, k: nat, number: nat)
    requires Laid(segments, offsets) && AllWellFormed(segments) && InSegment(segments, offsets, number, k)
    requires number < offsets[|segments| - 1] + segments[|segments| - 1].size
    ensures Ahead(segments, offsets, k, number) && number < offsets[k] + segments[k].size
  {
    hide Size;
    assert segments[..|segments| - 1] == segments[..|segments| - 1];
    forall j | 0 <= j < |segments|
      ensures j > k ==> number < offsets[j]
      ensures j < k ==> Passed(segments[j], offsets[j], number)
    {
      LaterSegments(segments, offsets, number, k, j);
      DocsInRange(segments, j);
    }
    LaterSegments(segments, offsets, number, k, k);
  }

  /** A hit of the number lies in the segment. */
  ghost predicate CurrentIn(segments: seq<TermSegment>, offsets: seq<nat>, number: nat, at: nat) {
    && at < |segments| == |offsets|
    && exists p :: p in LiveOf(segments[at]) && p.doc + offsets[at] == number
  }

  /** Nothing is left in the segments of a range. */
  ghost predicate Swept(segments: seq<TermSegment>, positions: seq<nat>, from: nat, to: nat) {
    |positions| == |segments| && forall j :: from <= j < to && j < |segments| ==> positions[j] == |LiveOf(segments[j])|
  }

  lemma StartSwept(segments: seq<TermSegment>, positions: seq<nat>, entered: nat, at: nat, offset: nat, from: nat, some: bool)
    requires |positions| == |segments|
    requires some ==> Swept(segments, positions, entered, at)
    requires from == offset || (some && from == entered && entered <= offset <= at)
    ensures Swept(segments, positions, from, offset)
  {
  }

  /** Going over segments leaves the same hits if and only if nothing is left in them. */
  lemma {:induction false} SweptExactly(segments: seq<TermSegment>, offsets: seq<nat>, positions: seq<nat>, from: nat, to: nat)
    requires Positions(segments, offsets, positions)
    ensures from <= to ==> |HitsFrom(segments, offsets, positions, to)| <= |HitsFrom(segments, offsets, positions, from)|
    ensures from <= to ==>
      (HitsFrom(segments, offsets, positions, from) == HitsFrom(segments, offsets, positions, to) <==> Swept(segments, positions, from, to))
    decreases if from < to then to - from else 0
  {
    hide LiveOf;
    if from < to && from < |segments| {
      SweptExactly(segments, offsets, positions, from + 1, to);
      var here, rest := Left(segments[from], offsets[from], positions[from]), HitsFrom(segments, offsets, positions, from + 1);
      assert Swept(segments, positions, from, to) <==> here == [] && Swept(segments, positions, from + 1, to);
      assert here == [] ==> here + rest == rest;
    }
  }

  /** A target beyond a posting does not lie in an earlier segment than the posting. */
  lemma ForwardOnly(segments: seq<TermSegment>, offsets: seq<nat>, current: nat, at: nat, number: nat, k: nat)
    requires Laid(segments, offsets) && AllWellFormed(segments) && CurrentIn(segments, offsets, current, at)
    requires InSegment(segments, offsets, number, k) && current < number
    ensures at <= k
  {
    hide LiveOf, Size;
    if k < at {
      LaterSegments(segments, offsets, number, k, at);
    }
  }

  /** A shallow advance to a number not after the current posting stays in the segments
      from the number's to the posting's. */
  lemma StandsBetween(segments: seq<TermSegment>, offsets: seq<nat>, number: nat, k: nat, current: nat, at: nat, entered: nat, a: Answer)
    requires Laid(segments, offsets) && AllWellFormed(segments) && CurrentIn(segments, offsets, current, at)
    requires InSegment(segments, offsets, number, k) && entered <= at && offsets[entered] <= number <= current
    requires SoundAnswer(segments, offsets, number, a)
    requires a.Reach? ==> k <= a.seg < |segments| && offsets[a.seg] <= a.end
    ensures a.Reach? && entered <= a.seg <= at
  {
    hide LiveOf, Size, Covered;
    assert SoundAt(segments[at], offsets[at], at, number, a);
    if entered > k { LaterSegments(segments, offsets, number, k, entered); }
    CurrentInside(segments, offsets, current, at);
    if a.seg > at { OffsetsApart(segments, offsets, at, a.seg); }
  }

  lemma CurrentInside(segments: seq<TermSegment>, offsets: seq<nat>, current: nat, at: nat)
    requires Laid(segments, offsets) && AllWellFormed(segments) && CurrentIn(segments, offsets, current, at)
    ensures at < |segments| == |offsets| && offsets[at] <= current < offsets[at] + segments[at].size
  {
    DocsInRange(segments, at);
  }

  // ---------------------------------------------------------------- a posting lost

  function Column(start: UInt64): (ps: seq<Posting>)
    requires start + 64 <= UINT64_SIZE
    ensures |ps| == 64 && forall i :: 0 <= i < 64 ==> ps[i] == Posting(start + i, Impact(1, 1))
  {
    seq(64, i requires 0 <= i < 64 => Posting(start + i, Impact(1, 1)))
  }

  /** A segment in which all of 128 documents hold the term once, with its two blocks of impacts. */
  lemma FullSegment() returns (s: TermSegment)
    ensures WellFormed(s) && s.impacts.Some? && s.size == 128 && |LiveOf(s)| == 128 && LiveOf(s)[0].doc == 0
  {
    var runs := [Column(0), Column(64)];
    var ps := Flatten(runs);
    assert runs[..1] == [Column(0)] && [Column(0)][..0] == [];
    assert ps == [] + Column(0) + Column(64);
    assert Increasing(ps);
    RunsAreBlocks(runs);
    s := TermSegment(128, ps, {}, Some(EncodeRuns(runs)));
    assert Stored(s, runs);
    AllLive(ps);
  }

  lemma {:induction false} AllLive(ps: seq<Posting>)
    ensures Live(ps, {}) == ps
  {
    if ps != [] {
      AllLive(ps[..|ps| - 1]);
      assert ps == ps[..|ps| - 1] + [ps[|ps| - 1]];
    }
  }

  /** A shallow advance of a new iterator to the second segment moves it there, and the
      posting of the first segment is never returned. */
  lemma ShallowLosesAPosting() returns (segments: seq<TermSegment>, offsets: seq<nat>)
    ensures Laid(segments, offsets) && AllWellFormed(segments) && |segments| == 2
    ensures Standing(segments, offsets, [None, None], 0, 1) == 1
    ensures
      var all := AllHits(segments, offsets);
      all != [] && all[0] !in HitsFrom(segments, offsets, Zeros(2), 1)
  {
    hide LiveOf, WellFormed, Standing, Laid;
    var first := SinglePosting();
    var second := FullSegment();
    segments, offsets := [first, second], [0, 1];
    TwoLaid(first, second);
    MovesToSecond(first, second);
    TwoHits(first, second);
  }

  /** A segment of one document that holds the term once; so short a list has no impacts. */
  lemma SinglePosting() returns (s: TermSegment)
    ensures WellFormed(s) && s.size == 1 && |LiveOf(s)| == 1 && LiveOf(s)[0].doc == 0
  {
    hide Stored, Live;
    s := TermSegment(1, [Posting(0, Impact(1, 1))], {}, None);
    AllLive(s.stored);
  }

  lemma TwoLaid(first: TermSegment, second: TermSegment)
    requires first.size == 1 && second.size == 128
    ensures Laid([first, second], [0, 1])
  {
    var segments := [first, second];
    assert segments[..0] == [] && segments[..1] == [first] && [first][..0] == [];
    assert Size([]) == 0;
    assert Size([first]) == Size([first][..0]) + 1;
    assert Size(segments) == Size(segments[..1]) + 128;
  }

  lemma TwoHits(first: TermSegment, second: TermSegment)
    requires |LiveOf(first)| == 1 && LiveOf(first)[0].doc == 0
    ensures
      var segments, offsets := [first, second], [0, 1];
      var all := AllHits(segments, offsets);
      all != [] && all[0] !in HitsFrom(segments, offsets, Zeros(2), 1)
  {
    hide LiveOf;
    var segments, offsets := [first, second], [0, 1];
    assert HitsFrom(segments, offsets, Zeros(2), 2) == [];
    assert HitsFrom(segments, offsets, Zeros(2), 1) == Left(second, 1, 0);
    assert HitsFrom(segments, offsets, Zeros(2), 0)[0] == Left(first, 0, 0)[0];
  }

  lemma MovesToSecond(first: TermSegment, second: TermSegment)
    requires WellFormed(first) && WellFormed(second) && first.size == 1 && second.size == 128 && second.impacts.Some?
    requires LiveOf(second) != []
    ensures Standing([first, second], [0, 1], [None, None], 0, 1) == 1
  {
    hide Laid, WellFormed, LiveOf, ShallowIn, Walk, Covered, SegmentFor;
    var segments, offsets, cursors := [first, second], [0, 1], [None, None];
    TwoLaid(first, second);
    assert segments[1] == second && second in segments && InSegment(segments, offsets, 1, 1);
    SegmentForIs(segments, offsets, 1, 1);
    StartsAhead(segments, offsets, 1, 1);
    WalkIsSound(segments, offsets, cursors, 1, 1);
    WalkGoesForward(segments, offsets, cursors, 1, 0);
    assert LiveOf(second)[0] in LiveOf(second);
    assert SoundAt(second, 1, 1, 1, Walk(segments, offsets, cursors, 1, 0).1);
  }

  /** A search backwards after one that found nothing misses a posting: with postings 0
      and 5, after the first and a search for 10 nothing is left to a search for 5. */
  lemma BackwardSearchMisses() returns (segments: seq<TermSegment>, offsets: seq<nat>)
    ensures |segments| == 1 && Laid(segments, offsets) && AllWellFormed(segments)
    ensures AllHits(segments, offsets) == [Hit(0, Impact(1, 1)), Hit(5, Impact(1, 1))]
    ensures Positions(segments, offsets, [1]) && Positions(segments, offsets, [2])
    ensures Onward(segments, offsets, [1], 0, 10) == HitsFrom(segments, offsets, [2], 0) == []
    ensures Onward(segments, offsets, [2], 0, 5) == [] && From(AllHits(segments, offsets), 5) == [Hit(5, Impact(1, 1))]
  {
    hide Live, Stored;
    var s := TermSegment(20, [Posting(0, Impact(1, 1)), Posting(5, Impact(1, 1))], {}, None);
    segments, offsets := [s], [0];
    OneLaid(s);
    OneHits(s);
    AllLive(s.stored);
    MovedIsFrom(s, 0, 1, 2, 10);
    assert HitsFrom(segments, offsets, [1], 1) == HitsFrom(segments, offsets, [2], 1) == [];
    assert Left(s, 0, 2) == [];
  }

  lemma OneLaid(s: TermSegment)
    requires s.size == 20 && s.impacts.None? && s.stored == [Posting(0, Impact(1, 1)), Posting(5, Impact(1, 1))]
    ensures Laid([s], [0]) && AllWellFormed([s])
  {
    hide Stored;
    assert [s][..0] == [];
    assert Size([s]) == Size([s][..0]) + 20;
  }

  lemma OneHits(s: TermSegment)
    requires s.stored == [Posting(0, Impact(1, 1)), Posting(5, Impact(1, 1))] && s.deleted == {}
    ensures AllHits([s], [0]) == [Hit(0, Impact(1, 1)), Hit(5, Impact(1, 1))]
    ensures From(AllHits([s], [0]), 5) == [Hit(5, Impact(1, 1))] && From(AllHits([s], [0]), 10) == []
  {
    hide Live;
    AllLive(s.stored);
    assert LiveOf(s)[0..] == s.stored;
    assert HitsFrom([s], [0], Zeros(1), 1) == [];
    var hits := Left(s, 0, 0);
    assert AllHits([s], [0]) == hits;
    CutParts(hits, 5, 1);
    CutParts(hits, 10, 2);
  }
}
