/** The postings of one term over the segments of a snapshot: their global numbering,
    and one shallow advance across the segments as a function of the cursors. */
module TermSegments {
  import opened Basics
  import opened Impacts
  import opened ImpactCoding
  import opened ImpactDecoding

  /** One term in one segment: its stored postings, the deleted documents, and the
      stored impacts, which short lists do not have. */
  datatype TermSegment = TermSegment(size: UInt64, stored: seq<Posting>, deleted: set<UInt64>, impacts: Option<seq<Byte>>)

  function Live(ps: seq<Posting>, deleted: set<UInt64>): seq<Posting> {
    if ps == [] then []
    else
      var last := ps[|ps| - 1];
      Live(ps[..|ps| - 1], deleted) + if last.doc in deleted then [] else [last]
  }

  function LiveOf(s: TermSegment): seq<Posting> {
    Live(s.stored, s.deleted)
  }

  lemma {:induction false} LiveFacts(ps: seq<Posting>, deleted: set<UInt64>)
    ensures forall p :: p in Live(ps, deleted) <==> p in ps && p.doc !in deleted
    ensures Increasing(ps) ==> Increasing(Live(ps, deleted))
  {
    if ps != [] {
      var init, last := ps[..|ps| - 1], ps[|ps| - 1];
      LiveFacts(init, deleted);
      assert ps == init + [last];
      if Increasing(ps) {
        forall p | p in init ensures p.doc < last.doc {
          var i :| 0 <= i < |init| && init[i] == p;
          assert ps[i] == p;
        }
        assert forall i :: 0 <= i < |Live(init, deleted)| ==> Live(init, deleted)[i] in Live(init, deleted);
      }
    }
  }

  ghost predicate Stored(s: TermSegment, runs: seq<seq<Posting>>) {
    && NonEmptyRuns(runs) && |runs| < UINT64_SIZE && Flatten(runs) == s.stored
    && EndsAscend(BlocksOf(runs), 0) && s.impacts == Some(EncodeRuns(runs))
  }

  /** A segment as a writer leaves it: impacts, if any, were coded from its postings. */
  ghost predicate WellFormed(s: TermSegment) {
    && Increasing(s.stored) && (forall p :: p in s.stored ==> p.doc < s.size)
    && (s.impacts.Some? ==> exists runs :: Stored(s, runs))
  }

  // ---------------------------------------------------------------- one segment

  /** A segment's impacts are opened on the first shallow advance. */
  function ShallowIn(s: TermSegment, cursor: Option<Cursor>, local: UInt64): (Option<Cursor>, Shallow)
    requires s.impacts.Some?
  {
    var started := if cursor.Some? then cursor else OpenCursor(s.impacts.value);
    if started.None? then (None, Failed)
    else
      var (c, r) := Advanced(started.value, local);
      (Some(c), r)
  }

  ghost predicate CursorAt(s: TermSegment, c: Cursor, floor: nat, runs: seq<seq<Posting>>, at: nat) {
    Stored(s, runs) && Blocks(BlocksOf(runs)) && At(c, BlocksOf(runs), at) && Before(BlocksOf(runs), at, floor)
  }

  /** The cursor is in front of the first block that ends at or after the floor. */
  ghost predicate CursorOk(s: TermSegment, cursor: Option<Cursor>, floor: nat) {
    cursor.Some? ==> exists runs, at :: CursorAt(s, cursor.value, floor, runs, at)
  }

  lemma CursorOkLater(s: TermSegment, cursor: Option<Cursor>, floor: nat, later: nat)
    requires CursorOk(s, cursor, floor) && floor <= later
    ensures CursorOk(s, cursor, later)
  {
    hide Stored, Blocks, At;
    if cursor.Some? {
      var runs, at :| CursorAt(s, cursor.value, floor, runs, at);
      assert CursorAt(s, cursor.value, later, runs, at);
    }
  }

  lemma OpenedOk(s: TermSegment, cursor: Option<Cursor>, local: UInt64) returns (c: Cursor, runs: seq<seq<Posting>>, at: nat)
    requires WellFormed(s) && s.impacts.Some? && CursorOk(s, cursor, local)
    ensures CursorAt(s, c, local, runs, at)
    ensures Some(c) == if cursor.Some? then cursor else OpenCursor(s.impacts.value)
  {
    hide At;
    if cursor.Some? {
      c := cursor.value;
      runs, at :| CursorAt(s, c, local, runs, at);
    } else {
      runs :| Stored(s, runs);
      at := 0;
      RunsAreBlocks(runs);
      OpenAt(BlocksOf(runs));
      c := OpenCursor(s.impacts.value).value;
    }
  }

  lemma ShallowInIsSound(s: TermSegment, cursor: Option<Cursor>, local: UInt64)
    requires WellFormed(s) && s.impacts.Some? && CursorOk(s, cursor, local)
    ensures Sound(s.stored, local, ShallowIn(s, cursor, local).1)
    ensures CursorOk(s, ShallowIn(s, cursor, local).0, local)
  {
    hide At, Sound, IsFirst, Advanced, Blocks;
    var c, runs, at := OpenedOk(s, cursor, local);
    var after := AdvancedIsFirst(c, BlocksOf(runs), at, local);
    FirstIsSound(runs, local, Advanced(c, local).1);
    assert CursorAt(s, Advanced(c, local).0, local, runs, after);
  }

  // ---------------------------------------------------------------- all segments

  function Size(segments: seq<TermSegment>): nat {
    if segments == [] then 0 else Size(segments[..|segments| - 1]) + segments[|segments| - 1].size
  }

  /** The global number of the first document of each segment. */
  ghost predicate Laid(segments: seq<TermSegment>, offsets: seq<nat>) {
    && |offsets| == |segments|
    && (forall k :: 0 <= k < |segments| ==> offsets[k] == Size(segments[..k]))
    && Size(segments) < UINT64_SIZE
  }

  lemma {:induction false} OffsetsApart(segments: seq<TermSegment>, offsets: seq<nat>, i: nat, j: nat)
    requires Laid(segments, offsets) && i < j <= |segments|
    ensures offsets[i] + segments[i].size <= Size(segments[..j])
    ensures segments[..|segments|] == segments
    decreases j
  {
    assert segments[..|segments|] == segments;
    assert segments[..j][..j - 1] == segments[..j - 1];
    if i < j - 1 { OffsetsApart(segments, offsets, i, j - 1); }
  }

  ghost predicate InSegment(segments: seq<TermSegment>, offsets: seq<nat>, number: nat, k: nat) {
    && k < |segments| == |offsets| && offsets[k] <= number
    && (k + 1 < |segments| ==> number < offsets[k + 1])
  }

  lemma {:induction false} LaterSegments(segments: seq<TermSegment>, offsets: seq<nat>, number: nat, k: nat, j: nat)
    requires Laid(segments, offsets) && InSegment(segments, offsets, number, k) && j < |segments|
    ensures j > k ==> number < offsets[j]
    ensures j < k ==> offsets[j] + segments[j].size <= number
    ensures k + 1 < |segments| ==> number < offsets[k] + segments[k].size
    ensures k + 1 == |segments| && number < Size(segments) ==> number < offsets[k] + segments[k].size
  {
    if k + 1 < j { OffsetsApart(segments, offsets, k + 1, j); }
    if j < k { OffsetsApart(segments, offsets, j, k); }
    if k + 1 < |segments| { assert segments[..k + 1][..k] == segments[..k]; }
    else { assert segments[..k + 1] == segments; assert segments[..|segments| - 1] == segments[..k]; }
  }

  function Local(number: nat, offset: nat): nat {
    if number < offset then 0 else number - offset
  }

  /** The answer for a global target: the segment and last document of the block reached,
      and its impacts, none when nothing of it may be skipped. */
  datatype Answer = Failure | Nothing | Reach(end: nat, impacts: seq<Impact>, seg: nat)

  type Cursors = seq<Option<Cursor>>

  /** The cursors and the answer after looking at the segments from the k-th on. */
  function Walk(segments: seq<TermSegment>, offsets: seq<nat>, cursors: Cursors, k: nat, local: UInt64): (Cursors, Answer)
    requires |segments| == |offsets| == |cursors|
    decreases |segments| - k
  {
    if k >= |segments| then (cursors, Nothing)
    else if LiveOf(segments[k]) == [] then Walk(segments, offsets, cursors, k + 1, 0)
    else if segments[k].impacts.Some? then
      var (c, r) := ShallowIn(segments[k], cursors[k], local);
      match r
      case Failed => (cursors, Failure)
      case Exhausted => Walk(segments, offsets, cursors[k := c], k + 1, 0)
      case Reached(b) => (cursors[k := c], Reach(b.end + offsets[k], b.impacts, k))
    else if segments[k].size > 0 then (cursors, Reach(offsets[k] + segments[k].size - 1, [], k))
    else Walk(segments, offsets, cursors, k + 1, 0)
  }

  ghost predicate CursorsOk(segments: seq<TermSegment>, offsets: seq<nat>, cursors: Cursors, number: nat)
  {
    && |segments| == |offsets| == |cursors|
    && forall k :: 0 <= k < |segments| ==> CursorOk(segments[k], cursors[k], Local(number, offsets[k]))
  }

  ghost predicate AllWellFormed(segments: seq<TermSegment>) {
    forall s :: s in segments ==> WellFormed(s)
  }

  /** No live posting of the k-th segment is at or after the number. */
  ghost predicate Passed(s: TermSegment, offset: nat, number: nat) {
    forall p :: p in LiveOf(s) ==> p.doc + offset < number
  }

  /** From the number to the end reached, every live posting is in the segment reported
      and, where impacts are given, dominated by them; nothing is left when nothing is reached. */
  ghost predicate SoundAt(s: TermSegment, offset: nat, k: nat, number: nat, a: Answer) {
    match a
    case Failure => false
    case Nothing => Passed(s, offset, number)
    case Reach(end, impacts, seg) =>
      forall p :: p in LiveOf(s) && number <= p.doc + offset <= end ==> k == seg && (impacts != [] ==> Covered(impacts, p.impact))
  }

  ghost predicate SoundAnswer(segments: seq<TermSegment>, offsets: seq<nat>, number: nat, a: Answer)
    requires |segments| == |offsets|
  {
    && (a.Reach? ==> a.seg < |segments| && number <= a.end < Size(segments))
    && forall k :: 0 <= k < |segments| ==> SoundAt(segments[k], offsets[k], k, number, a)
  }

  lemma CursorsOkUpdate(segments: seq<TermSegment>, offsets: seq<nat>, cursors: Cursors, number: nat, k: nat, c: Option<Cursor>)
    requires CursorsOk(segments, offsets, cursors, number) && k < |segments|
    requires CursorOk(segments[k], c, Local(number, offsets[k]))
    ensures CursorsOk(segments, offsets, cursors[k := c], number)
  {
  }

  lemma CursorsOkLater(segments: seq<TermSegment>, offsets: seq<nat>, cursors: Cursors, number: nat, later: nat)
    requires CursorsOk(segments, offsets, cursors, number) && number <= later
    ensures CursorsOk(segments, offsets, cursors, later)
  {
    hide CursorOk;
    forall k | 0 <= k < |segments| ensures CursorOk(segments[k], cursors[k], Local(later, offsets[k])) {
      CursorOkLater(segments[k], cursors[k], Local(number, offsets[k]), Local(later, offsets[k]));
    }
  }

  /** What one segment's own answer means in global numbers. */
  lemma ReachedSegment(segments: seq<TermSegment>, offsets: seq<nat>, cursors: Cursors, k: nat, number: nat)
    requires Laid(segments, offsets) && AllWellFormed(segments) && CursorsOk(segments, offsets, cursors, number)
    requires k < |segments| && segments[k].impacts.Some? && Local(number, offsets[k]) < UINT64_SIZE
    ensures
      var (c, r) := ShallowIn(segments[k], cursors[k], Local(number, offsets[k]));
      && CursorsOk(segments, offsets, cursors[k := c], number)
      && !r.Failed?
      && (r.Exhausted? ==> Passed(segments[k], offsets[k], number))
      && (r.Reached? ==>
            && Local(number, offsets[k]) <= r.block.end < segments[k].size
            && SoundAt(segments[k], offsets[k], k, number, Reach(r.block.end + offsets[k], r.block.impacts, k)))
  {
    hide CursorsOk, CursorOk, ShallowIn, Covered;
    var s, local := segments[k], Local(number, offsets[k]);
    assert s in segments;
    CursorsOkAt(segments, offsets, cursors, number, k);
    ShallowInIsSound(s, cursors[k], local);
    CursorsOkUpdate(segments, offsets, cursors, number, k, ShallowIn(s, cursors[k], local).0);
    LiveFacts(s.stored, s.deleted);
  }

  lemma CursorsOkAt(segments: seq<TermSegment>, offsets: seq<nat>, cursors: Cursors, number: nat, k: nat)
    requires CursorsOk(segments, offsets, cursors, number) && k < |segments|
    ensures |cursors| == |segments| == |offsets| && CursorOk(segments[k], cursors[k], Local(number, offsets[k]))
  {
  }

  ghost predicate Ahead(segments: seq<TermSegment>, offsets: seq<nat>, k: nat, number: nat)
    requires |segments| == |offsets|
  {
    && (forall j :: k < j < |segments| ==> number < offsets[j])
    && (forall j :: 0 <= j < k && j < |segments| ==> Passed(segments[j], offsets[j], number))
  }

  /** The block reached in the k-th segment, after nothing in the ones before. */
  lemma ReachIsSound(segments: seq<TermSegment>, offsets: seq<nat>, k: nat, number: nat, a: Answer)
    requires Laid(segments, offsets) && k < |segments| && Ahead(segments, offsets, k, number)
    requires a.Reach? && a.seg == k && number <= a.end < offsets[k] + segments[k].size
    requires SoundAt(segments[k], offsets[k], k, number, a)
    ensures SoundAnswer(segments, offsets, number, a)
  {
    hide Covered, LiveOf, Size;
    OffsetsApart(segments, offsets, k, |segments|);
    forall j | 0 <= j < |segments| ensures SoundAt(segments[j], offsets[j], j, number, a) {
      if j < k {
        assert Passed(segments[j], offsets[j], number);
      } else if j > k {
        OffsetsApart(segments, offsets, k, j);
      }
    }
  }

  lemma LiveNeedsRoom(s: TermSegment)
    requires WellFormed(s) && LiveOf(s) != []
    ensures s.size > 0
  {
    LiveFacts(s.stored, s.deleted);
    assert LiveOf(s)[0] in LiveOf(s);
  }

  /** A walk from the segment that holds the number is sound and keeps the cursors in
      front of every later number. */
  lemma {:induction false} WalkIsSound(segments: seq<TermSegment>, offsets: seq<nat>, cursors: Cursors, k: nat, number: nat)
    requires Laid(segments, offsets) && AllWellFormed(segments) && CursorsOk(segments, offsets, cursors, number)
    requires k <= |segments| && Ahead(segments, offsets, k, number)
    requires k < |segments| ==> Local(number, offsets[k]) < UINT64_SIZE && number < offsets[k] + segments[k].size
    ensures
      var local := if k < |segments| then Local(number, offsets[k]) else 0;
      var (after, a) := Walk(segments, offsets, cursors, k, local);
      CursorsOk(segments, offsets, after, number) && SoundAnswer(segments, offsets, number, a)
    decreases |segments| - k
  {
    hide CursorOk, ShallowIn, Size, WellFormed, LiveOf, Covered;
    if k < |segments| {
      var s, local := segments[k], Local(number, offsets[k]);
      if LiveOf(s) == [] {
        WalkIsSound(segments, offsets, cursors, k + 1, number);
      } else if s.impacts.Some? {
        ReachedSegment(segments, offsets, cursors, k, number);
        var (c, r) := ShallowIn(s, cursors[k], local);
        if r.Exhausted? {
          WalkIsSound(segments, offsets, cursors[k := c], k + 1, number);
        } else {
          ReachIsSound(segments, offsets, k, number, Reach(r.block.end + offsets[k], r.block.impacts, k));
        }
      } else {
        LiveNeedsRoom(s);
        ReachIsSound(segments, offsets, k, number, Reach(offsets[k] + s.size - 1, [], k));
      }
    }
  }

  /** A walk reaches no segment before its start, and ends inside the one it reaches. */
  lemma {:induction false} WalkGoesForward(segments: seq<TermSegment>, offsets: seq<nat>, cursors: Cursors, k: nat, local: UInt64)
    requires |segments| == |offsets| == |cursors|
    ensures
      var a := Walk(segments, offsets, cursors, k, local).1;
      a.Reach? ==> k <= a.seg < |segments| && offsets[a.seg] <= a.end
    decreases |segments| - k
  {
    hide ShallowIn, LiveOf;
    if k < |segments| {
      var s := segments[k];
      if LiveOf(s) != [] && s.impacts.Some? {
        var (c, r) := ShallowIn(s, cursors[k], local);
        if r.Exhausted? { WalkGoesForward(segments, offsets, cursors[k := c], k + 1, 0); }
      } else if LiveOf(s) == [] || s.size == 0 {
        WalkGoesForward(segments, offsets, cursors, k + 1, 0);
      }
    }
  }

  // ---------------------------------------------------------------- which block is reached

  /** The first stored block that ends at or after a document: its end and its pairs. */
  ghost predicate FirstBlock(s: TermSegment, local: nat, end: nat, impacts: seq<Impact>) {
    && impacts != [] && (forall f :: f in impacts ==> f in ImpactsOf(s.stored))
    && exists runs, j :: Stored(s, runs) && end < UINT64_SIZE && IsFirstAt(BlocksOf(runs), local, Block(end, impacts), j)
  }

  /** A walk passes over a segment where the term has no live posting, or no block that
      ends at or after the number. */
  ghost predicate PassedOver(s: TermSegment, local: nat) {
    LiveOf(s) == [] || (s.impacts.Some? && forall p :: p in s.stored ==> p.doc < local)
  }

  /** From the k-th segment on, the number leads to the first segment not passed over: to
      the first block there, or to its last document if it has no impacts. */
  ghost predicate LeadsTo(segments: seq<TermSegment>, offsets: seq<nat>, k: nat, number: nat, a: Answer)
    requires |segments| == |offsets|
  {
    match a
    case Failure => false
    case Nothing => forall j :: k <= j < |segments| ==> PassedOver(segments[j], Local(number, offsets[j]))
    case Reach(end, impacts, seg) =>
      && k <= seg < |segments| && offsets[seg] <= end && LiveOf(segments[seg]) != []
      && (forall j :: k <= j < seg ==> PassedOver(segments[j], Local(number, offsets[j])))
      && if segments[seg].impacts.Some?
         then FirstBlock(segments[seg], Local(number, offsets[seg]), end - offsets[seg], impacts)
         else impacts == [] && end == offsets[seg] + segments[seg].size - 1
  }

  lemma ShallowInIsFirst(s: TermSegment, cursor: Option<Cursor>, local: UInt64)
    requires WellFormed(s) && s.impacts.Some? && CursorOk(s, cursor, local)
    ensures
      var r := ShallowIn(s, cursor, local).1;
      && !r.Failed? && (r.Exhausted? ==> forall p :: p in s.stored ==> p.doc < local)
      && (r.Reached? ==> FirstBlock(s, local, r.block.end, r.block.impacts))
  {
    hide At, Advanced, Blocks;
    ShallowInIsSound(s, cursor, local);
    var c, runs, at := OpenedOk(s, cursor, local);
    var after := AdvancedIsFirst(c, BlocksOf(runs), at, local);
  }

  lemma ReachedIsFirst(segments: seq<TermSegment>, offsets: seq<nat>, cursors: Cursors, k: nat, number: nat)
    requires AllWellFormed(segments) && CursorsOk(segments, offsets, cursors, number)
    requires k < |segments| && segments[k].impacts.Some? && Local(number, offsets[k]) < UINT64_SIZE
    ensures
      var local := Local(number, offsets[k]);
      var (c, r) := ShallowIn(segments[k], cursors[k], local);
      && CursorsOk(segments, offsets, cursors[k := c], number)
      && !r.Failed? && (r.Exhausted? ==> forall p :: p in segments[k].stored ==> p.doc < local)
      && (r.Reached? ==> FirstBlock(segments[k], local, r.block.end, r.block.impacts))
  {
    hide CursorsOk, CursorOk, ShallowIn, FirstBlock;
    CursorsOkAt(segments, offsets, cursors, number, k);
    var s, local := segments[k], Local(number, offsets[k]);
    assert s in segments;
    ShallowInIsSound(s, cursors[k], local);
    ShallowInIsFirst(s, cursors[k], local);
    CursorsOkUpdate(segments, offsets, cursors, number, k, ShallowIn(s, cursors[k], local).0);
  }

  /** What a walk from a segment reaches, whatever was asked before. */
  lemma {:induction false} WalkLeadsTo(segments: seq<TermSegment>, offsets: seq<nat>, cursors: Cursors, k: nat, number: nat)
    requires AllWellFormed(segments) && CursorsOk(segments, offsets, cursors, number)
    requires k <= |segments| && forall j :: k < j < |segments| ==> number < offsets[j]
    requires k < |segments| ==> Local(number, offsets[k]) < UINT64_SIZE
    ensures
      var local := if k < |segments| then Local(number, offsets[k]) else 0;
      LeadsTo(segments, offsets, k, number, Walk(segments, offsets, cursors, k, local).1)
    decreases |segments| - k
  {
    hide CursorOk, CursorsOk, ShallowIn, WellFormed, LiveOf, FirstBlock;
    if k < |segments| {
      CursorsOkAt(segments, offsets, cursors, number, k);
      var s, local := segments[k], Local(number, offsets[k]);
      if LiveOf(s) == [] {
        WalkLeadsTo(segments, offsets, cursors, k + 1, number);
      } else if s.impacts.Some? {
        ReachedIsFirst(segments, offsets, cursors, k, number);
        var (c, r) := ShallowIn(s, cursors[k], local);
        if r.Exhausted? { WalkLeadsTo(segments, offsets, cursors[k := c], k + 1, number); }
      } else {
        assert s in segments;
        LiveNeedsRoom(s);
      }
    }
  }
}
