/** The cursor that reads encoded impacts forward, for data of any shape, and what it
    finds in data the coder wrote. */
module ImpactDecoding {
  import opened Basics
  import opened Impacts
  import opened ImpactCoding

  datatype Parsed<T> = Malformed | Parsed(value: T, rest: seq<Byte>)

  function ParseUvarint(data: seq<Byte>): Parsed<UInt64> {
    match DecodeUvarint(data, 0)
    case Value(v, size) => DecodedBounds(data, 0); RoomForUInt64(); Parsed(v, data[size..])
    case _ => Malformed
  }

  lemma {:induction false} DecodedBounds(data: seq<Byte>, i: nat)
    ensures
      match DecodeUvarint(data, i)
      case Value(v, size) => 0 < size <= |data| && i < 10 && v < Room(i)
      case _ => true
    decreases 10 - i
  {
    if i < 10 && data != [] && data[0] >= 128 {
      DecodedBounds(data[1..], i + 1);
    } else if i < 10 && data != [] {
      RoomIsLarge(i);
    }
  }

  lemma {:induction false} RoomIsLarge(i: nat)
    requires i < 10
    ensures if i == 9 then Room(i) == 2 else Room(i) >= 128
    decreases 10 - i
  {
    if i < 9 { RoomIsLarge(i + 1); }
  }

  function ParseImpact(data: seq<Byte>): Parsed<Impact> {
    match ParseUvarint(data) {
      case Malformed => Malformed
      case Parsed(freq, rest) =>
        match ParseUvarint(rest)
        case Malformed => Malformed
        case Parsed(norm, rest) => Parsed(Impact(freq, norm), rest)
    }
  }

  function ParseImpacts(data: seq<Byte>, count: nat): Parsed<seq<Impact>>
    decreases count
  {
    if count == 0 then Parsed([], data)
    else
      match ParseImpact(data)
      case Malformed => Malformed
      case Parsed(x, rest) => Prepended([x], ParseImpacts(rest, count - 1))
  }

  function Prepended(impacts: seq<Impact>, p: Parsed<seq<Impact>>): Parsed<seq<Impact>> {
    match p
    case Malformed => Malformed
    case Parsed(more, rest) => Parsed(impacts + more, rest)
  }

  function ParseBlock(data: seq<Byte>, previousEnd: UInt64): Parsed<Block> {
    match ParseUvarint(data) {
      case Malformed => Malformed
      case Parsed(delta, rest) =>
        match ParseUvarint(rest) {
          case Malformed => Malformed
          case Parsed(count, rest) =>
            if count == 0 || count > IMPACT_BLOCK_SIZE then Malformed
            else
              match ParseImpacts(rest, count)
              case Malformed => Malformed
              case Parsed(impacts, rest) =>
                if UINT64_SIZE - 1 - previousEnd < delta then Malformed
                else Parsed(Block(previousEnd + delta, impacts), rest)
        }
    }
  }

  // ---------------------------------------------------------------- the cursor as a value

  /** What is left to read, and the block read last, if any. */
  datatype Cursor = Cursor(rest: seq<Byte>, left: UInt64, current: Option<Block>)

  datatype Shallow = Failed | Exhausted | Reached(block: Block)

  function OpenCursor(data: seq<Byte>): Option<Cursor> {
    match ParseUvarint(data)
    case Malformed => None
    case Parsed(blocks, rest) => Some(Cursor(rest, blocks, None))
  }

  function CurrentEnd(c: Cursor): UInt64 {
    if c.current.Some? then c.current.value.end else 0
  }

  /** The cursor and the answer after a shallow advance to a target. */
  function Advanced(c: Cursor, target: UInt64): (Cursor, Shallow)
    decreases c.left
  {
    if c.current.Some? && c.current.value.end >= target then (c, Reached(c.current.value))
    else if c.left == 0 then (c, Exhausted)
    else
      match ParseBlock(c.rest, CurrentEnd(c))
      case Malformed => (c, Failed)
      case Parsed(b, rest) => Advanced(Cursor(rest, c.left - 1, Some(b)), target)
  }

  class ImpactDecoder {
    var data: seq<Byte>
    var pos: nat
    var blocksLeft: UInt64
    var currentEnd: UInt64
    var currentValid: bool
    var impacts: seq<Impact>

    ghost predicate Valid()
      reads this
    {
      pos <= |data| && (!currentValid ==> currentEnd == 0)
    }

    ghost function State(): Cursor
      reads this
      requires Valid()
    {
      Cursor(data[pos..], blocksLeft, if currentValid then Some(Block(currentEnd, impacts)) else None)
    }

    constructor ()
      ensures Valid()
    {
      data, pos, blocksLeft, currentEnd, currentValid, impacts := [], 0, 0, 0, false, [];
    }

    method Reset(encoded: seq<Byte>) returns (ok: bool)
      modifies this
      ensures Valid() && ok == OpenCursor(encoded).Some? && (ok ==> State() == OpenCursor(encoded).value)
    {
      data, pos, blocksLeft, currentEnd, currentValid, impacts := encoded, 0, 0, 0, false, [];
      assert data[0..] == data;
      var blocks := ReadUvarint();
      ok := blocks.Some?;
      if ok { blocksLeft := blocks.value; }
    }

    /** One integer from the current position. */
    method ReadUvarint() returns (value: Option<UInt64>)
      requires Valid()
      modifies `pos
      ensures Valid() && pos >= old(pos)
      ensures value == match ParseUvarint(old(data[pos..])) case Malformed => None case Parsed(v, _) => Some(v)
      ensures value.Some? ==> data[pos..] == ParseUvarint(old(data[pos..])).rest
    {
      if pos >= |data| {
        return None;
      }
      var decoded := DecodeUvarint(data[pos..], 0);
      DecodedBounds(data[pos..], 0);
      RoomForUInt64();
      if !decoded.Value? {
        return None;
      }
      assert data[pos + decoded.size..] == data[pos..][decoded.size..];
      pos := pos + decoded.size;
      value := Some(decoded.v);
    }

    method ReadImpacts(count: nat) returns (ok: bool)
      requires Valid()
      modifies `pos, `impacts
      ensures Valid()
      ensures ok == ParseImpacts(old(data[pos..]), count).Parsed?
      ensures ok ==> Parsed(impacts, data[pos..]) == ParseImpacts(old(data[pos..]), count)
    {
      hide ParseUvarint;
      ghost var before := data[pos..];
      impacts := [];
      PrependNone(ParseImpacts(before, count));
      var i := 0;
      while i < count
        invariant 0 <= i <= count && Valid() && |impacts| == i
        invariant data == old(data)
        invariant ParseImpacts(before, count) == Prepended(impacts, ParseImpacts(data[pos..], count - i))
      {
        ghost var rest := data[pos..];
        var freq := ReadUvarint();
        if freq.None? {
          return false;
        }
        var norm := ReadUvarint();
        if norm.None? {
          return false;
        }
        PrependOne(impacts, Impact(freq.value, norm.value), ParseImpacts(data[pos..], count - i - 1));
        impacts := impacts + [Impact(freq.value, norm.value)];
        i := i + 1;
      }
      assert impacts + [] == impacts;
      ok := true;
    }

    /** Reads the next block over the current one. */
    method ReadBlock() returns (ok: bool)
      requires Valid() && blocksLeft > 0
      modifies this
      ensures Valid() && data == old(data)
      ensures ok == ParseBlock(old(data[pos..]), old(currentEnd)).Parsed?
      ensures ok ==> blocksLeft == old(blocksLeft) - 1 && currentValid
      ensures ok ==> Parsed(Block(currentEnd, impacts), data[pos..]) == ParseBlock(old(data[pos..]), old(currentEnd))
    {
      hide ParseUvarint, ParseImpacts;
      var endDelta := ReadUvarint();
      if endDelta.None? {
        return false;
      }
      var count := ReadUvarint();
      if count.None? {
        return false;
      }
      if count.value == 0 || count.value > IMPACT_BLOCK_SIZE {
        return false;
      }
      var read := ReadImpacts(count.value);
      if !read || UINT64_SIZE - 1 - currentEnd < endDelta.value {
        return false;
      }
      currentEnd := currentEnd + endDelta.value;
      currentValid := true;
      blocksLeft := blocksLeft - 1;
      ok := true;
    }

    method AdvanceShallow(docNum: UInt64) returns (r: Shallow)
      requires Valid()
      modifies this
      ensures Valid()
      ensures r == Advanced(old(State()), docNum).1
      ensures !r.Failed? ==> State() == Advanced(old(State()), docNum).0
    {
      hide ParseBlock;
      while !currentValid || currentEnd < docNum
        invariant Valid()
        invariant Advanced(State(), docNum) == Advanced(old(State()), docNum)
        decreases blocksLeft
      {
        if blocksLeft == 0 {
          return Exhausted;
        }
        ghost var before := State();
        var ok := ReadBlock();
        if !ok {
          return Failed;
        }
        assert Advanced(State(), docNum) == Advanced(before, docNum);
      }
      r := Reached(Block(currentEnd, impacts));
    }
  }

  lemma PrependNone(p: Parsed<seq<Impact>>)
    ensures Prepended([], p) == p
  {
    if p.Parsed? { assert [] + p.value == p.value; }
  }

  lemma PrependOne(impacts: seq<Impact>, x: Impact, p: Parsed<seq<Impact>>)
    ensures Prepended(impacts, Prepended([x], p)) == Prepended(impacts + [x], p)
  {
    if p.Parsed? { Assoc(impacts, [x], p.value); }
  }

  // ---------------------------------------------------------------- reading back what was written

  ghost predicate Writable(b: Block) {
    1 <= |b.impacts| <= IMPACT_BLOCK_SIZE
  }

  lemma ParseUvarintRoundTrip(v: UInt64, rest: seq<Byte>)
    ensures ParseUvarint(EncodeUvarint(v) + rest) == Parsed(v, rest)
  {
    RoomForUInt64();
    UvarintRoundTrip(v, 0, rest);
    assert (EncodeUvarint(v) + rest)[|EncodeUvarint(v)|..] == rest;
  }

  lemma {:induction false} ParseImpactsRoundTrip(impacts: seq<Impact>, rest: seq<Byte>)
    ensures ParseImpacts(EncodeImpacts(impacts) + rest, |impacts|) == Parsed(impacts, rest)
  {
    hide ParseUvarint, EncodeUvarint;
    if impacts == [] {
      assert [] + rest == rest;
    } else {
      var x, tail := impacts[0], EncodeImpacts(impacts[1..]);
      var f, n := EncodeUvarint(x.freq), EncodeUvarint(x.norm);
      Assoc(f + n, tail, rest);
      Assoc(f, n, tail + rest);
      assert EncodeImpacts(impacts) + rest == f + (n + (tail + rest));
      ParseUvarintRoundTrip(x.freq, n + (tail + rest));
      ParseUvarintRoundTrip(x.norm, tail + rest);
      ParseImpactsRoundTrip(impacts[1..], rest);
      assert [x] + impacts[1..] == impacts;
    }
  }

  lemma ParseBlockRoundTrip(b: Block, previousEnd: UInt64, rest: seq<Byte>)
    requires previousEnd <= b.end && Writable(b)
    ensures ParseBlock(EncodeBlock(b, previousEnd) + rest, previousEnd) == Parsed(b, rest)
  {
    hide ParseUvarint, EncodeUvarint, ParseImpacts, EncodeImpacts;
    var d, c, i := EncodeUvarint(b.end - previousEnd), EncodeUvarint(|b.impacts|), EncodeImpacts(b.impacts);
    Assoc(d + c, i, rest);
    Assoc(d, c, i + rest);
    assert EncodeBlock(b, previousEnd) + rest == d + (c + (i + rest));
    ParseUvarintRoundTrip(b.end - previousEnd, c + (i + rest));
    ParseUvarintRoundTrip(|b.impacts|, i + rest);
    ParseImpactsRoundTrip(b.impacts, rest);
  }

  // ---------------------------------------------------------------- the first block at or after a target

  ghost predicate Blocks(blocks: seq<Block>) {
    |blocks| < UINT64_SIZE && EndsAscend(blocks, 0) && forall b :: b in blocks ==> Writable(b)
  }

  /** The cursor has read the first k blocks. */
  ghost predicate At(c: Cursor, blocks: seq<Block>, k: nat)
    requires Blocks(blocks)
  {
    && k <= |blocks| && c.left == |blocks| - k
    && c.current == (if k == 0 then None else Some(blocks[k - 1]))
    && EndsAscend(blocks[k..], CurrentEnd(c))
    && c.rest == EncodeBlocks(blocks[k..], CurrentEnd(c))
  }

  /** Every block that ends at or after the target is the current one or still to be read. */
  ghost predicate Before(blocks: seq<Block>, k: nat, target: nat)
  {
    forall i :: 0 <= i < |blocks| && i < k - 1 ==> blocks[i].end < target
  }

  /** The answer for a target: the first block that ends at or after it. */
  ghost predicate IsFirst(blocks: seq<Block>, target: nat, r: Shallow) {
    match r
    case Failed => false
    case Exhausted => forall b :: b in blocks ==> b.end < target
    case Reached(b) => exists j :: IsFirstAt(blocks, target, b, j)
  }

  ghost predicate IsFirstAt(blocks: seq<Block>, target: nat, b: Block, j: nat) {
    j < |blocks| && blocks[j] == b && b.end >= target && forall i :: 0 <= i < j ==> blocks[i].end < target
  }

  lemma OpenAt(blocks: seq<Block>)
    requires Blocks(blocks)
    ensures
      var c := OpenCursor(EncodeUvarint(|blocks|) + EncodeBlocks(blocks, 0));
      c.Some? && At(c.value, blocks, 0)
  {
    ParseUvarintRoundTrip(|blocks|, EncodeBlocks(blocks, 0));
    assert blocks[0..] == blocks;
  }

  lemma ReadNext(c: Cursor, blocks: seq<Block>, k: nat) returns (next: Cursor)
    requires Blocks(blocks) && At(c, blocks, k) && k < |blocks|
    ensures ParseBlock(c.rest, CurrentEnd(c)) == Parsed(blocks[k], next.rest)
    ensures next == Cursor(next.rest, c.left - 1, Some(blocks[k]))
    ensures At(next, blocks, k + 1)
  {
    hide ParseBlock, EncodeBlock;
    var tail := blocks[k..];
    assert tail[0] == blocks[k] && tail[1..] == blocks[k + 1..];
    next := Cursor(EncodeBlocks(blocks[k + 1..], blocks[k].end), c.left - 1, Some(blocks[k]));
    assert Writable(blocks[k]);
    ParseBlockRoundTrip(blocks[k], CurrentEnd(c), next.rest);
  }

  /** On encoded blocks the cursor always lands on the first block that ends at or after
      the target, and stays in front of every later target. */
  lemma {:induction false} AdvancedIsFirst(c: Cursor, blocks: seq<Block>, k: nat, target: UInt64) returns (at: nat)
    requires Blocks(blocks) && At(c, blocks, k) && Before(blocks, k, target)
    ensures IsFirst(blocks, target, Advanced(c, target).1)
    ensures k <= at && At(Advanced(c, target).0, blocks, at) && Before(blocks, at, target)
    decreases |blocks| - k
  {
    hide ParseBlock, EncodeBlocks;
    at := k;
    if k > 0 && blocks[k - 1].end >= target {
      assert IsFirstAt(blocks, target, blocks[k - 1], k - 1);
    } else if k == |blocks| {
      forall b | b in blocks ensures b.end < target {
        var i :| 0 <= i < |blocks| && blocks[i] == b;
      }
    } else {
      var next := ReadNext(c, blocks, k);
      assert Advanced(c, target) == Advanced(next, target);
      at := AdvancedIsFirst(next, blocks, k + 1, target);
    }
  }

  /** The answers to a series of targets. */
  function Answers(c: Cursor, targets: seq<UInt64>): seq<Shallow>
    decreases |targets|
  {
    if targets == [] then []
    else
      var (next, r) := Advanced(c, targets[0]);
      [r] + Answers(next, targets[1..])
  }

  ghost predicate Nondecreasing(targets: seq<UInt64>) {
    forall i, j :: 0 <= i < j < |targets| ==> targets[i] <= targets[j]
  }

  lemma {:induction false} AnswersAreFirst(c: Cursor, blocks: seq<Block>, k: nat, targets: seq<UInt64>, i: nat)
    requires Blocks(blocks) && At(c, blocks, k) && Nondecreasing(targets) && i < |targets|
    requires Before(blocks, k, targets[0])
    ensures |Answers(c, targets)| == |targets| && IsFirst(blocks, targets[i], Answers(c, targets)[i])
    decreases |targets|
  {
    hide Advanced, At, Blocks, IsFirst;
    var at := AdvancedIsFirst(c, blocks, k, targets[0]);
    var (next, r) := Advanced(c, targets[0]);
    var rest := targets[1..];
    if |targets| > 1 {
      assert Before(blocks, at, rest[0]);
      AnswersAreFirst(next, blocks, at, rest, if i == 0 then 0 else i - 1);
    } else {
      assert Answers(next, []) == [];
    }
  }

  // ---------------------------------------------------------------- soundness of skipping by blocks

  lemma RunsAreBlocks(runs: seq<seq<Posting>>)
    requires NonEmptyRuns(runs) && Increasing(Flatten(runs)) && |runs| < UINT64_SIZE
    ensures Blocks(BlocksOf(runs))
  {
    RunsAscend(runs);
    forall b | b in BlocksOf(runs) ensures Writable(b) {
      var k :| 0 <= k < |runs| && BlocksOf(runs)[k] == b;
      FrontierFacts(runs[k]);
      SortImpactsFacts(Frontier(runs[k]));
    }
  }

  lemma {:induction false} FlattenMember(runs: seq<seq<Posting>>, p: Posting) returns (k: nat, x: nat)
    requires p in Flatten(runs)
    ensures k < |runs| && x < |runs[k]| && runs[k][x] == p
  {
    var init, last := runs[..|runs| - 1], runs[|runs| - 1];
    if p in last {
      k := |runs| - 1;
      x :| 0 <= x < |last| && last[x] == p;
    } else {
      k, x := FlattenMember(init, p);
    }
  }

  /** Every pair of real postings a scorer must still look at from the target to the
      block's end is dominated by the block's pairs. */
  ghost predicate Sound(ps: seq<Posting>, target: nat, r: Shallow) {
    match r
    case Failed => false
    case Exhausted => forall p :: p in ps ==> p.doc < target
    case Reached(b) =>
      && b.end >= target && b.impacts != []
      && (exists p :: p in ps && p.doc == b.end)
      && (forall p :: p in ps && target <= p.doc <= b.end ==> Covered(b.impacts, p.impact))
      && (forall f :: f in b.impacts ==> f in ImpactsOf(ps))
  }

  lemma FirstIsSound(runs: seq<seq<Posting>>, target: nat, r: Shallow)
    requires NonEmptyRuns(runs) && Increasing(Flatten(runs))
    requires IsFirst(BlocksOf(runs), target, r)
    ensures Sound(Flatten(runs), target, r)
  {
    hide Frontier, SortImpacts, Covered, Flatten;
    if r.Exhausted? {
      forall p | p in Flatten(runs) ensures p.doc < target {
        NotAfterItsBlock(runs, p);
      }
    } else {
      var j: nat :| IsFirstAt(BlocksOf(runs), target, r.block, j);
      BlockIsSound(runs, target, j);
    }
  }

  /** A posting is not after the end of its run's block. */
  lemma NotAfterItsBlock(runs: seq<seq<Posting>>, p: Posting)
    requires NonEmptyRuns(runs) && Increasing(Flatten(runs)) && p in Flatten(runs)
    ensures exists b :: b in BlocksOf(runs) && p.doc <= b.end
  {
    hide Frontier, SortImpacts, Flatten, Increasing;
    var k, x := FlattenMember(runs, p);
    assert BlocksOf(runs)[k] in BlocksOf(runs);
    if x < |runs[k]| - 1 { RunsInOrder(runs, k, k, x, |runs[k]| - 1); }
  }

  lemma BlockIsSound(runs: seq<seq<Posting>>, target: nat, j: nat)
    requires NonEmptyRuns(runs) && Increasing(Flatten(runs))
    requires j < |runs| && IsFirstAt(BlocksOf(runs), target, BlockOf(runs[j]), j)
    ensures Sound(Flatten(runs), target, Reached(BlockOf(runs[j])))
  {
    hide Covered, Flatten, BlocksOf, BlockOf, Increasing, ImpactsOf;
    BlockFacts(runs[j]);
    RunIsPart(runs, j);
    var b, ps := BlockOf(runs[j]), Flatten(runs);
    forall p | p in ps && target <= p.doc <= b.end ensures Covered(b.impacts, p.impact) {
      InRun(runs, target, j, p);
    }
  }

  lemma BlockFacts(run: seq<Posting>)
    requires run != []
    ensures BlockOf(run).impacts != [] && BlockOf(run).end == run[|run| - 1].doc && run[|run| - 1] in run
    ensures forall f :: f in BlockOf(run).impacts ==> f in ImpactsOf(run)
    ensures forall p :: p in run ==> Covered(BlockOf(run).impacts, p.impact)
  {
    hide Frontier, SortImpacts, Covered;
    FrontierFacts(run);
    SortImpactsFacts(Frontier(run));
    SortedSameElements(Frontier(run));
    forall p | p in run ensures Covered(BlockOf(run).impacts, p.impact) {
      CoveredSame(Frontier(run), BlockOf(run).impacts, p.impact);
    }
  }

  lemma RunIsPart(runs: seq<seq<Posting>>, j: nat)
    requires j < |runs|
    ensures forall p :: p in runs[j] ==> p in Flatten(runs)
    ensures forall f :: f in ImpactsOf(runs[j]) ==> f in ImpactsOf(Flatten(runs))
  {
    hide Flatten;
    var start := RunPosition(runs, j);
    forall p | p in runs[j] ensures p in Flatten(runs) {
      assert p in Flatten(runs)[start..start + |runs[j]|];
    }
  }

  /** A posting between a target and the end of its first block belongs to that block's run. */
  lemma InRun(runs: seq<seq<Posting>>, target: nat, j: nat, p: Posting)
    requires NonEmptyRuns(runs) && Increasing(Flatten(runs))
    requires j < |runs| && IsFirstAt(BlocksOf(runs), target, BlockOf(runs[j]), j)
    requires p in Flatten(runs) && target <= p.doc <= BlockOf(runs[j]).end
    ensures p in runs[j]
  {
    hide Frontier, SortImpacts, Flatten;
    var k, x := FlattenMember(runs, p);
    var run := runs[j];
    if k < j {
      assert BlocksOf(runs)[k].end < target;
      if x < |runs[k]| - 1 { RunsInOrder(runs, k, k, x, |runs[k]| - 1); }
    } else if k > j {
      RunsInOrder(runs, j, k, |run| - 1, x);
    }
  }

  lemma CoveredSame(a: seq<Impact>, b: seq<Impact>, x: Impact)
    requires forall f :: f in a ==> f in b
    requires Covered(a, x)
    ensures Covered(b, x)
  {
  }

  /** A list cut after every 64th posting answers with the 64th posting of the block, or
      the last of the list, and every earlier block lies below the target. */
  lemma AnswerEndsBlock(runs: seq<seq<Posting>>, target: nat, r: Shallow)
    requires NonEmptyRuns(runs) && Increasing(Flatten(runs)) && IsFirst(BlocksOf(runs), target, r)
    requires forall k :: 0 <= k < |runs| - 1 ==> |runs[k]| == 64
    ensures
      var ps := Flatten(runs);
      r.Reached? ==> exists n :: 0 <= n < |ps| && ps[n].doc == r.block.end && (n % 64 == 63 || n == |ps| - 1)
                                 && (n >= 64 ==> ps[n - n % 64 - 1].doc < target)
  {
    hide Frontier, SortImpacts, Flatten, Increasing;
    if r.Reached? {
      var j: nat :| IsFirstAt(BlocksOf(runs), target, r.block, j);
      RunPlace(runs, j);
      if j > 0 {
        RunPlace(runs, j - 1);
        assert BlocksOf(runs)[j - 1].end < target;
      }
    }
  }

  lemma RunPlace(runs: seq<seq<Posting>>, j: nat)
    requires NonEmptyRuns(runs) && j < |runs| && forall k :: 0 <= k < |runs| - 1 ==> |runs[k]| == 64
    ensures
      var ps, n := Flatten(runs), 64 * j + |runs[j]| - 1;
      0 <= n < |ps| && ps[n] == runs[j][|runs[j]| - 1] && (n % 64 == 63 || n == |ps| - 1) && n % 64 == |runs[j]| - 1
  {
    hide Flatten;
    var start := RunPosition(runs, j);
    var ps := Flatten(runs);
    FullLength(runs, j);
    assert ps[start + |runs[j]| - 1] == ps[start..start + |runs[j]|][|runs[j]| - 1];
    if j == |runs| - 1 { LastRunEnds(runs); }
  }

  lemma LastRunEnds(runs: seq<seq<Posting>>)
    requires runs != []
    ensures |Flatten(runs)| == |Flatten(runs[..|runs| - 1])| + |runs[|runs| - 1]|
  {
  }

  /** Reading forward over what the coder stored is sound at every target. */
  lemma StoredImpactsAreSound(runs: seq<seq<Posting>>, targets: seq<UInt64>, i: nat)
    requires NonEmptyRuns(runs) && Increasing(Flatten(runs)) && |runs| < UINT64_SIZE
    requires Nondecreasing(targets) && i < |targets|
    ensures EndsAscend(BlocksOf(runs), 0) && OpenCursor(EncodeRuns(runs)).Some?
    ensures
      var answers := Answers(OpenCursor(EncodeRuns(runs)).value, targets);
      |answers| == |targets| && Sound(Flatten(runs), targets[i], answers[i])
    ensures
      var r, ps := Answers(OpenCursor(EncodeRuns(runs)).value, targets)[i], Flatten(runs);
      (forall k :: 0 <= k < |runs| - 1 ==> |runs[k]| == 64) && r.Reached? ==>
        exists n :: 0 <= n < |ps| && ps[n].doc == r.block.end && (n % 64 == 63 || n == |ps| - 1)
                    && (n >= 64 ==> ps[n - n % 64 - 1].doc < targets[i])
  {
    RunsAreBlocks(runs);
    OpenAt(BlocksOf(runs));
    hide Answers, Sound, IsFirst, At;
    AnswersAreFirst(OpenCursor(EncodeRuns(runs)).value, BlocksOf(runs), 0, targets, i);
    FirstIsSound(runs, targets[i], Answers(OpenCursor(EncodeRuns(runs)).value, targets)[i]);
    if forall k :: 0 <= k < |runs| - 1 ==> |runs[k]| == 64 {
      AnswerEndsBlock(runs, targets[i], Answers(OpenCursor(EncodeRuns(runs)).value, targets)[i]);
    }
  }
}
