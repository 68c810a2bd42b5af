/** The coder that collects impacts while a posting list is written, and the cursor
    that reads them back. */
module ImpactCoding {
  import opened Basics
  import opened Impacts

  function Flatten(runs: seq<seq<Posting>>): seq<Posting> {
    if runs == [] then [] else Flatten(runs[..|runs| - 1]) + runs[|runs| - 1]
  }

  ghost predicate Increasing(ps: seq<Posting>) {
    forall i, j :: 0 <= i < j < |ps| ==> ps[i].doc < ps[j].doc
  }

  ghost predicate NonEmptyRuns(runs: seq<seq<Posting>>) {
    forall k :: 0 <= k < |runs| ==> runs[k] != [] && |runs[k]| <= IMPACT_BLOCK_SIZE
  }

  function BlocksOf(runs: seq<seq<Posting>>): (r: seq<Block>)
    requires NonEmptyRuns(runs)
    ensures |r| == |runs| && forall k :: 0 <= k < |runs| ==> r[k] == BlockOf(runs[k])
  {
    if runs == [] then [] else BlocksOf(runs[..|runs| - 1]) + [BlockOf(runs[|runs| - 1])]
  }

  /** The bytes stored for a posting list cut into these runs. */
  ghost function EncodeRuns(runs: seq<seq<Posting>>): seq<Byte>
    requires NonEmptyRuns(runs) && EndsAscend(BlocksOf(runs), 0)
  {
    EncodeUvarint(|runs|) + EncodeBlocks(BlocksOf(runs), 0)
  }

  lemma FlattenSnoc(runs: seq<seq<Posting>>, run: seq<Posting>)
    ensures Flatten(runs + [run]) == Flatten(runs) + run
  {
    assert (runs + [run])[..|runs|] == runs;
  }

  /** Where each run sits in the whole list. */
  lemma {:induction false} RunPosition(runs: seq<seq<Posting>>, k: nat) returns (start: nat)
    requires k < |runs|
    ensures start + |runs[k]| <= |Flatten(runs)|
    ensures Flatten(runs)[start..start + |runs[k]|] == runs[k]
    ensures start == |Flatten(runs[..k])|
  {
    var init := runs[..|runs| - 1];
    if k == |runs| - 1 {
      start := |Flatten(init)|;
    } else {
      start := RunPosition(init, k);
      assert init[..k] == runs[..k];
      assert Flatten(runs)[start..start + |runs[k]|] == Flatten(init)[start..start + |runs[k]|];
    }
  }

  /** Runs of 64 postings have 64 times as many postings. */
  lemma {:induction false} FullLength(runs: seq<seq<Posting>>, j: nat)
    requires j <= |runs| && forall k :: 0 <= k < j ==> |runs[k]| == 64
    ensures |Flatten(runs[..j])| == 64 * j
  {
    if j > 0 {
      FullLength(runs, j - 1);
      assert runs[..j][..j - 1] == runs[..j - 1];
    }
  }

  /** A list cut after every 64th posting. */
  lemma BlockCount(runs: seq<seq<Posting>>)
    requires NonEmptyRuns(runs) && forall k :: 0 <= k < |runs| - 1 ==> |runs[k]| == 64
    ensures |runs| == (|Flatten(runs)| + 63) / 64
  {
    if runs != [] { FullLength(runs, |runs| - 1); }
  }

  lemma RunsInOrder(runs: seq<seq<Posting>>, i: nat, j: nat, x: nat, y: nat)
    requires Increasing(Flatten(runs))
    requires i < |runs| && j < |runs| && x < |runs[i]| && y < |runs[j]|
    requires i < j || (i == j && x < y)
    ensures runs[i][x].doc < runs[j][y].doc
  {
    var all := Flatten(runs);
    var a := RunPosition(runs, i);
    var b := RunPosition(runs, j);
    if i < j { PrefixRuns(runs, i, j); }
    assert all[a + x] == all[a..a + |runs[i]|][x];
    assert all[b + y] == all[b..b + |runs[j]|][y];
  }

  lemma RunsAscend(runs: seq<seq<Posting>>)
    requires NonEmptyRuns(runs) && Increasing(Flatten(runs))
    ensures EndsAscend(BlocksOf(runs), 0)
  {
    forall i, j | 0 <= i < j < |runs| ensures BlocksOf(runs)[i].end <= BlocksOf(runs)[j].end {
      RunsInOrder(runs, i, j, |runs[i]| - 1, |runs[j]| - 1);
    }
  }

  lemma {:induction false} PrefixRuns(runs: seq<seq<Posting>>, i: nat, j: nat)
    requires i < j <= |runs|
    ensures |Flatten(runs[..i])| + |runs[i]| <= |Flatten(runs[..j])|
    decreases j
  {
    assert runs[..j][..j - 1] == runs[..j - 1];
    if i < j - 1 { PrefixRuns(runs, i, j - 1); }
  }

  // ---------------------------------------------------------------- the coder

  /** The open block: its last document and its frontier so far. */
  ghost predicate OpenOk(open: seq<Posting>, blockEnd: UInt64, frontier: seq<Impact>) {
    frontier == Frontier(open) && (open != [] ==> blockEnd == open[|open| - 1].doc)
  }

  /** The blocks already written. */
  ghost predicate WrittenOk(runs: seq<seq<Posting>>, previousEnd: UInt64, blocks: nat, encoded: seq<Byte>) {
    && NonEmptyRuns(runs) && EndsAscend(BlocksOf(runs), 0) && previousEnd == LastEnd(BlocksOf(runs), 0)
    && blocks == |runs| && encoded == EncodeBlocks(BlocksOf(runs), 0)
  }

  class ImpactCoder {
    var enabled: bool
    var blockDocs: nat
    var blockEnd: UInt64
    var previousEnd: UInt64
    var blocks: nat
    const frontier: array<Impact>
    var frontierLen: nat
    var encodedBlocks: seq<Byte>

    ghost var written: seq<seq<Posting>>
    ghost var open: seq<Posting>
    ghost var finished: bool

    /** Until it is finished the coder has written blocks of 64 postings only. */
    ghost predicate Valid()
      reads this, frontier
    {
      Flushable() && blockDocs < IMPACT_BLOCK_SIZE && (!finished ==> forall k :: 0 <= k < |written| ==> |written[k]| == 64)
    }

    /** Valid, except that the open block may be full. */
    ghost predicate Flushable()
      reads this, frontier
    {
      && frontier.Length == IMPACT_BLOCK_SIZE && frontierLen <= blockDocs == |open| <= IMPACT_BLOCK_SIZE
      && OpenOk(open, blockEnd, frontier[..frontierLen])
      && WrittenOk(written, previousEnd, blocks, encodedBlocks)
      && Increasing(Added())
    }

    /** Every posting added since the last reset, in order. */
    ghost function Added(): seq<Posting>
      reads this
    {
      Flatten(written) + open
    }

    constructor ()
      ensures Valid() && fresh(frontier) && Added() == [] && !enabled && !finished
    {
      hide WrittenOk, OpenOk, Increasing, Flatten;
      frontier := new Impact[IMPACT_BLOCK_SIZE](i => Impact(0, 0));
      enabled, blockDocs, blockEnd, previousEnd, blocks, frontierLen, encodedBlocks := false, 0, 0, 0, 0, 0, [];
      written, open, finished := [], [], false;
      new;
      NothingWritten(frontier[..frontierLen]);
    }

    method Reset(cardinality: nat)
      requires frontier.Length == IMPACT_BLOCK_SIZE
      modifies this
      ensures Valid() && Added() == [] && !finished && enabled == (cardinality >= 128)
    {
      hide WrittenOk, OpenOk, Increasing, Flatten;
      enabled := cardinality >= IMPACT_MIN_POSTINGS;
      blockDocs, blockEnd, previousEnd, blocks, frontierLen, encodedBlocks := 0, 0, 0, 0, 0, [];
      written, open, finished := [], [], false;
      NothingWritten(frontier[..frontierLen]);
    }

    method IsCovered(x: Impact) returns (covered: bool)
      requires frontierLen <= frontier.Length
      ensures covered == Covered(frontier[..frontierLen], x)
    {
      var i := 0;
      while i < frontierLen
        invariant 0 <= i <= frontierLen
        invariant forall k :: 0 <= k < i ==> !Dominates(frontier[k], x)
      {
        if Dominates(frontier[i], x) {
          assert frontier[..frontierLen][i] in frontier[..frontierLen];
          return true;
        }
        i := i + 1;
      }
      covered := false;
    }

    /** Moves the entries x does not dominate to the front, in their order. */
    method Squeeze(x: Impact) returns (kept: nat)
      requires frontierLen <= frontier.Length
      modifies frontier
      ensures kept <= frontierLen && frontier[..kept] == Undominated(old(frontier[..frontierLen]), x)
    {
      hide Dominates;
      ghost var before := frontier[..frontierLen];
      kept := 0;
      var i := 0;
      while i < frontierLen
        invariant 0 <= kept <= i <= frontierLen == |before|
        invariant frontier[..kept] == Undominated(before[..i], x)
        invariant forall k :: i <= k < frontierLen ==> frontier[k] == before[k]
      {
        var impact := frontier[i];
        assert before[..i + 1][..i] == before[..i] && before[..i + 1][i] == impact;
        if !Dominates(x, impact) {
          ghost var front := frontier[..kept];
          frontier[kept] := impact;
          kept := kept + 1;
          assert frontier[..kept] == front + [impact];
        }
        i := i + 1;
      }
      assert before[..|before|] == before;
    }

    /** Keeps the frontier in place: dominated entries are squeezed out. */
    method AddToFrontier(x: Impact)
      requires frontier.Length == IMPACT_BLOCK_SIZE && frontierLen < IMPACT_BLOCK_SIZE
      modifies `frontierLen, frontier
      ensures frontierLen <= IMPACT_BLOCK_SIZE
      ensures frontier[..frontierLen] == AddImpact(old(frontier[..frontierLen]), x)
    {
      hide Dominates, Covered, Undominated;
      var covered := IsCovered(x);
      if covered {
        return;
      }
      var kept := Squeeze(x);
      ghost var front := frontier[..kept];
      frontier[kept] := x;
      assert frontier[..kept + 1] == front + [x];
      frontierLen := kept + 1;
    }

    /** Insertion sort in place. */
    method SortFrontier()
      requires frontier.Length == IMPACT_BLOCK_SIZE && frontierLen <= IMPACT_BLOCK_SIZE
      modifies frontier
      ensures frontier[..frontierLen] == SortImpacts(old(frontier[..frontierLen]))
    {
      hide InsertSorted;
      ghost var before := frontier[..frontierLen];
      if frontierLen == 0 {
        return;
      }
      SortPrefix(before, 0);
      var i := 1;
      assert frontier[..1] == [before[0]];
      while i < frontierLen
        invariant 1 <= i <= frontierLen == |before|
        invariant frontier[..i] == SortImpacts(before[..i])
        invariant forall k :: i <= k < frontierLen ==> frontier[k] == before[k]
      {
        SortPrefix(before, i);
        InsertOne(i);
        i := i + 1;
      }
      assert before[..|before|] == before;
    }

    method InsertOne(i: nat)
      requires frontier.Length == IMPACT_BLOCK_SIZE && 1 <= i < frontierLen <= IMPACT_BLOCK_SIZE
      modifies frontier
      ensures frontier[..i + 1] == InsertSorted(old(frontier[..i]), old(frontier[i]))
      ensures forall k :: i < k < frontierLen ==> frontier[k] == old(frontier[k])
    {
      hide ImpactLess, InsertSorted;
      ghost var sorted := frontier[..i];
      var impact := frontier[i];
      var j := i;
      while j > 0 && ImpactLess(impact, frontier[j - 1])
        invariant 0 <= j <= i
        invariant forall k :: 0 <= k < j ==> frontier[k] == sorted[k]
        invariant forall k :: j < k <= i ==> frontier[k] == sorted[k - 1]
        invariant forall k :: j <= k < i ==> ImpactLess(impact, sorted[k])
        invariant forall k :: i < k < frontierLen ==> frontier[k] == old(frontier[k])
      {
        frontier[j] := frontier[j - 1];
        j := j - 1;
      }
      InsertSortedAt(sorted, impact, j);
      frontier[j] := impact;
      AroundPlace(frontier[..i + 1], sorted, impact, j);
    }

    method WriteUvarint(value: UInt64)
      modifies `encodedBlocks
      ensures encodedBlocks == old(encodedBlocks) + EncodeUvarint(value)
    {
      encodedBlocks := encodedBlocks + EncodeUvarint(value);
    }

    method WriteImpacts()
      requires frontier.Length == IMPACT_BLOCK_SIZE && frontierLen <= IMPACT_BLOCK_SIZE
      modifies `encodedBlocks
      ensures encodedBlocks == old(encodedBlocks) + EncodeImpacts(frontier[..frontierLen])
    {
      hide EncodeUvarint;
      ghost var before, impacts := encodedBlocks, frontier[..frontierLen];
      var i := 0;
      assert impacts[..0] == [];
      while i < frontierLen
        invariant 0 <= i <= frontierLen == |impacts|
        invariant encodedBlocks == before + EncodeImpacts(impacts[..i])
      {
        EncodeImpactsSnoc(impacts[..i], impacts[i]);
        assert impacts[..i + 1] == impacts[..i] + [impacts[i]];
        ghost var done, f, n := EncodeImpacts(impacts[..i]), EncodeUvarint(impacts[i].freq), EncodeUvarint(impacts[i].norm);
        WriteUvarint(frontier[i].freq);
        WriteUvarint(frontier[i].norm);
        Assoc(before + done, f, n);
        Assoc(before, done, f + n);
        i := i + 1;
      }
      assert impacts[..|impacts|] == impacts;
    }

    /** Sorts the frontier and appends the encoded block. */
    method WriteBlock(ghost run: seq<Posting>)
      requires frontier.Length == IMPACT_BLOCK_SIZE && frontierLen <= IMPACT_BLOCK_SIZE
      requires run != [] && frontier[..frontierLen] == Frontier(run) && blockEnd == run[|run| - 1].doc
      requires previousEnd <= blockEnd
      modifies `encodedBlocks, frontier
      ensures encodedBlocks == old(encodedBlocks) + EncodeBlock(BlockOf(run), previousEnd)
    {
      hide EncodeUvarint, EncodeImpacts, SortImpacts, Frontier;
      ghost var before := encodedBlocks;
      SortFrontier();
      SortImpactsFacts(Frontier(run));
      WriteUvarint(blockEnd - previousEnd);
      WriteUvarint(frontierLen);
      WriteImpacts();
      ghost var a, b, c := EncodeUvarint(blockEnd - previousEnd), EncodeUvarint(frontierLen), EncodeImpacts(BlockOf(run).impacts);
      Assoc(before, a, b);
      Assoc(before, a + b, c);
    }

    /** Writes the open block, if it holds anything. */
    method FlushBlock()
      requires Flushable() && (finished || ((forall k :: 0 <= k < |written| ==> |written[k]| == 64) && |open| == 64))
      modifies this, frontier
      ensures Valid() && enabled == old(enabled) && finished == old(finished) && open == [] && Added() == old(Added())
      ensures written == old(written) + if old(open) == [] then [] else [old(open)]
    {
      hide WrittenOk, EncodeBlock, Increasing, Frontier, BlockOf;
      EmptyFrontier();
      if blockDocs == 0 {
        assert written + [] == written && frontier[..0] == [];
        return;
      }
      OneMoreRun(written, open, previousEnd, blocks, encodedBlocks);
      WriteBlock(open);
      previousEnd := blockEnd;
      blocks := blocks + 1;
      blockDocs := 0;
      frontierLen := 0;
      written, open := written + [open], [];
      assert frontier[..0] == [];
    }

    method AddOpen(p: Posting)
      requires Valid() && (Added() != [] ==> Added()[|Added()| - 1].doc < p.doc)
      modifies this, frontier
      ensures Flushable() && enabled == old(enabled) && finished == old(finished) && written == old(written)
      ensures Added() == old(Added()) + [p]
    {
      hide WrittenOk, Increasing, Frontier, AddImpact, Flatten;
      OneMorePosting(written, open, p);
      blockEnd := p.doc;
      blockDocs := blockDocs + 1;
      AddToFrontier(p.impact);
      open := open + [p];
    }

    method Add(p: Posting)
      requires Valid() && (enabled && Added() != [] ==> Added()[|Added()| - 1].doc < p.doc)
      modifies this, frontier
      ensures Valid() && enabled == old(enabled) && finished == old(finished)
      ensures Added() == if enabled then old(Added()) + [p] else old(Added())
    {
      if !enabled {
        return;
      }
      AddOpen(p);
      if blockDocs == IMPACT_BLOCK_SIZE {
        FlushBlock();
      }
    }

    /** The stored form: nothing for short lists, else the block count and the blocks. */
    method Finish() returns (data: Option<seq<Byte>>)
      requires Valid()
      modifies this, frontier
      ensures Valid() && enabled == old(enabled) && Added() == old(Added())
      ensures data.Some? == enabled
      ensures enabled ==> Added() == Flatten(written) && NonEmptyRuns(written) && EndsAscend(BlocksOf(written), 0)
      ensures enabled ==> data.value == EncodeRuns(written)
      ensures enabled && !old(finished) ==> |written| == (|Added()| + 63) / 64 && forall k :: 0 <= k < |written| - 1 ==> |written[k]| == 64
    {
      hide WrittenOk, OpenOk, Flatten, Increasing, NonEmptyRuns, EndsAscend, BlocksOf, EncodeRuns, EncodeUvarint;
      if !enabled {
        return None;
      }
      finished := true;
      FlushBlock();
      WrittenIsEncoded(written, previousEnd, blocks, encodedBlocks);
      if !old(finished) { BlockCount(written); }
      assert Flatten(written) + [] == Flatten(written);
      data := Some(EncodeUvarint(blocks) + encodedBlocks);
    }
  }

  lemma AroundPlace(r: seq<Impact>, sorted: seq<Impact>, x: Impact, j: nat)
    requires |r| == |sorted| + 1 && j <= |sorted| && r[j] == x
    requires forall k :: 0 <= k < j ==> r[k] == sorted[k]
    requires forall k :: j < k < |r| ==> r[k] == sorted[k - 1]
    ensures r == sorted[..j] + [x] + sorted[j..]
  {
  }

  lemma NothingWritten(front: seq<Impact>)
    requires front == []
    ensures WrittenOk([], 0, 0, []) && OpenOk([], 0, front) && Increasing(Flatten([]) + []) && Flatten([]) + [] == []
  {
    EmptyFrontier();
  }

  lemma RunsSnoc(runs: seq<seq<Posting>>, run: seq<Posting>)
    requires NonEmptyRuns(runs) && run != [] && |run| <= IMPACT_BLOCK_SIZE
    ensures NonEmptyRuns(runs + [run]) && BlocksOf(runs + [run]) == BlocksOf(runs) + [BlockOf(run)]
    ensures LastEnd(BlocksOf(runs + [run]), 0) == run[|run| - 1].doc
  {
    hide SortImpacts, Frontier;
    assert (runs + [run])[..|runs|] == runs;
  }

  lemma OneMoreRun(runs: seq<seq<Posting>>, run: seq<Posting>, previousEnd: UInt64, blocks: nat, encoded: seq<Byte>)
    requires WrittenOk(runs, previousEnd, blocks, encoded)
    requires run != [] && |run| <= IMPACT_BLOCK_SIZE && Increasing(Flatten(runs) + run)
    ensures previousEnd <= run[|run| - 1].doc
    ensures WrittenOk(runs + [run], run[|run| - 1].doc, blocks + 1, encoded + EncodeBlock(BlockOf(run), previousEnd))
    ensures Flatten(runs + [run]) + [] == Flatten(runs) + run
  {
    hide Increasing, EndsAscend, BlocksOf, EncodeBlocks, EncodeBlock, LastEnd, Flatten, NonEmptyRuns;
    FlattenSnoc(runs, run);
    RunsSnoc(runs, run);
    RunsAscend(runs + [run]);
    EncodeBlocksSnoc(BlocksOf(runs), BlockOf(run), 0);
  }

  lemma WrittenIsEncoded(runs: seq<seq<Posting>>, previousEnd: UInt64, blocks: nat, encoded: seq<Byte>)
    requires WrittenOk(runs, previousEnd, blocks, encoded)
    ensures NonEmptyRuns(runs) && EndsAscend(BlocksOf(runs), 0) && EncodeUvarint(blocks) + encoded == EncodeRuns(runs)
  {
  }

  lemma EmptyFrontier()
    ensures Frontier([]) == []
  {
  }

  lemma IncreasingSnoc(ps: seq<Posting>, p: Posting)
    requires Increasing(ps) && (ps != [] ==> ps[|ps| - 1].doc < p.doc)
    ensures Increasing(ps + [p])
  {
    forall i | 0 <= i < |ps| ensures ps[i].doc < p.doc { }
  }

  lemma OneMorePosting(runs: seq<seq<Posting>>, open: seq<Posting>, p: Posting)
    requires Increasing(Flatten(runs) + open)
    requires Flatten(runs) + open != [] ==> (Flatten(runs) + open)[|Flatten(runs) + open| - 1].doc < p.doc
    ensures Increasing(Flatten(runs) + (open + [p])) && Flatten(runs) + (open + [p]) == (Flatten(runs) + open) + [p]
    ensures Frontier(open + [p]) == AddImpact(Frontier(open), p.impact)
    ensures |Frontier(open + [p])| <= |open| + 1
  {
    hide Increasing, AddImpact, Flatten;
    IncreasingSnoc(Flatten(runs) + open, p);
    Assoc(Flatten(runs), open, [p]);
    assert (open + [p])[..|open|] == open && (open + [p])[|open|] == p;
    FrontierFacts(open + [p]);
  }

  lemma SortPrefix(s: seq<Impact>, i: nat)
    requires i < |s|
    ensures SortImpacts(s[..i + 1]) == InsertSorted(SortImpacts(s[..i]), s[i])
    ensures i == 0 ==> SortImpacts(s[..1]) == [s[0]]
  {
    assert s[..i + 1][..i] == s[..i] && s[..i + 1][i] == s[i];
    if i == 0 { assert SortImpacts([]) == [] && InsertSorted([], s[0]) == [] + [s[0]]; }
  }

  lemma {:induction false} EncodeImpactsSnoc(impacts: seq<Impact>, x: Impact)
    ensures EncodeImpacts(impacts + [x]) == EncodeImpacts(impacts) + (EncodeUvarint(x.freq) + EncodeUvarint(x.norm))
  {
    if impacts == [] {
      assert [x][1..] == [] && impacts + [x] == [x];
    } else {
      assert (impacts + [x])[1..] == impacts[1..] + [x];
      EncodeImpactsSnoc(impacts[1..], x);
    }
  }
}
