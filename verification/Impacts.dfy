/** Block-Max impacts of one posting list: the frontier kept per block, its
    encoding, and the cursor that skips over encoded blocks. */
module Impacts {
  import opened Basics

  const IMPACT_BLOCK_SIZE: nat := 64
  const IMPACT_MIN_POSTINGS: nat := 128
  const UINT64_SIZE: nat := 0x1_0000_0000_0000_0000

  type UInt64 = x: nat | x < UINT64_SIZE

  datatype Impact = Impact(freq: UInt64, norm: UInt64)

  datatype Posting = Posting(doc: UInt64, impact: Impact)

  // ---------------------------------------------------------------- variable-length integers

  function EncodeUvarint(v: nat): (r: seq<Byte>)
    ensures r != []
  {
    if v < 128 then [v] else [v % 128 + 128] + EncodeUvarint(v / 128)
  }

  datatype Uvarint = Short | Overflow | Value(v: nat, size: nat)

  /** Decoding from the i-th byte of a value: at most ten bytes, the tenth at most 1. */
  function DecodeUvarint(data: seq<Byte>, i: nat): Uvarint
    decreases 10 - i
  {
    if i >= 10 then Overflow
    else if data == [] then Short
    else if data[0] < 128 then
      if i == 9 && data[0] > 1 then Overflow else Value(data[0], 1)
    else
      match DecodeUvarint(data[1..], i + 1)
      case Value(v, size) => Value(data[0] - 128 + 128 * v, size + 1)
      case other => other
  }

  /** What still fits when i bytes of seven bits have been read. */
  function Room(i: nat): nat
    decreases 10 - i
  {
    if i >= 9 then 2 else 128 * Room(i + 1)
  }

  lemma RoomForUInt64()
    ensures Room(0) == UINT64_SIZE
  {
    assert Room(5) == 128 * (128 * (128 * (128 * 2)));
    assert Room(0) == 128 * (128 * (128 * (128 * (128 * Room(5)))));
  }

  lemma {:induction false} UvarintRoundTrip(v: nat, i: nat, rest: seq<Byte>)
    requires i < 10 && v < Room(i)
    ensures DecodeUvarint(EncodeUvarint(v) + rest, i) == Value(v, |EncodeUvarint(v)|)
    decreases 10 - i
  {
    if v >= 128 {
      var q, low := v / 128, v % 128 + 128;
      RoomAfterByte(v, i);
      UvarintRoundTrip(q, i + 1, rest);
      var data := EncodeUvarint(v) + rest;
      assert data == [low] + (EncodeUvarint(q) + rest);
      assert data[0] == low && data[1..] == EncodeUvarint(q) + rest;
      DecodeStep(data, i);
    }
  }

  lemma DecodeStep(data: seq<Byte>, i: nat)
    requires i < 10 && data != [] && data[0] >= 128
    ensures DecodeUvarint(data, i) ==
      match DecodeUvarint(data[1..], i + 1)
      case Value(v, size) => Value(data[0] - 128 + 128 * v, size + 1)
      case other => other
  {
  }

  lemma RoomAfterByte(v: nat, i: nat)
    requires 128 <= v < Room(i)
    ensures i < 9 && v / 128 < Room(i + 1) && v == v % 128 + 128 * (v / 128)
  {
  }

  // ---------------------------------------------------------------- the frontier of a block

  /** a scores at least as high as b under every score rising in frequency and falling in norm. */
  predicate Dominates(a: Impact, b: Impact) {
    a.freq >= b.freq && a.norm <= b.norm
  }

  predicate Covered(frontier: seq<Impact>, x: Impact) {
    exists f :: f in frontier && Dominates(f, x)
  }

  function Undominated(frontier: seq<Impact>, x: Impact): seq<Impact> {
    if frontier == [] then []
    else
      var last := frontier[|frontier| - 1];
      Undominated(frontier[..|frontier| - 1], x) + if Dominates(x, last) then [] else [last]
  }

  function AddImpact(frontier: seq<Impact>, x: Impact): seq<Impact> {
    if Covered(frontier, x) then frontier else Undominated(frontier, x) + [x]
  }

  function Frontier(ps: seq<Posting>): seq<Impact> {
    if ps == [] then [] else AddImpact(Frontier(ps[..|ps| - 1]), ps[|ps| - 1].impact)
  }

  ghost predicate Antichain(frontier: seq<Impact>) {
    frontier == [] ||
    (var init, last := frontier[..|frontier| - 1], frontier[|frontier| - 1];
     Antichain(init) && forall f :: f in init ==> !Dominates(f, last) && !Dominates(last, f))
  }

  /** No entry of an antichain dominates another. */
  lemma {:induction false} AntichainPairs(frontier: seq<Impact>, i: nat, j: nat)
    requires Antichain(frontier) && i < j < |frontier|
    ensures !Dominates(frontier[i], frontier[j]) && !Dominates(frontier[j], frontier[i])
  {
    var init := frontier[..|frontier| - 1];
    if j < |init| { AntichainPairs(init, i, j); } else { assert init[i] in init; }
  }

  function ImpactsOf(ps: seq<Posting>): set<Impact> {
    set p | p in ps :: p.impact
  }

  lemma {:induction false} UndominatedMembers(frontier: seq<Impact>, x: Impact)
    ensures forall f :: f in Undominated(frontier, x) <==> f in frontier && !Dominates(x, f)
    ensures |Undominated(frontier, x)| <= |frontier|
  {
    hide Dominates;
    if frontier != [] {
      var init, last := frontier[..|frontier| - 1], frontier[|frontier| - 1];
      UndominatedMembers(init, x);
      assert frontier == init + [last];
    }
  }

  lemma {:induction false} UndominatedAntichain(frontier: seq<Impact>, x: Impact)
    requires Antichain(frontier)
    ensures Antichain(Undominated(frontier, x))
  {
    hide Dominates;
    if frontier != [] {
      var init, last := frontier[..|frontier| - 1], frontier[|frontier| - 1];
      assert Antichain(init);
      UndominatedAntichain(init, x);
      UndominatedMembers(init, x);
      if Dominates(x, last) {
        assert Undominated(init, x) + [] == Undominated(init, x);
      } else {
        AntichainSnoc(Undominated(init, x), last);
      }
    }
  }

  lemma AntichainSnoc(frontier: seq<Impact>, last: Impact)
    requires Antichain(frontier) && forall f :: f in frontier ==> !Dominates(f, last) && !Dominates(last, f)
    ensures Antichain(frontier + [last])
  {
    assert (frontier + [last])[..|frontier|] == frontier;
  }

  lemma AddImpactFacts(frontier: seq<Impact>, x: Impact)
    requires Antichain(frontier)
    ensures Antichain(AddImpact(frontier, x))
    ensures 1 <= |AddImpact(frontier, x)| <= |frontier| + 1
    ensures Covered(AddImpact(frontier, x), x)
    ensures forall f :: f in AddImpact(frontier, x) ==> f == x || f in frontier
  {
    if !Covered(frontier, x) {
      UndominatedMembers(frontier, x);
      UndominatedAntichain(frontier, x);
      AntichainSnoc(Undominated(frontier, x), x);
      assert x in Undominated(frontier, x) + [x] && Dominates(x, x);
    }
  }

  lemma AddImpactCovers(frontier: seq<Impact>, x: Impact, y: Impact)
    requires Covered(frontier, y)
    ensures Covered(AddImpact(frontier, x), y)
  {
    UndominatedMembers(frontier, x);
    var f :| f in frontier && Dominates(f, y);
    if !Covered(frontier, x) {
      var r := Undominated(frontier, x) + [x];
      assert x in r;
      if Dominates(x, f) { assert Dominates(x, y); } else { assert f in r; }
    }
  }

  /** The frontier of a block is an antichain of pairs of its postings that covers
      every posting, and no larger than the block. */
  lemma {:induction false} FrontierFacts(ps: seq<Posting>)
    ensures Antichain(Frontier(ps)) && |Frontier(ps)| <= |ps|
    ensures forall p :: p in ps ==> Covered(Frontier(ps), p.impact)
    ensures forall f :: f in Frontier(ps) ==> f in ImpactsOf(ps)
    ensures ps != [] ==> Frontier(ps) != []
  {
    if ps == [] {
      assert Frontier([]) == [];
    } else {
      FrontierFacts(ps[..|ps| - 1]);
      FrontierStep(ps);
    }
  }

  lemma FrontierStep(ps: seq<Posting>)
    requires ps != []
    requires
      var init := ps[..|ps| - 1];
      && Antichain(Frontier(init)) && |Frontier(init)| <= |init|
      && (forall p :: p in init ==> Covered(Frontier(init), p.impact))
      && (forall f :: f in Frontier(init) ==> f in ImpactsOf(init))
    ensures Antichain(Frontier(ps)) && |Frontier(ps)| <= |ps|
    ensures forall p :: p in ps ==> Covered(Frontier(ps), p.impact)
    ensures forall f :: f in Frontier(ps) ==> f in ImpactsOf(ps)
    ensures Frontier(ps) != []
  {
    hide AddImpact, Antichain, Dominates, Covered;
    var init, last := ps[..|ps| - 1], ps[|ps| - 1];
    AddImpactFacts(Frontier(init), last.impact);
    assert ps == init + [last];
    assert last in ps && last.impact in ImpactsOf(ps);
    forall p | p in ps ensures Covered(Frontier(ps), p.impact) {
      if p in init { AddImpactCovers(Frontier(init), last.impact, p.impact); }
    }
  }

  /** A score that rises with the frequency and falls with the norm. */
  ghost predicate Rising(score: Impact -> int) {
    forall a, b :: Dominates(a, b) ==> score(a) >= score(b)
  }

  /** Any such score has the same maximum on the frontier as on the block. */
  lemma SameMaximum(ps: seq<Posting>, score: Impact -> int, m: int)
    requires Rising(score)
    ensures (forall f :: f in Frontier(ps) ==> score(f) <= m) <==> (forall p :: p in ps ==> score(p.impact) <= m)
  {
    FrontierFacts(ps);
    hide Frontier;
    if forall f :: f in Frontier(ps) ==> score(f) <= m {
      forall p | p in ps ensures score(p.impact) <= m {
        assert Covered(Frontier(ps), p.impact);
        var f :| f in Frontier(ps) && Dominates(f, p.impact);
      }
    }
    if forall p :: p in ps ==> score(p.impact) <= m {
      forall f | f in Frontier(ps) ensures score(f) <= m {
        var p :| p in ps && p.impact == f;
      }
    }
  }

  // ---------------------------------------------------------------- sorting the frontier

  predicate ImpactLess(a: Impact, b: Impact) {
    if a.freq == b.freq then a.norm < b.norm else a.freq < b.freq
  }

  function InsertSorted(s: seq<Impact>, x: Impact): seq<Impact> {
    if s != [] && ImpactLess(x, s[|s| - 1]) then InsertSorted(s[..|s| - 1], x) + [s[|s| - 1]] else s + [x]
  }

  function SortImpacts(s: seq<Impact>): seq<Impact> {
    if s == [] then [] else InsertSorted(SortImpacts(s[..|s| - 1]), s[|s| - 1])
  }

  /** Where the insertion sort stops shifting. */
  lemma {:induction false} InsertSortedAt(s: seq<Impact>, x: Impact, j: nat)
    requires j <= |s| && (j == 0 || !ImpactLess(x, s[j - 1]))
    requires forall k :: j <= k < |s| ==> ImpactLess(x, s[k])
    ensures InsertSorted(s, x) == s[..j] + [x] + s[j..]
  {
    hide ImpactLess;
    if j == |s| {
      assert s[..j] == s && s[j..] == [];
    } else {
      var init, last := s[..|s| - 1], s[|s| - 1];
      InsertSortedAt(init, x, j);
      assert s[j..] == init[j..] + [last] && s[..j] == init[..j];
    }
  }

  ghost predicate Ascending(s: seq<Impact>) {
    forall i, j :: 0 <= i < j < |s| ==> !ImpactLess(s[j], s[i])
  }

  lemma {:induction false} InsertSortedFacts(s: seq<Impact>, x: Impact)
    ensures |InsertSorted(s, x)| == |s| + 1
    ensures multiset(InsertSorted(s, x)) == multiset(s) + multiset{x}
    ensures Ascending(s) ==> Ascending(InsertSorted(s, x))
  {
    if s != [] && ImpactLess(x, s[|s| - 1]) {
      var init, last := s[..|s| - 1], s[|s| - 1];
      InsertSortedFacts(init, x);
      assert s == init + [last];
      var r := InsertSorted(init, x);
      if Ascending(s) {
        assert Ascending(init);
        forall i | 0 <= i < |r| ensures !ImpactLess(last, r[i]) {
          assert r[i] in multiset(r);
          assert r[i] == x || r[i] in init;
        }
      }
    }
  }

  lemma {:induction false} SortImpactsFacts(s: seq<Impact>)
    ensures |SortImpacts(s)| == |s|
    ensures multiset(SortImpacts(s)) == multiset(s)
    ensures Ascending(SortImpacts(s))
  {
    hide InsertSorted, Ascending, ImpactLess;
    if s == [] {
      NoneAscend();
    } else {
      var init, last := s[..|s| - 1], s[|s| - 1];
      assert s == init + [last];
      SortImpactsFacts(init);
      InsertSortedFacts(SortImpacts(init), last);
    }
  }

  lemma NoneAscend()
    ensures Ascending([])
  {
  }

  lemma SortedSameElements(s: seq<Impact>)
    ensures forall x :: x in SortImpacts(s) <==> x in s
  {
    SortImpactsFacts(s);
    forall x ensures x in SortImpacts(s) <==> x in s {
      assert x in SortImpacts(s) <==> x in multiset(SortImpacts(s));
      assert x in s <==> x in multiset(s);
    }
  }

  // ---------------------------------------------------------------- blocks

  datatype Block = Block(end: UInt64, impacts: seq<Impact>)

  /** The block written for a run of postings. */
  function BlockOf(ps: seq<Posting>): Block
    requires ps != []
  {
    Block(ps[|ps| - 1].doc, SortImpacts(Frontier(ps)))
  }

  function EncodeImpacts(impacts: seq<Impact>): seq<Byte> {
    if impacts == [] then []
    else EncodeUvarint(impacts[0].freq) + EncodeUvarint(impacts[0].norm) + EncodeImpacts(impacts[1..])
  }

  function EncodeBlock(b: Block, previousEnd: nat): seq<Byte>
    requires previousEnd <= b.end
  {
    EncodeUvarint(b.end - previousEnd) + EncodeUvarint(|b.impacts|) + EncodeImpacts(b.impacts)
  }

  ghost predicate EndsAscend(blocks: seq<Block>, previousEnd: nat) {
    && (blocks != [] ==> previousEnd <= blocks[0].end)
    && forall i, j :: 0 <= i < j < |blocks| ==> blocks[i].end <= blocks[j].end
  }

  function LastEnd(blocks: seq<Block>, previousEnd: nat): nat {
    if blocks == [] then previousEnd else blocks[|blocks| - 1].end
  }

  ghost function EncodeBlocks(blocks: seq<Block>, previousEnd: nat): seq<Byte>
    requires EndsAscend(blocks, previousEnd)
  {
    if blocks == [] then []
    else EncodeBlock(blocks[0], previousEnd) + EncodeBlocks(blocks[1..], blocks[0].end)
  }

  lemma EndsAscendSnoc(blocks: seq<Block>, b: Block, previousEnd: nat)
    requires EndsAscend(blocks + [b], previousEnd)
    ensures EndsAscend(blocks, previousEnd) && LastEnd(blocks, previousEnd) <= b.end
    ensures blocks != [] ==> EndsAscend(blocks[1..] + [b], blocks[0].end)
    ensures blocks != [] ==> LastEnd(blocks[1..], blocks[0].end) == LastEnd(blocks, previousEnd)
  {
    var all := blocks + [b];
    assert all[|blocks|] == b;
    assert forall i :: 0 <= i < |blocks| ==> all[i] == blocks[i];
    if blocks != [] { assert blocks[1..] + [b] == all[1..]; }
  }

  lemma {:induction false} EncodeBlocksSnoc(blocks: seq<Block>, b: Block, previousEnd: nat)
    requires EndsAscend(blocks + [b], previousEnd)
    ensures EndsAscend(blocks, previousEnd) && LastEnd(blocks, previousEnd) <= b.end
    ensures EncodeBlocks(blocks + [b], previousEnd) ==
            EncodeBlocks(blocks, previousEnd) + EncodeBlock(b, LastEnd(blocks, previousEnd))
  {
    hide EncodeBlock, LastEnd, EndsAscend;
    var all := blocks + [b];
    EndsAscendSnoc(blocks, b, previousEnd);
    if blocks == [] {
      NoBlocks(previousEnd);
      assert all == [b] && all[1..] == [];
      EncodeOne(b, previousEnd);
    } else {
      assert all[1..] == blocks[1..] + [b] && all[0] == blocks[0];
      EncodeBlocksSnoc(blocks[1..], b, blocks[0].end);
      Assoc(EncodeBlock(blocks[0], previousEnd), EncodeBlocks(blocks[1..], blocks[0].end),
            EncodeBlock(b, LastEnd(blocks, previousEnd)));
    }
  }

  lemma NoBlocks(previousEnd: nat)
    ensures LastEnd([], previousEnd) == previousEnd && EndsAscend([], previousEnd)
    ensures EncodeBlocks([], previousEnd) == []
  {
  }

  lemma EncodeOne(b: Block, previousEnd: nat)
    requires EndsAscend([b], previousEnd)
    ensures previousEnd <= b.end && EncodeBlocks([b], previousEnd) == EncodeBlock(b, previousEnd)
  {
    hide EncodeBlock;
    assert [b][1..] == [];
    NoBlocks(b.end);
    assert EncodeBlock(b, previousEnd) + [] == EncodeBlock(b, previousEnd);
  }

  /** Seven bits a byte, the lowest first, with the high bit on all bytes but the last. */
  lemma UvarintBytes()
    ensures EncodeUvarint(127) == [0x7F] && EncodeUvarint(300) == [0xAC, 0x02] && EncodeUvarint(400) == [0x90, 0x03]
  {
    assert EncodeUvarint(2) == [2] && EncodeUvarint(3) == [3];
  }

  /** Two blocks that end at documents 300 and 700: each end as the difference to the one
      before, the number of pairs, and the pairs. */
  lemma BlockBytes()
    ensures
      var blocks := [Block(300, [Impact(1, 2)]), Block(700, [Impact(2, 1), Impact(3, 5)])];
      EndsAscend(blocks, 0) && EncodeBlocks(blocks, 0) == [0xAC, 0x02, 1, 1, 2, 0x90, 0x03, 2, 2, 1, 3, 5]
  {
    UvarintBytes();
    var a, b := Block(300, [Impact(1, 2)]), Block(700, [Impact(2, 1), Impact(3, 5)]);
    assert [a, b][1..] == [b] && [b][1..] == [];
    assert a.impacts[1..] == [] && b.impacts[1..] == [Impact(3, 5)] && b.impacts[1..][1..] == [];
    assert EncodeBlocks([b], 300) == EncodeBlock(b, 300) + [];
    assert EncodeImpacts(a.impacts) == [1, 2];
    assert EncodeImpacts(b.impacts[1..]) == [3, 5];
    assert EncodeImpacts(b.impacts) == [2, 1, 3, 5];
    assert EncodeBlock(a, 0) == [0xAC, 0x02, 1, 1, 2] && EncodeBlock(b, 300) == [0x90, 0x03, 2, 2, 1, 3, 5];
  }
}
