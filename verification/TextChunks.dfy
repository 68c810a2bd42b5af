/** Cutting a long text into overlapping chunks through a bounded look-ahead. */
module TextChunks {
  import opened Basics
  import opened Utf8

  const UTF_MAX: nat := 4

  function Max(a: nat, b: nat): nat {
    if a > b then a else b
  }

  function Min(a: nat, b: nat): nat {
    if a < b then a else b
  }

  // ---------------------------------------------------------------- boundaries

  datatype Boundary = Paragraph | Line | Space

  /** The character at a position ends a paragraph, ends a line, or is a space. */
  predicate Ends(kind: Boundary, s: seq<Byte>, pos: nat)
    requires pos < |s| && Width(s[pos..]) > 0
  {
    var r := Rune(s[pos..]);
    match kind
    case Paragraph =>
      r == 10 && ((pos > 0 && s[pos - 1] == 10) || (pos > 1 && s[pos - 1] == 13 && s[pos - 2] == 10))
    case Line => r == 10 || r == 13
    case Space => IsSpace(r)
  }

  /** The end of the last character of a kind, reading from pos and not ending before the
      minimum; 0 if there is none. */
  function LastEnd(kind: Boundary, s: seq<Byte>, pos: nat, minimum: nat): (e: nat)
    requires pos <= |s| && ValidText(s[pos..])
    ensures e == 0 || pos < e <= |s|
    decreases |s| - pos
  {
    if pos == |s| then 0
    else
      var w := Width(s[pos..]);
      assert s[pos..][w..] == s[pos + w..];
      var later := LastEnd(kind, s, pos + w, minimum);
      if later > 0 then later
      else if pos + w >= minimum && Ends(kind, s, pos) then pos + w
      else 0
  }

  /** The preferred end: after a paragraph, else a line, else a space, else everything. */
  function Preferred(s: seq<Byte>, minimum: nat): nat
    requires ValidText(s)
  {
    assert s[0..] == s;
    var paragraph, line, space := LastEnd(Paragraph, s, 0, minimum), LastEnd(Line, s, 0, minimum), LastEnd(Space, s, 0, minimum);
    if paragraph > 0 then paragraph else if line > 0 then line else if space > 0 then space else |s|
  }

  /** A preferred end is a character boundary and not before the minimum. */
  lemma {:induction false} LastEndFacts(kind: Boundary, s: seq<Byte>, pos: nat, minimum: nat)
    requires pos <= |s| && ValidText(s[..pos]) && ValidText(s[pos..])
    ensures
      var e := LastEnd(kind, s, pos, minimum);
      e > 0 ==> e >= minimum && ValidText(s[..e])
    decreases |s| - pos
  {
    if pos < |s| {
      NextBoundary(s, pos);
      LastEndFacts(kind, s, pos + Width(s[pos..]), minimum);
    }
  }

  lemma NextBoundary(s: seq<Byte>, pos: nat)
    requires pos < |s| && ValidText(s[..pos]) && ValidText(s[pos..])
    ensures
      var next := pos + Width(s[pos..]);
      pos < next <= |s| && ValidText(s[..next]) && ValidText(s[next..])
  {
    var w := Width(s[pos..]);
    assert s[pos..][w..] == s[pos + w..];
    WidthOfPrefix(s[pos..], w);
    var first := s[pos..][..w];
    assert first[w..] == [] && ValidText(first);
    ValidConcat(s[..pos], first);
    assert s[..pos] + first == s[..pos + w];
  }

  lemma PreferredFacts(s: seq<Byte>, minimum: nat)
    requires ValidText(s) && s != []
    ensures 0 < Preferred(s, minimum) <= |s| && Preferred(s, minimum) >= Min(minimum, |s|)
    ensures ValidText(s[..Preferred(s, minimum)])
  {
    assert s[0..] == s && s[..0] == [] && s[..|s|] == s;
    LastEndFacts(Paragraph, s, 0, minimum);
    LastEndFacts(Line, s, 0, minimum);
    LastEndFacts(Space, s, 0, minimum);
  }

  /** Where a character of a kind ends: at e, not before the minimum. */
  ghost predicate EndAt(kind: Boundary, s: seq<Byte>, e: int, minimum: nat) {
    exists p :: 0 <= p < |s| && EndOf(kind, s, p, e, minimum)
  }

  /** The character at p ends at e. A paragraph ends with a line feed after another one, or
      after a line feed and a carriage return; a line with either; a space with any space. */
  ghost predicate EndOf(kind: Boundary, s: seq<Byte>, p: nat, e: int, minimum: nat)
    requires p < |s|
  {
    && ValidText(s[..p]) && Width(s[p..]) > 0 && e == p + Width(s[p..]) && e >= minimum
    && match kind
       case Paragraph => s[p] == 10 && ((p > 0 && s[p - 1] == 10) || (p > 1 && s[p - 1] == 13 && s[p - 2] == 10))
       case Line => s[p] == 10 || s[p] == 13
       case Space => IsSpace(Rune(s[p..]))
  }

  lemma NewlineByte(s: seq<Byte>)
    requires Width(s) > 0
    ensures Rune(s) == 10 <==> s[0] == 10
    ensures Rune(s) == 13 <==> s[0] == 13
  {
  }

  lemma EndsExactly(kind: Boundary, s: seq<Byte>, p: nat, minimum: nat)
    requires p < |s| && ValidText(s[..p]) && Width(s[p..]) > 0
    ensures Ends(kind, s, p) && p + Width(s[p..]) >= minimum <==> EndOf(kind, s, p, p + Width(s[p..]), minimum)
  {
    NewlineByte(s[p..]);
    hide Width, Rune, ValidText;
  }

  /** A later character begins no earlier than the next one. */
  lemma NextIsNext(s: seq<Byte>, pos: nat, p: nat)
    requires pos < p <= |s| && ValidText(s[..pos]) && ValidText(s[..p])
    ensures pos + Width(s[pos..]) <= p
  {
    assert s[..p] == s[..pos] + s[pos..p];
    ValidRest(s[..pos], s[pos..p]);
    StartsRune(s[pos..p]);
    assert s[pos..][..p - pos] == s[pos..p];
    WidthOfPrefix(s[pos..], p - pos);
  }

  /** The last end of a kind is one, and no other is later. */
  lemma {:induction false} LastEndExactly(kind: Boundary, s: seq<Byte>, pos: nat, minimum: nat)
    requires pos <= |s| && ValidText(s[..pos]) && ValidText(s[pos..])
    ensures
      var e := LastEnd(kind, s, pos, minimum);
      && (e > 0 ==> EndAt(kind, s, e, minimum))
      && forall p, x :: pos <= p < |s| && EndOf(kind, s, p, x, minimum) ==> x <= e
    decreases |s| - pos
  {
    hide ValidText, Ends, EndOf, Width;
    if pos < |s| {
      NextBoundary(s, pos);
      var next := pos + Width(s[pos..]);
      LastEndExactly(kind, s, next, minimum);
      EndsExactly(kind, s, pos, minimum);
      LastEndStep(kind, s, pos, minimum);
      forall p, x | pos <= p < |s| && EndOf(kind, s, p, x, minimum) ensures x <= LastEnd(kind, s, pos, minimum) {
        EndOfParts(kind, s, p, x, minimum);
        if p > pos { NextIsNext(s, pos, p); }
      }
    }
  }

  lemma EndOfParts(kind: Boundary, s: seq<Byte>, p: nat, e: int, minimum: nat)
    requires p < |s| && EndOf(kind, s, p, e, minimum)
    ensures ValidText(s[..p]) && e == p + Width(s[p..]) && 0 < e
  {
  }

  /** The preferred end is the last paragraph end not before the minimum; if there is none,
      the last line end; if there is none, the last space; if there is none, the end. */
  lemma PreferredExactly(s: seq<Byte>, minimum: nat)
    requires ValidText(s)
    ensures
      var cut := Preferred(s, minimum);
      if exists e :: EndAt(Paragraph, s, e, minimum)
      then EndAt(Paragraph, s, cut, minimum) && forall e :: EndAt(Paragraph, s, e, minimum) ==> e <= cut
      else if exists e :: EndAt(Line, s, e, minimum)
      then EndAt(Line, s, cut, minimum) && forall e :: EndAt(Line, s, e, minimum) ==> e <= cut
      else if exists e :: EndAt(Space, s, e, minimum)
      then EndAt(Space, s, cut, minimum) && forall e :: EndAt(Space, s, e, minimum) ==> e <= cut
      else cut == |s|
  {
    LastOfKind(Paragraph, s, minimum);
    LastOfKind(Line, s, minimum);
    LastOfKind(Space, s, minimum);
    hide EndAt, LastEnd;
    assert s[0..] == s;
  }

  lemma LastOfKind(kind: Boundary, s: seq<Byte>, minimum: nat)
    requires ValidText(s)
    ensures ValidText(s[0..])
    ensures
      var e := LastEnd(kind, s, 0, minimum);
      (if e > 0 then EndAt(kind, s, e, minimum) else forall x :: !EndAt(kind, s, x, minimum))
      && forall x :: EndAt(kind, s, x, minimum) ==> x <= e
  {
    assert s[0..] == s && s[..0] == [];
    NothingIsValid();
    LastEndExactly(kind, s, 0, minimum);
    hide EndOf, LastEnd, ValidText;
    forall x | EndAt(kind, s, x, minimum) ensures 0 < x <= LastEnd(kind, s, 0, minimum) {
      var p :| 0 <= p < |s| && EndOf(kind, s, p, x, minimum);
      EndOfParts(kind, s, p, x, minimum);
    }
  }

  method PreferredTextBoundary(buffer: seq<Byte>, minimum: nat) returns (cut: nat)
    requires ValidText(buffer)
    ensures cut == Preferred(buffer, minimum)
  {
    hide LastEnd, Ends, ValidText, Width;
    var paragraph: nat, line: nat, space: nat, pos := 0, 0, 0, 0;
    assert buffer[0..] == buffer && buffer[..0] == [];
    NothingIsValid();
    while pos < |buffer|
      invariant 0 <= pos <= |buffer| && ValidText(buffer[..pos]) && ValidText(buffer[pos..])
      invariant LastEnd(Paragraph, buffer, 0, minimum) == Later(LastEnd(Paragraph, buffer, pos, minimum), paragraph)
      invariant LastEnd(Line, buffer, 0, minimum) == Later(LastEnd(Line, buffer, pos, minimum), line)
      invariant LastEnd(Space, buffer, 0, minimum) == Later(LastEnd(Space, buffer, pos, minimum), space)
      decreases |buffer| - pos
    {
      NextBoundary(buffer, pos);
      StartsRune(buffer[pos..]);
      LastEndStep(Paragraph, buffer, pos, minimum);
      LastEndStep(Line, buffer, pos, minimum);
      LastEndStep(Space, buffer, pos, minimum);
      var end := pos + Width(buffer[pos..]);
      if end >= minimum {
        if Ends(Space, buffer, pos) {
          space := end;
        }
        if Ends(Line, buffer, pos) {
          line := end;
        }
        if Ends(Paragraph, buffer, pos) {
          paragraph := end;
        }
      }
      pos := end;
    }
    NoEndAtEnd(buffer, minimum);
    assert buffer[0..] == buffer;
    cut := if paragraph > 0 then paragraph else if line > 0 then line else if space > 0 then space else |buffer|;
  }

  lemma NothingIsValid()
    ensures ValidText([])
  {
  }

  lemma LastEndStep(kind: Boundary, s: seq<Byte>, pos: nat, minimum: nat)
    requires pos < |s| && ValidText(s[pos..]) && Width(s[pos..]) > 0
    requires pos + Width(s[pos..]) <= |s| && ValidText(s[pos + Width(s[pos..])..])
    ensures
      var next := pos + Width(s[pos..]);
      LastEnd(kind, s, pos, minimum) ==
        Later(LastEnd(kind, s, next, minimum), if next >= minimum && Ends(kind, s, pos) then next else 0)
  {
    hide Ends, Width;
  }

  lemma NoEndAtEnd(s: seq<Byte>, minimum: nat)
    requires ValidText(s[|s|..])
    ensures forall kind :: LastEnd(kind, s, |s|, minimum) == 0
  {
  }

  function Later(later: nat, earlier: nat): nat {
    if later > 0 then later else earlier
  }

  // ---------------------------------------------------------------- the size of a chunk

  /** The last character start no later than i, else 0. */
  function StartBefore(buffer: seq<Byte>, i: nat): (cut: nat)
    requires i < |buffer|
    ensures cut <= i && (cut > 0 ==> RuneStart(buffer[cut]))
    ensures forall j :: cut < j <= i ==> !RuneStart(buffer[j])
  {
    if i == 0 || RuneStart(buffer[i]) then i else StartBefore(buffer, i - 1)
  }

  /** The first character start from i on, else the end. */
  function StartAfter(buffer: seq<Byte>, i: nat, end: nat): (first: nat)
    requires i <= end <= |buffer|
    ensures i <= first <= end && (first < end ==> RuneStart(buffer[first]))
    decreases end - i
  {
    if i == end || RuneStart(buffer[i]) then i else StartAfter(buffer, i + 1, end)
  }

  /** The size of the chunk at the start of a look-ahead, of which the first bytes were
      in the chunk before; 0 for malformed text. */
  function ChunkSize(buffer: seq<Byte>, max: nat, repeated: nat): (size: nat)
    ensures size <= |buffer| && size <= max
  {
    var last := if |buffer| > max then StartBefore(buffer, max) else |buffer|;
    if last == 0 || !ValidText(buffer[..last]) then 0
    else if |buffer| > max then
      PreferredFacts(buffer[..last], Max(last / 2, repeated + 1));
      Preferred(buffer[..last], Max(last / 2, repeated + 1))
    else last
  }

  /** How far the next chunk starts after this one: back by the overlap, with room for the
      character after this chunk, at a character. */
  function ChunkStep(buffer: seq<Byte>, size: nat, max: nat, overlap: nat): (step: nat)
    requires 0 < size <= |buffer| && UTF_MAX <= max
    ensures 0 < step <= size
  {
    if size == |buffer| then size
    else StartAfter(buffer, size - Min(Min(overlap, size - 1), max - DecodedWidth(buffer[size..])), size)
  }

  /** The size in terms of the last character start within the limit: text that reaches
      further is cut in its second half, past what is repeated, where that is preferred. */
  lemma ChunkSizeExactly(buffer: seq<Byte>, max: nat, repeated: nat, last: nat)
    requires if |buffer| > max then last <= max && (last > 0 ==> RuneStart(buffer[last])) && forall i :: last < i <= max ==> !RuneStart(buffer[i])
             else last == |buffer|
    ensures ChunkSize(buffer, max, repeated) ==
      if last == 0 || !ValidText(buffer[..last]) then 0
      else if |buffer| <= max then last
      else if last / 2 > repeated + 1 then Preferred(buffer[..last], last / 2)
      else Preferred(buffer[..last], repeated + 1)
  {
    hide Preferred, ValidText, RuneStart;
  }

  /** No chunk could start earlier: it would repeat too much, or leave no room for the
      character after this chunk. */
  lemma StepIsLeast(buffer: seq<Byte>, size: nat, max: nat, overlap: nat)
    requires 0 < size <= |buffer| && UTF_MAX <= max
    ensures
      var step := ChunkStep(buffer, size, max, overlap);
      && 0 < step <= size && (size == |buffer| ==> step == size)
      && (step < size ==> RuneStart(buffer[step]) && size - step <= overlap && size - step + DecodedWidth(buffer[size..]) <= max)
      && forall j :: 0 < j < step && size < |buffer| && RuneStart(buffer[j]) ==>
           size - j > overlap || size - j + DecodedWidth(buffer[size..]) > max
  {
    hide RuneStart, DecodedWidth;
    if size < |buffer| {
      var from := size - Min(Min(overlap, size - 1), max - DecodedWidth(buffer[size..]));
      NoneBefore(buffer, from, size);
    }
  }

  lemma {:induction false} NoneBefore(buffer: seq<Byte>, i: nat, end: nat)
    requires i <= end <= |buffer|
    ensures forall j :: i <= j < StartAfter(buffer, i, end) ==> !RuneStart(buffer[j])
    decreases end - i
  {
    hide RuneStart;
    if i < end && !RuneStart(buffer[i]) { NoneBefore(buffer, i + 1, end); }
  }

  // ---------------------------------------------------------------- the reader

  datatype Chunk = Chunk(text: seq<Byte>, start: nat, end: nat)

  datatype Outcome = Read(chunk: Chunk) | EndOfText | InvalidText

  /** The next chunk starts and the last one ended at characters, with valid text between. */
  ghost predicate Placed(source: seq<Byte>, max: nat, overlap: nat, start: nat, end: nat) {
    && UTF_MAX <= max && overlap < max && start <= end <= |source| && end - start <= overlap
    && ValidText(source[..start]) && ValidText(source[..end]) && ValidText(source[start..end])
    && (0 < end < |source| ==> RuneStart(source[end]))
  }

  ghost predicate HasRoom(source: seq<Byte>, max: nat, start: nat, end: nat) {
    start <= end < |source| ==> end - start + Width(source[end..]) <= max
  }

  class TextChunkReader {
    const source: seq<Byte>
    const maxChunkBytes: nat
    const overlapBytes: nat
    var start: nat
    var end: nat

    ghost predicate Valid()
      reads this
    {
      Placed(source, maxChunkBytes, overlapBytes, start, end)
    }

    /** There is room in a chunk from the start for the character after the end. */
    ghost predicate Roomy()
      reads this
      requires Valid()
    {
      HasRoom(source, maxChunkBytes, start, end)
    }

    constructor (source: seq<Byte>, maxChunkBytes: nat, overlapBytes: nat)
      requires UTF_MAX <= maxChunkBytes && overlapBytes < maxChunkBytes
      ensures Valid() && Roomy() && start == 0 && end == 0
      ensures this.source == source && this.maxChunkBytes == maxChunkBytes && this.overlapBytes == overlapBytes
    {
      this.source, this.maxChunkBytes, this.overlapBytes := source, maxChunkBytes, overlapBytes;
      start, end := 0, 0;
    }

    predicate Fixed(source: seq<Byte>, maxChunkBytes: nat, overlapBytes: nat) {
      this.source == source && this.maxChunkBytes == maxChunkBytes && this.overlapBytes == overlapBytes
    }

    lemma InBounds()
      requires Valid()
      ensures start <= end <= |source| && end - start <= overlapBytes && UTF_MAX <= maxChunkBytes && ValidText(source[..end])
    {
    }

    /** What the look-ahead shows: one chunk and one more character, or all that is left. */
    function Peek(): (buffer: seq<Byte>)
      requires start <= |source|
      reads this
      ensures |buffer| == if maxChunkBytes + 4 < |source| - start then maxChunkBytes + 4 else |source| - start
    {
      source[start..start + Min(maxChunkBytes + UTF_MAX, |source| - start)]
    }

    /** The last place a chunk may end: a character start no later than its limit. */
    method LastCut(buffer: seq<Byte>) returns (cut: nat)
      ensures cut <= |buffer| && cut <= maxChunkBytes
      ensures |buffer| <= maxChunkBytes ==> cut == |buffer|
      ensures |buffer| > maxChunkBytes ==> cut == StartBefore(buffer, maxChunkBytes)
    {
      cut := |buffer|;
      if cut > maxChunkBytes {
        cut := maxChunkBytes;
        while cut > 0 && !RuneStart(buffer[cut])
          invariant cut <= maxChunkBytes && StartBefore(buffer, cut) == StartBefore(buffer, maxChunkBytes)
        {
          cut := cut - 1;
        }
      }
    }

    /** How far the next chunk starts after this one: back by the overlap, at a character. */
    method Advance(buffer: seq<Byte>, cut: nat) returns (advance: nat)
      requires 0 < cut <= |buffer| && UTF_MAX <= maxChunkBytes
      ensures advance == ChunkStep(buffer, cut, maxChunkBytes, overlapBytes)
      ensures 0 < advance <= cut && cut - advance <= overlapBytes
      ensures advance < cut ==> RuneStart(buffer[advance])
      ensures cut == |buffer| ==> advance == cut
      ensures cut < |buffer| ==> cut - advance + DecodedWidth(buffer[cut..]) <= maxChunkBytes
    {
      advance := cut;
      if cut < |buffer| {
        var overlap := overlapBytes;
        if overlap >= cut {
          overlap := cut - 1;
        }
        var room := maxChunkBytes - DecodedWidth(buffer[cut..]);
        if overlap > room {
          overlap := room;
        }
        advance := cut - overlap;
        while advance < cut && !RuneStart(buffer[advance])
          invariant cut - overlap <= advance <= cut && StartAfter(buffer, advance, cut) == StartAfter(buffer, cut - overlap, cut)
        {
          advance := advance + 1;
        }
      }
    }

    /** The look-ahead reaches past a chunk's limit, and no character starts after the end
        of the chunk before and within it. */
    predicate Stuck()
      reads this
    {
      && start < end && start + maxChunkBytes < |source|
      && forall i :: end < i <= start + maxChunkBytes ==> !RuneStart(source[i])
    }

    /** The next chunk. Whatever the source, a chunk is the valid text it names, overlaps
        the one before by no more than allowed, and the reader moves on. It ends where the
        one before ends if and only if no character starts between that end and the
        chunk's limit, which valid text rules out; otherwise it ends later. */
    method Next() returns (r: Outcome)
      requires Valid()
      modifies this
      ensures Valid()
      ensures r.EndOfText? <==> old(end) == |source|
      ensures r.InvalidText? <==> old(end) < |source| && ChunkSize(old(Peek()), maxChunkBytes, old(end - start)) == 0
      ensures r.InvalidText? ==> !ValidText(source)
      ensures !r.Read? ==> start == old(start) && end == old(end)
      ensures r.Read? ==>
        && r.chunk.start == old(start) <= old(end) && r.chunk.end == end && start > old(start)
        && old(start) < end && r.chunk.text == source[old(start)..end] && |r.chunk.text| <= maxChunkBytes
        && ValidText(r.chunk.text) && old(end) <= end
      ensures r.Read? ==>
        var buffer := old(Peek());
        && |r.chunk.text| == ChunkSize(buffer, maxChunkBytes, old(end - start))
        && start == old(start) + ChunkStep(buffer, |r.chunk.text|, maxChunkBytes, overlapBytes)
      ensures r.Read? ==> (end == old(end) <==> old(Stuck()))
      ensures ValidText(source) && old(Roomy()) ==> Roomy() && (r.Read? ==> end > old(end))
    {
      hide ValidText, Width, RuneStart, Preferred, Roomy, Stuck, ChunkSize, ChunkStep;
      var buffer := Peek();
      if |buffer| == 0 || start + |buffer| <= end {
        return EndOfText;
      }
      var cut := ChooseCut(buffer);
      if cut == 0 {
        return InvalidText;
      }
      var advance := Advance(buffer, cut);
      r := Take(buffer, cut, advance);
    }

    /** Hands out the chunk of the first bytes of the look-ahead and moves on. */
    method Take(buffer: seq<Byte>, cut: nat, advance: nat) returns (r: Outcome)
      requires Valid() && buffer == Peek() && start + |buffer| > end
      requires 0 < advance <= cut <= |buffer| && cut <= maxChunkBytes && cut - advance <= overlapBytes
      requires ValidText(buffer[..cut]) && (cut < |buffer| ==> RuneStart(buffer[cut]))
      requires advance < cut ==> RuneStart(buffer[advance])
      requires |buffer| <= maxChunkBytes ==> cut == |buffer|
      requires cut < |buffer| ==> cut - advance + DecodedWidth(buffer[cut..]) <= maxChunkBytes
      modifies this
      ensures Valid() && start == old(start) + advance && end == old(start) + cut
      ensures r == Read(Chunk(source[old(start)..end], old(start), end)) && ValidText(r.chunk.text)
      ensures ValidText(source) ==> Roomy()
    {
      hide ValidText, Placed, HasRoom, RuneStart, DecodedWidth;
      StepKeeps(source, maxChunkBytes, overlapBytes, start, end, |buffer|, cut, advance);
      r := Read(Chunk(buffer[..cut], start, start + cut));
      start, end := start + advance, start + cut;
    }

    /** The end of the next chunk in the look-ahead, 0 if the text is malformed. */
    method ChooseCut(buffer: seq<Byte>) returns (cut: nat)
      requires Valid() && buffer == Peek() && start + |buffer| > end
      ensures cut == 0 ==> !ValidText(source)
      ensures cut > 0 ==> cut <= |buffer| && cut <= maxChunkBytes && ValidText(buffer[..cut]) && cut >= end - start
      ensures 0 < cut < |buffer| ==> RuneStart(buffer[cut])
      ensures |buffer| <= maxChunkBytes && cut > 0 ==> cut == |buffer|
      ensures ValidText(source) && Roomy() ==> cut > end - start
      ensures cut == ChunkSize(buffer, maxChunkBytes, end - start)
      ensures cut > 0 ==> (cut == end - start <==> Stuck())
    {
      hide ValidText, Width, RuneStart, Preferred, Stuck;
      PeekIsRest();
      var last := LastCut(buffer);
      LastCutFacts(source, start, end, maxChunkBytes, buffer, last);
      if last == 0 || !ValidText(buffer[..last]) {
        return 0;
      }
      StuckInBuffer(buffer, last);
      cut := last;
      if |buffer| > maxChunkBytes {
        var minimum := Max(last / 2, end - start + 1);
        PreferredFacts(buffer[..last], minimum);
        cut := PreferredTextBoundary(buffer[..last], minimum);
        assert buffer[..last][..cut] == buffer[..cut];
        PreferredStartsRune(buffer, last, cut);
      }
    }

    /** The last place a chunk may end is the end of the one before. */
    lemma StuckInBuffer(buffer: seq<Byte>, last: nat)
      requires Valid() && buffer == Peek() && start + |buffer| > end && last > 0
      requires last == if |buffer| > maxChunkBytes then StartBefore(buffer, maxChunkBytes) else |buffer|
      ensures last >= end - start && (last == end - start <==> Stuck())
    {
      hide ValidText, RuneStart;
      if |buffer| > maxChunkBytes {
        assert forall i :: 0 <= i <= maxChunkBytes ==> buffer[i] == source[start + i];
        assert end - start <= maxChunkBytes && start + maxChunkBytes < |source|;
        if end > start { assert RuneStart(buffer[end - start]); }
        assert last > 0 ==> RuneStart(source[start + last]);
        if last == end - start {
          forall i | end < i <= start + maxChunkBytes ensures !RuneStart(source[i]) { assert buffer[i - start] == source[i]; }
        }
      }
    }

    lemma PeekIsRest()
      requires start <= |source|
      ensures Peek() == source[start..][..|Peek()|]
    {
    }
  }

  /** Text may be cut at the last place a chunk may end, which is past the end of the
      previous chunk, unless the source is malformed. */
  lemma LastCutFacts(source: seq<Byte>, start: nat, end: nat, max: nat, buffer: seq<Byte>, cut: nat)
    requires UTF_MAX <= max && start <= end < |source| && end - start < max
    requires ValidText(source[..start]) && ValidText(source[..end]) && ValidText(source[start..end])
    requires 0 < end ==> RuneStart(source[end])
    requires buffer == source[start..][..Min(max + UTF_MAX, |source| - start)]
    requires cut <= |buffer| && cut <= max && (|buffer| <= max ==> cut == |buffer|)
    requires |buffer| > max ==> (cut > 0 ==> RuneStart(buffer[cut])) && forall i :: cut < i <= max ==> !RuneStart(buffer[i])
    ensures ValidText(source) ==> cut > 0 && ValidText(buffer[..cut])
    ensures cut >= end - start
    ensures ValidText(source) && end - start + Width(source[end..]) <= max ==> cut > end - start
  {
    hide ValidText, Width, RuneStart;
    var rest := source[start..];
    assert |buffer| <= max ==> buffer == rest;
    if end > start && |buffer| > max { assert buffer[end - start] == source[end]; }
    if ValidText(source) {
      CutOfValid(source, start, max, buffer, cut);
      var tail := source[end..];
      assert source == source[..end] + tail;
      ValidRest(source[..end], tail);
      StartsRune(tail);
      var w := Width(tail);
      if end - start + w <= max < |buffer| { assert buffer[end - start + w] == tail[w]; }
    }
  }

  lemma CutOfValid(source: seq<Byte>, start: nat, max: nat, buffer: seq<Byte>, cut: nat)
    requires UTF_MAX <= max && start < |source| && ValidText(source[..start]) && ValidText(source)
    requires buffer == source[start..][..Min(max + UTF_MAX, |source| - start)]
    requires cut <= |buffer| && cut <= max && (|buffer| <= max ==> cut == |buffer|)
    requires |buffer| > max ==> (cut > 0 ==> RuneStart(buffer[cut])) && forall i :: cut < i <= max ==> !RuneStart(buffer[i])
    ensures cut > 0 && ValidText(buffer[..cut])
  {
    hide ValidText, Width, RuneStart;
    var rest := source[start..];
    assert source == source[..start] + rest;
    ValidRest(source[..start], rest);
    StartsRune(rest);
    var w := Width(rest);
    if |buffer| > max { assert buffer[w] == rest[w]; }
    assert cut > 0;
    if |buffer| <= max { assert buffer == rest; } else { assert buffer[cut] == rest[cut]; }
    ValidCut(rest, cut);
    assert rest[..cut] == buffer[..cut];
  }

  /** There is room for the character after a chunk in the chunk that follows. */
  lemma RoomAfter(source: seq<Byte>, start: nat, max: nat, n: nat, cut: nat, room: nat)
    requires cut <= n && cut <= max && start + cut < |source| && (n <= max ==> cut == n)
    requires n == Min(max + UTF_MAX, |source| - start)
    requires cut < n ==> DecodedWidth(source[start..start + n][cut..]) <= room
    requires ValidText(source[..start + cut]) && ValidText(source)
    ensures Width(source[start + cut..]) <= room
  {
    hide *;
    TooMuch(n, max, cut, |source| - start);
    SliceTail(source, start, n, cut);
    CutAtEnd(source, start + cut);
    SameWidth(source[start + cut..], n - cut);
  }

  /** A step to the next chunk keeps the reader placed, with room on valid text. */
  lemma StepKeeps(source: seq<Byte>, max: nat, overlap: nat, start: nat, end: nat, n: nat, cut: nat, advance: nat)
    requires Placed(source, max, overlap, start, end) && n == Min(max + UTF_MAX, |source| - start)
    requires 0 < advance <= cut <= n && cut <= max && cut - advance <= overlap && (n <= max ==> cut == n)
    requires
      var buffer := source[start..start + n];
      && ValidText(buffer[..cut]) && (cut < n ==> RuneStart(buffer[cut])) && (advance < cut ==> RuneStart(buffer[advance]))
      && (cut < n ==> cut - advance + DecodedWidth(buffer[cut..]) <= max)
    ensures Placed(source, max, overlap, start + advance, start + cut)
    ensures source[start..start + n][..cut] == source[start..start + cut]
    ensures ValidText(source) ==> HasRoom(source, max, start + advance, start + cut)
  {
    hide ValidText, Width, RuneStart, DecodedWidth;
    AdvanceFacts(source, start, n, cut, advance);
    if ValidText(source) && start + cut < |source| { RoomAfter(source, start, max, n, cut, max - (cut - advance)); }
    AtEnd(source, start, n, cut);
  }

  lemma TooMuch(seen: nat, max: nat, cut: nat, left: nat)
    requires cut <= seen && cut <= max && cut < left && seen == Min(max + UTF_MAX, left) && (seen <= max ==> cut == seen)
    ensures cut < seen <= left && (seen - cut < UTF_MAX ==> seen == left)
  {
  }

  /** The look-ahead shows the whole of the next character. */
  lemma SameWidth(tail: seq<Byte>, n: nat)
    requires ValidText(tail) && 0 < n <= |tail| && (n < UTF_MAX ==> n == |tail|)
    ensures DecodedWidth(tail[..n]) == Width(tail)
  {
    hide ValidText;
    StartsRune(tail);
    WidthOfPrefix(tail, n);
    assert tail[..|tail|] == tail;
  }

  lemma CutAtEnd(source: seq<Byte>, end: nat)
    requires end <= |source| && ValidText(source) && ValidText(source[..end])
    ensures ValidText(source[end..])
  {
    hide ValidText;
    assert source == source[..end] + source[end..];
    ValidRest(source[..end], source[end..]);
  }

  lemma AtEnd(source: seq<Byte>, start: nat, n: nat, cut: nat)
    requires cut <= n && start + n <= |source|
    ensures source[start..start + n][..cut] == source[start..start + cut]
    ensures cut < n ==> source[start..start + n][cut] == source[start + cut]
  {
  }

  lemma SliceTail(source: seq<Byte>, start: nat, n: nat, cut: nat)
    requires cut <= n && start + n <= |source|
    ensures source[start..start + n][cut..] == source[start + cut..][..n - cut]
  {
  }

  /** A preferred end is followed by the start of a character. */
  lemma PreferredStartsRune(buffer: seq<Byte>, cut: nat, preferred: nat)
    requires preferred <= cut < |buffer| && ValidText(buffer[..cut]) && ValidText(buffer[..preferred]) && RuneStart(buffer[cut])
    ensures RuneStart(buffer[preferred])
  {
    if preferred < cut {
      var text := buffer[..cut];
      assert text == text[..preferred] + text[preferred..] && text[..preferred] == buffer[..preferred];
      ValidRest(text[..preferred], text[preferred..]);
      StartsRune(text[preferred..]);
    }
  }

  /** Where the next chunk starts and ends keeps the text on both sides cut at characters. */
  lemma AdvanceFacts(source: seq<Byte>, start: nat, n: nat, cut: nat, advance: nat)
    requires start + n <= |source| && 0 < advance <= cut <= n
    requires ValidText(source[..start]) && ValidText(source[start..start + n][..cut])
    requires advance < cut ==> RuneStart(source[start..start + n][advance])
    ensures ValidText(source[..start + advance]) && ValidText(source[..start + cut])
    ensures ValidText(source[start + advance..start + cut])
  {
    hide *;
    AtEnd(source, start, n, cut);
    Pieces(source, start, n, cut, advance);
    CutAndJoin(source[..start], source[start..start + cut], advance);
  }

  /** Valid text after valid text, cut at a character. */
  lemma CutAndJoin(before: seq<Byte>, text: seq<Byte>, advance: nat)
    requires ValidText(before) && ValidText(text) && advance <= |text| && (advance < |text| ==> RuneStart(text[advance]))
    ensures ValidText(before + text[..advance]) && ValidText(before + text) && ValidText(text[advance..])
  {
    hide *;
    ValidCut(text, advance);
    ValidConcat(before, text);
    ValidConcat(before, text[..advance]);
  }

  lemma Pieces(source: seq<Byte>, start: nat, n: nat, cut: nat, advance: nat)
    requires start + n <= |source| && advance <= cut <= n
    ensures
      var text := source[start..start + cut];
      && source[..start] + text == source[..start + cut]
      && source[..start] + text[..advance] == source[..start + advance]
      && text[advance..] == source[start + advance..start + cut]
      && (advance < cut ==> text[advance] == source[start..start + n][advance])
  {
  }

  /** Malformed input counts as one byte. */
  function DecodedWidth(s: seq<Byte>): (w: nat)
    ensures w <= UTF_MAX
  {
    if s == [] then 0 else if Width(s) == 0 then 1 else Width(s)
  }

  // ---------------------------------------------------------------- whole sources

  /** Each chunk names its slice of the source, is valid text and within its limit. */
  ghost predicate IsChunk(source: seq<Byte>, max: nat, c: Chunk) {
    c.start < c.end <= |source| && c.text == source[c.start..c.end] && |c.text| <= max && ValidText(c.text)
  }

  /** One chunk follows another: later start, no gap, bounded overlap. */
  predicate Follows(overlap: nat, a: Chunk, b: Chunk) {
    a.start < b.start <= a.end <= b.end && a.end - b.start <= overlap
  }

  ghost predicate Chain(source: seq<Byte>, max: nat, overlap: nat, chunks: seq<Chunk>) {
    && (forall c :: c in chunks ==> IsChunk(source, max, c))
    && (chunks != [] ==> chunks[0].start == 0)
    && forall i :: 0 < i < |chunks| ==> Follows(overlap, chunks[i - 1], chunks[i])
  }

  ghost predicate EndsRise(chunks: seq<Chunk>) {
    forall i :: 0 < i < |chunks| ==> chunks[i - 1].end < chunks[i].end
  }

  function LastEndOf(chunks: seq<Chunk>): nat {
    if chunks == [] then 0 else chunks[|chunks| - 1].end
  }

  /** The chunks put together, each without what it repeats of the one before. */
  function Joined(chunks: seq<Chunk>): seq<Byte> {
    if chunks == [] then []
    else
      var init, last := chunks[..|chunks| - 1], chunks[|chunks| - 1];
      var repeated := if LastEndOf(init) <= last.start then 0 else LastEndOf(init) - last.start;
      Joined(init) + if repeated <= |last.text| then last.text[repeated..] else []
  }

  lemma JoinedSnoc(source: seq<Byte>, max: nat, chunks: seq<Chunk>, c: Chunk)
    requires IsChunk(source, max, c) && c.start <= LastEndOf(chunks) <= c.end
    requires Joined(chunks) == source[..LastEndOf(chunks)]
    ensures Joined(chunks + [c]) == source[..c.end]
  {
    hide ValidText;
    assert (chunks + [c])[..|chunks|] == chunks;
    NewPart(source, c.start, LastEndOf(chunks), c.end);
  }

  lemma NewPart(source: seq<Byte>, start: nat, end: nat, next: nat)
    requires start <= end <= next <= |source|
    ensures source[..end] + source[start..next][end - start..] == source[..next]
  {
  }

  lemma ChainSnoc(source: seq<Byte>, max: nat, overlap: nat, chunks: seq<Chunk>, c: Chunk)
    requires Chain(source, max, overlap, chunks) && IsChunk(source, max, c)
    requires if chunks == [] then c.start == 0 else Follows(overlap, chunks[|chunks| - 1], c)
    ensures Chain(source, max, overlap, chunks + [c])
    ensures EndsRise(chunks) && (chunks != [] ==> LastEndOf(chunks) < c.end) ==> EndsRise(chunks + [c])
  {
  }

  /** Reading to the end stops for every source, succeeds exactly on valid text, and then
      the chunks, without their repetitions, are the source. */
  method ReadAll(source: seq<Byte>, maxChunkBytes: nat, overlapBytes: nat) returns (chunks: seq<Chunk>, ok: bool)
    requires UTF_MAX <= maxChunkBytes && overlapBytes < maxChunkBytes
    ensures ok <==> ValidText(source)
    ensures Chain(source, maxChunkBytes, overlapBytes, chunks)
    ensures LastEndOf(chunks) <= |source|
    ensures Joined(chunks) == source[..LastEndOf(chunks)] && ValidText(source[..LastEndOf(chunks)])
    ensures ok ==> EndsRise(chunks) && Joined(chunks) == source
  {
    hide ValidText, Width, IsChunk, Joined;
    var reader := new TextChunkReader(source, maxChunkBytes, overlapBytes);
    NothingIsValid();
    chunks := [];
    NothingJoined(source);
    while true
      invariant fresh(reader) && reader.Valid() && (ValidText(source) ==> reader.Roomy())
      invariant reader.source == source && reader.maxChunkBytes == maxChunkBytes && reader.overlapBytes == overlapBytes
      invariant Chain(source, maxChunkBytes, overlapBytes, chunks) && reader.end == LastEndOf(chunks)
      invariant chunks == [] ==> reader.start == 0
      invariant chunks != [] ==> chunks[|chunks| - 1].start < reader.start
      invariant Joined(chunks) == source[..reader.end]
      invariant ValidText(source) ==> EndsRise(chunks)
      decreases |source| - reader.start
    {
      var r := reader.Next();
      match r {
        case EndOfText =>
          assert source[..|source|] == source;
          return chunks, true;
        case InvalidText =>
          return chunks, false;
        case Read(c) =>
          ChunkIs(source, maxChunkBytes, c);
          JoinedSnoc(source, maxChunkBytes, chunks, c);
          ChainSnoc(source, maxChunkBytes, overlapBytes, chunks, c);
          chunks := chunks + [c];
      }
    }
  }

  lemma NothingJoined(source: seq<Byte>)
    ensures Joined([]) == [] == source[..0]
  {
  }

  lemma ChunkIs(source: seq<Byte>, max: nat, c: Chunk)
    requires c.start < c.end <= |source| && c.text == source[c.start..c.end] && |c.text| <= max && ValidText(c.text)
    ensures IsChunk(source, max, c)
  {
  }

  // ---------------------------------------------------------------- a repeated end

  function Letters(n: nat): (s: seq<Byte>)
    ensures |s| == n && forall i :: 0 <= i < n ==> s[i] == 97
  {
    seq(n, _ => 97)
  }

  lemma {:induction false} LettersAreValid(s: seq<Byte>)
    requires forall i :: 0 <= i < |s| ==> s[i] == 97
    ensures ValidText(s)
  {
    if s != [] { LettersAreValid(s[1..]); }
  }

  lemma {:induction false} NoEndInLetters(kind: Boundary, s: seq<Byte>, pos: nat, minimum: nat)
    requires pos <= |s| && (forall i :: 0 <= i < |s| ==> s[i] == 97) && ValidText(s[pos..])
    ensures LastEnd(kind, s, pos, minimum) == 0
    decreases |s| - pos
  {
    if pos < |s| {
      assert s[pos..][0] == 97 && s[pos..][1..] == s[pos + 1..];
      NoEndInLetters(kind, s, pos + 1, minimum);
    }
  }

  lemma LettersKeepTogether(s: seq<Byte>, minimum: nat)
    requires forall i :: 0 <= i < |s| ==> s[i] == 97
    ensures ValidText(s) && Preferred(s, minimum) == |s|
  {
    LettersAreValid(s);
    assert s[0..] == s;
    NoEndInLetters(Paragraph, s, 0, minimum);
    NoEndInLetters(Line, s, 0, minimum);
    NoEndInLetters(Space, s, 0, minimum);
  }

  /** Eight letters and a malformed character. */
  function Broken(): (source: seq<Byte>)
    ensures |source| == 12 && source[..8] == Letters(8) && source[8..] == [0xF0, 0x9F, 0x98, 0x41]
  {
    Letters(8) + [0xF0, 0x9F, 0x98, 0x41]
  }

  lemma FirstOfBroken()
    ensures ChunkSize(Broken(), 8, 0) == 8 && ChunkStep(Broken(), 8, 8, 7) == 1
  {
    var source := Broken();
    assert source[8] == source[8..][0] && StartBefore(source, 8) == 8;
    LettersKeepTogether(source[..8], 4);
    assert source[1] == source[..8][1];
  }

  lemma SecondOfBroken()
    ensures ChunkSize(Broken()[1..], 8, 7) == 7
  {
    var source := Broken();
    var buffer := source[1..];
    assert buffer[7] == source[8..][0] && buffer[8] == source[8..][1];
    assert StartBefore(buffer, 7) == 7 && StartBefore(buffer, 8) == 7;
    assert forall i :: 0 <= i < 7 ==> buffer[..7][i] == source[..8][i + 1];
    LettersKeepTogether(buffer[..7], 8);
  }

  lemma BrokenIsMalformed()
    ensures !ValidText(Broken())
  {
    var source := Broken();
    assert source == source[..8] + source[8..];
    LettersAreValid(source[..8]);
    assert Width(source[8..]) == 0;
    if ValidText(source) { ValidRest(source[..8], source[8..]); }
  }

  /** On malformed text a chunk may end where the one before does. */
  method RepeatsAnEnd() returns (source: seq<Byte>, first: Outcome, second: Outcome)
    ensures source == Broken() && !ValidText(source)
    ensures first == Read(Chunk(source[..8], 0, 8)) && second == Read(Chunk(source[1..8], 1, 8))
  {
    hide ValidText, ChunkSize, ChunkStep, Broken;
    source := Broken();
    FirstOfBroken();
    SecondOfBroken();
    BrokenIsMalformed();
    var reader := new TextChunkReader(source, 8, 7);
    assert reader.Peek() == source;
    first := reader.Next();
    assert reader.Peek() == source[1..];
    second := reader.Next();
  }
}
