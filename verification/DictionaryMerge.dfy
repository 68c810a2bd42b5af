/** The terms of a field over all segments: a heap of per-segment cursors. */
module DictionaryMerge {
  import opened Basics
  import opened Identifiers

  datatype Entry = Entry(term: string, count: nat)

  /** A segment's iterator: the entry at hand and those after it. */
  datatype Cursor = Cursor(curr: Entry, rest: seq<Entry>)

  function Entries(c: Cursor): seq<Entry> {
    [c.curr] + c.rest
  }

  ghost predicate Ascending(entries: seq<Entry>) {
    forall i, j :: 0 <= i < j < |entries| ==> Less(entries[i].term, entries[j].term)
  }

  ghost predicate CursorsOk(cs: seq<Cursor>) {
    forall c :: c in cs ==> Ascending(Entries(c))
  }

  // ---------------------------------------------------------------- what the cursors hold

  function CountIn(entries: seq<Entry>, t: string): nat {
    if entries == [] then 0
    else CountIn(entries[1..], t) + if entries[0].term == t then entries[0].count else 0
  }

  ghost predicate TermIn(entries: seq<Entry>, t: string) {
    exists e :: e in entries && e.term == t
  }

  /** The count of a term over all cursors. */
  function CountOf(cs: seq<Cursor>, t: string): nat {
    if cs == [] then 0 else CountOf(cs[..|cs| - 1], t) + CountIn(Entries(cs[|cs| - 1]), t)
  }

  ghost predicate Has(cs: seq<Cursor>, t: string) {
    exists c :: c in cs && TermIn(Entries(c), t)
  }

  function Size(cs: seq<Cursor>): nat {
    if cs == [] then 0 else Size(cs[..|cs| - 1]) + |Entries(cs[|cs| - 1])|
  }

  lemma {:induction false} CountConcat(a: seq<Cursor>, b: seq<Cursor>, t: string)
    ensures CountOf(a + b, t) == CountOf(a, t) + CountOf(b, t)
    ensures Size(a + b) == Size(a) + Size(b)
  {
    if b == [] {
      assert a + b == a;
    } else {
      assert (a + b)[..|a + b| - 1] == a + b[..|b| - 1];
      CountConcat(a, b[..|b| - 1], t);
    }
  }

  lemma One(c: Cursor, t: string)
    ensures CountOf([c], t) == CountIn(Entries(c), t) && Size([c]) == |Entries(c)|
  {
    assert [c][..0] == [];
  }

  /** Cursors in another order hold the same. */
  lemma {:induction false} SameHoldings(a: seq<Cursor>, b: seq<Cursor>, t: string)
    requires multiset(a) == multiset(b)
    ensures CountOf(a, t) == CountOf(b, t) && Size(a) == Size(b)
  {
    hide Entries, CountIn;
    if a == [] {
      assert |multiset(b)| == |multiset(a)| == 0;
    } else {
      var x := a[|a| - 1];
      assert x in multiset(b);
      var i :| 0 <= i < |b| && b[i] == x;
      var front, back := b[..i], b[i + 1..];
      WithoutOne(a, front, x, back, b);
      SameHoldings(a[..|a| - 1], front + back, t);
      CountConcat(front, back, t);
      CountConcat(front + [x], back, t);
      CountConcat(front, [x], t);
      One(x, t);
      assert b == (front + [x]) + back;
    }
  }

  lemma WithoutOne(a: seq<Cursor>, front: seq<Cursor>, x: Cursor, back: seq<Cursor>, b: seq<Cursor>)
    requires a != [] && a[|a| - 1] == x && b == front + [x] + back && multiset(a) == multiset(b)
    ensures multiset(a[..|a| - 1]) == multiset(front + back)
  {
    var init := a[..|a| - 1];
    assert a == init + [x];
    assert multiset(init) + multiset{x} == multiset(a);
    assert multiset(front) + multiset{x} + multiset(back) == multiset(b);
    assert multiset(front + back) == multiset(front) + multiset(back);
    assert multiset(init) == (multiset(init) + multiset{x}) - multiset{x};
  }

  lemma SameMembers(a: seq<Cursor>, b: seq<Cursor>)
    requires multiset(a) == multiset(b)
    ensures forall c :: c in a <==> c in b
    ensures CursorsOk(a) <==> CursorsOk(b)
    ensures forall t :: Has(a, t) <==> Has(b, t)
  {
    forall c ensures c in a <==> c in b { assert c in a <==> c in multiset(b); }
  }

  // ---------------------------------------------------------------- the heap

  predicate Before(a: Cursor, b: Cursor) {
    Less(a.curr.term, b.curr.term)
  }

  lemma NotBeforeTransitive(a: Cursor, b: Cursor, c: Cursor)
    ensures !Before(b, a) && !Before(c, b) ==> !Before(c, a)
    ensures Before(a, b) ==> !Before(b, a)
    ensures Before(a, b) && !Before(c, b) ==> !Before(c, a)
  {
    var x, y, z := a.curr.term, b.curr.term, c.curr.term;
    Total3(x, y, z);
  }

  lemma Total3(x: string, y: string, z: string)
    ensures !Less(y, x) && !Less(z, y) ==> !Less(z, x)
    ensures Less(x, y) ==> !Less(y, x)
    ensures Less(x, y) && !Less(z, y) ==> !Less(z, x)
  {
    Identifiers.Total(x, y);
    Identifiers.Total(y, z);
    Irreflexive(x);
    if Less(x, y) && Less(y, x) { Transitive(x, y, x); }
    if Less(x, y) && Less(y, z) { Transitive(x, y, z); }
    if Less(z, x) && Less(x, y) { Transitive(z, x, y); }
    if Less(z, x) && Less(x, z) { Transitive(z, x, z); Irreflexive(z); }
    if Less(z, y) && Less(y, z) { Transitive(z, y, z); Irreflexive(z); }
  }

  function Parent(k: nat): nat
    requires k > 0
  {
    (k - 1) / 2
  }

  ghost predicate OkBelow(cs: seq<Cursor>, k: nat)
    requires 0 < k < |cs|
  {
    !Before(cs[k], cs[Parent(k)])
  }

  /** No cursor is before its parent, for parents from the i-th on. */
  ghost predicate HeapFrom(cs: seq<Cursor>, i: nat) {
    forall k :: 0 < k < |cs| && Parent(k) >= i ==> OkBelow(cs, k)
  }

  /** The same, except below the j-th, whose children are not before its parent. */
  ghost predicate HeapBut(cs: seq<Cursor>, i: nat, j: nat) {
    && (forall k :: 0 < k < |cs| && Parent(k) >= i && Parent(k) != j ==> OkBelow(cs, k))
    && (forall k :: 0 < k < |cs| && Parent(k) == j && j > i && Parent(j) >= i ==> !Before(cs[k], cs[Parent(j)]))
  }

  /** The first cursor of a heap is not after any other. */
  lemma {:induction false} TopIsLowest(cs: seq<Cursor>, k: nat)
    requires HeapFrom(cs, 0) && k < |cs|
    ensures !Before(cs[k], cs[0])
    decreases k
  {
    if k == 0 {
      NotBeforeTransitive(cs[0], cs[0], cs[0]);
    } else {
      TopIsLowest(cs, Parent(k));
      assert OkBelow(cs, k);
      NotBeforeTransitive(cs[0], cs[Parent(k)], cs[k]);
    }
  }

  function Swap(cs: seq<Cursor>, i: nat, j: nat): (r: seq<Cursor>)
    requires i < |cs| && j < |cs|
    ensures |r| == |cs|
  {
    cs[i := cs[j]][j := cs[i]]
  }

  lemma SwapMembers(cs: seq<Cursor>, i: nat, j: nat)
    requires i < |cs| && j < |cs|
    ensures multiset(Swap(cs, i, j)) == multiset(cs)
  {
  }

  /** Sifting a cursor down past its lowest child. */
  lemma SwapDown(cs: seq<Cursor>, i: nat, j: nat, child: nat)
    requires i <= j < child < |cs| && Parent(child) == j && HeapBut(cs, i, j) && Before(cs[child], cs[j])
    requires forall k :: 0 < k < |cs| && Parent(k) == j ==> !Before(cs[k], cs[child])
    ensures HeapBut(Swap(cs, j, child), i, child)
  {
    hide Before;
    var r := Swap(cs, j, child);
    forall k | 0 < k < |r| && Parent(k) >= i && Parent(k) != child ensures OkBelow(r, k) {
      if Parent(k) == j {
        NotBeforeTransitive(cs[child], cs[j], cs[j]);
      } else if k == j {
        assert !Before(cs[child], cs[Parent(j)]);
      } else {
        assert OkBelow(cs, k);
      }
    }
    forall k | 0 < k < |r| && Parent(k) == child && child > i && Parent(child) >= i ensures !Before(r[k], r[Parent(child)]) {
      assert OkBelow(cs, k);
    }
  }

  class Dictionary {
    var cursors: seq<Cursor>

    ghost predicate Valid()
      reads this
    {
      CursorsOk(cursors) && HeapFrom(cursors, 0)
    }

    /** Moves the i-th cursor down to its place. */
    method Down(start: nat)
      requires start < |cursors| && HeapFrom(cursors, start + 1)
      modifies this
      ensures |cursors| == |old(cursors)| && multiset(cursors) == multiset(old(cursors)) && HeapFrom(cursors, start)
    {
      hide Before;
      var i := start;
      while 2 * i + 1 < |cursors|
        invariant start <= i < |cursors| == |old(cursors)|
        invariant multiset(cursors) == multiset(old(cursors)) && HeapBut(cursors, start, i)
        decreases |cursors| - i
      {
        var j := 2 * i + 1;
        if j + 1 < |cursors| && Before(cursors[j + 1], cursors[j]) {
          j := j + 1;
        }
        LowestChild(cursors, i, j);
        if !Before(cursors[j], cursors[i]) {
          Settled(cursors, start, i, j);
          return;
        }
        SwapDown(cursors, start, i, j);
        SwapMembers(cursors, i, j);
        cursors := Swap(cursors, i, j);
        i := j;
      }
    }

    /** Takes out the first cursor. */
    method Pop()
      requires Valid() && cursors != []
      modifies this
      ensures Valid() && |cursors| == |old(cursors)| - 1
      ensures multiset(cursors) + multiset{old(cursors)[0]} == multiset(old(cursors))
    {
      var n := |cursors| - 1;
      ghost var before := cursors;
      var last := cursors[n];
      assert before == [before[0]] + before[1..];
      if n == 0 {
        cursors := [];
        return;
      }
      cursors := [last] + cursors[1..n];
      assert before == [before[0]] + before[1..n] + [last];
      Shifted(before, cursors);
      Down(0);
      SameMembers([last] + before[1..n], cursors);
    }

    /** Builds the heap over the iterators that have an entry. */
    constructor (iterators: seq<seq<Entry>>)
      requires forall it :: it in iterators ==> Ascending(it)
      ensures Valid() && forall t :: Has(cursors, t) <==> exists it :: it in iterators && TermIn(it, t)
      ensures forall t :: CountOf(cursors, t) == TotalOf(iterators, t)
    {
      cursors := Started(iterators);
      new;
      StartedFacts(iterators);
      ghost var started := cursors;
      var k := |cursors| / 2;
      while k > 0
        invariant 0 <= k <= |cursors| == |started| && HeapFrom(cursors, k) && multiset(cursors) == multiset(started)
      {
        k := k - 1;
        Down(k);
      }
      SameMembers(started, cursors);
      forall t ensures CountOf(cursors, t) == TotalOf(iterators, t) { SameHoldings(cursors, started, t); }
    }

    /** Moves past the lowest entry: its cursor leaves the heap or finds its new place. */
    method TakeTop()
      requires Valid() && cursors != []
      modifies this
      ensures Valid() && Size(cursors) == Size(old(cursors)) - 1
      ensures forall t ::
        CountOf(cursors, t) + (if t == old(cursors)[0].curr.term then old(cursors)[0].curr.count else 0) == CountOf(old(cursors), t)
      ensures forall t :: t != old(cursors)[0].curr.term ==> (Has(cursors, t) <==> Has(old(cursors), t))
      ensures forall t :: Has(cursors, t) ==> Has(old(cursors), t)
    {
      hide HeapFrom, Less;
      ghost var before := cursors;
      var top := cursors[0];
      if top.rest == [] {
        Pop();
        PoppedHoldings(before, cursors);
      } else {
        var next := Cursor(top.rest[0], top.rest[1..]);
        NextCursor(top, next);
        FirstReplaced(before, next);
        cursors := cursors[0 := next];
        ghost var replaced := cursors;
        Down(0);
        SameMembers(replaced, cursors);
        forall t ensures CountOf(cursors, t) == CountOf(replaced, t) && Size(cursors) == Size(replaced) {
          SameHoldings(cursors, replaced, t);
        }
        SameHoldings(cursors, replaced, "");
      }
    }

    /** The lowest term left, with its counts over all segments added up. */
    method Next() returns (r: Option<Entry>)
      requires Valid()
      modifies this
      ensures Valid()
      ensures old(cursors) == [] ==> r == None && cursors == []
      ensures old(cursors) != [] ==> r.Some? && Size(cursors) < Size(old(cursors))
      ensures r.Some? ==>
        && Has(old(cursors), r.value.term) && r.value.count == CountOf(old(cursors), r.value.term)
        && (forall t :: Has(cursors, t) <==> Has(old(cursors), t) && t != r.value.term)
        && (forall t :: Has(cursors, t) ==> Less(r.value.term, t))
        && (forall t :: t != r.value.term ==> CountOf(cursors, t) == CountOf(old(cursors), t))
    {
      if cursors == [] {
        return None;
      }
      ghost var before := cursors;
      var term, count := cursors[0].curr.term, cursors[0].curr.count;
      TopTerm(cursors);
      TakeTop();
      while cursors != [] && cursors[0].curr.term == term
        invariant Valid() && Size(cursors) < Size(before)
        invariant count + CountOf(cursors, term) == CountOf(before, term)
        invariant forall t :: t != term ==> CountOf(cursors, t) == CountOf(before, t) && (Has(cursors, t) <==> Has(before, t))
        invariant forall t :: Has(cursors, t) ==> !Less(t, term)
        decreases Size(cursors)
      {
        count := count + cursors[0].curr.count;
        TakeTop();
      }
      TopTerm(cursors);
      NothingOf(cursors, term);
      r := Some(Entry(term, count));
    }
  }

  // ---------------------------------------------------------------- helpers about holdings

  function Started(iterators: seq<seq<Entry>>): seq<Cursor> {
    if iterators == [] then []
    else
      var last := iterators[|iterators| - 1];
      Started(iterators[..|iterators| - 1]) + if last == [] then [] else [Cursor(last[0], last[1..])]
  }

  function TotalOf(iterators: seq<seq<Entry>>, t: string): nat {
    if iterators == [] then 0
    else TotalOf(iterators[..|iterators| - 1], t) + CountIn(iterators[|iterators| - 1], t)
  }

  lemma {:induction false} StartedFacts(iterators: seq<seq<Entry>>)
    requires forall it :: it in iterators ==> Ascending(it)
    ensures CursorsOk(Started(iterators))
    ensures forall t :: Has(Started(iterators), t) <==> exists it :: it in iterators && TermIn(it, t)
    ensures forall t :: CountOf(Started(iterators), t) == TotalOf(iterators, t)
  {
    hide CountIn, TermIn, Ascending;
    if iterators != [] {
      var init, last := iterators[..|iterators| - 1], iterators[|iterators| - 1];
      assert iterators == init + [last];
      StartedFacts(init);
      NoEntries();
      if last == [] {
        assert Started(init) + [] == Started(init);
      } else {
        var c := Cursor(last[0], last[1..]);
        assert Entries(c) == last;
        MoreHoldings(Started(init), c);
      }
    }
  }

  lemma NoEntries()
    ensures forall t :: CountIn([], t) == 0 && !TermIn([], t)
  {
  }

  lemma MoreHoldings(cs: seq<Cursor>, c: Cursor)
    ensures forall t :: CountOf(cs + [c], t) == CountOf(cs, t) + CountIn(Entries(c), t)
    ensures forall t :: Has(cs + [c], t) <==> Has(cs, t) || TermIn(Entries(c), t)
    ensures forall d :: d in cs + [c] <==> d in cs || d == c
  {
    hide TermIn, Entries, CountIn;
    assert (cs + [c])[..|cs|] == cs;
    forall t ensures Has(cs + [c], t) <==> Has(cs, t) || TermIn(Entries(c), t) {
      assert c in cs + [c];
      if Has(cs, t) { var d :| d in cs && TermIn(Entries(d), t); assert d in cs + [c]; }
    }
  }

  /** A cursor moved on holds the same without its first entry. */
  lemma NextCursor(c: Cursor, next: Cursor)
    requires c.rest != [] && next == Cursor(c.rest[0], c.rest[1..])
    ensures Entries(next) == Entries(c)[1..] == c.rest
    ensures Ascending(Entries(c)) ==> Ascending(Entries(next))
    ensures forall t :: CountIn(Entries(c), t) == CountIn(Entries(next), t) + if c.curr.term == t then c.curr.count else 0
    ensures forall t :: TermIn(Entries(c), t) <==> TermIn(Entries(next), t) || t == c.curr.term
  {
    hide Less;
    assert Entries(c)[1..] == c.rest && Entries(next) == c.rest;
    forall t ensures TermIn(Entries(c), t) <==> TermIn(Entries(next), t) || t == c.curr.term {
      assert c.curr in Entries(c);
      forall e | e in Entries(next) ensures e in Entries(c) { }
    }
  }

  /** What replacing the first cursor by its successor changes. */
  lemma FirstReplaced(cs: seq<Cursor>, next: Cursor)
    requires cs != [] && cs[0].rest != [] && next == Cursor(cs[0].rest[0], cs[0].rest[1..])
    requires HeapFrom(cs, 0) && CursorsOk(cs)
    ensures HeapFrom(cs[0 := next], 1) && CursorsOk(cs[0 := next])
    ensures Size(cs[0 := next]) == Size(cs) - 1
    ensures forall t :: CountOf(cs[0 := next], t) + (if t == cs[0].curr.term then cs[0].curr.count else 0) == CountOf(cs, t)
    ensures forall t :: t != cs[0].curr.term ==> (Has(cs[0 := next], t) <==> Has(cs, t))
    ensures forall t :: Has(cs[0 := next], t) ==> Has(cs, t)
  {
    hide CountIn, TermIn, Ascending, Less, Entries;
    var top, tail, after := cs[0], cs[1..], cs[0 := next];
    NextCursor(top, next);
    assert cs == [top] + tail && after == [next] + tail;
    assert top in cs && forall c :: c in tail ==> c in cs;
    forall k | 0 < k < |after| && Parent(k) >= 1 ensures OkBelow(after, k) { assert OkBelow(cs, k); }
    forall t ensures CountOf(after, t) + (if t == top.curr.term then top.curr.count else 0) == CountOf(cs, t) && Size(after) == Size(cs) - 1 {
      CountConcat([top], tail, t);
      CountConcat([next], tail, t);
      One(top, t);
      One(next, t);
      EntriesSize(top);
      EntriesSize(next);
    }
    CountConcat([top], tail, "");
    CountConcat([next], tail, "");
    One(top, "");
    One(next, "");
    EntriesSize(top);
    EntriesSize(next);
    FirstHas(top, tail);
    FirstHas(next, tail);
  }

  lemma EntriesSize(c: Cursor)
    ensures |Entries(c)| == |c.rest| + 1
  {
  }

  lemma FirstHas(c: Cursor, tail: seq<Cursor>)
    ensures forall t :: Has([c] + tail, t) <==> TermIn(Entries(c), t) || Has(tail, t)
  {
    hide TermIn, Entries;
    forall t ensures Has([c] + tail, t) <==> TermIn(Entries(c), t) || Has(tail, t) {
      assert c in [c] + tail;
      if Has(tail, t) { var d :| d in tail && TermIn(Entries(d), t); assert d in [c] + tail; }
    }
  }

  /** What taking out the first cursor, at its last entry, changes. */
  lemma PoppedHoldings(before: seq<Cursor>, after: seq<Cursor>)
    requires before != [] && before[0].rest == [] && multiset(after) + multiset{before[0]} == multiset(before)
    ensures Size(after) == Size(before) - 1
    ensures forall t :: CountOf(after, t) + (if t == before[0].curr.term then before[0].curr.count else 0) == CountOf(before, t)
    ensures forall t :: t != before[0].curr.term ==> (Has(after, t) <==> Has(before, t))
    ensures forall t :: Has(after, t) ==> Has(before, t)
  {
    hide TermIn, CountIn, Entries;
    var top, tail := before[0], before[1..];
    WithoutTop(before, after);
    assert before == [top] + tail;
    LastEntry(top);
    EntriesSize(top);
    forall t ensures CountOf(after, t) + CountIn(Entries(top), t) == CountOf(before, t) && Size(after) + 1 == Size(before) {
      SameHoldings(after, tail, t);
      CountConcat([top], tail, t);
      One(top, t);
    }
    SameHoldings(after, tail, "");
    CountConcat([top], tail, "");
    One(top, "");
    SameMembers(after, tail);
    FirstHas(top, tail);
  }

  lemma WithoutTop(before: seq<Cursor>, after: seq<Cursor>)
    requires before != [] && multiset(after) + multiset{before[0]} == multiset(before)
    ensures multiset(after) == multiset(before[1..])
  {
    var top, tail := before[0], before[1..];
    assert before == [top] + tail;
    assert multiset(after) == (multiset(after) + multiset{top}) - multiset{top};
    assert multiset(tail) == (multiset(tail) + multiset{top}) - multiset{top};
  }

  lemma LastEntry(c: Cursor)
    requires c.rest == []
    ensures Entries(c) == [c.curr]
    ensures forall t :: CountIn(Entries(c), t) == if t == c.curr.term then c.curr.count else 0
    ensures forall t :: TermIn(Entries(c), t) <==> t == c.curr.term
  {
    assert Entries(c)[1..] == [];
    assert c.curr in Entries(c);
  }

  /** No cursor holds a term before the first cursor's. */
  lemma TopTerm(cs: seq<Cursor>)
    requires CursorsOk(cs) && HeapFrom(cs, 0)
    ensures cs != [] ==> Has(cs, cs[0].curr.term) && forall t :: Has(cs, t) ==> !Less(t, cs[0].curr.term)
  {
    if cs != [] {
      var low := cs[0].curr.term;
      assert cs[0] in cs && cs[0].curr in Entries(cs[0]);
      assert TermIn(Entries(cs[0]), low);
      forall t | Has(cs, t) ensures !Less(t, low) {
        var c :| c in cs && TermIn(Entries(c), t);
        var k :| 0 <= k < |cs| && cs[k] == c;
        TopIsLowest(cs, k);
        CurrIsLowest(c, t);
        Total3(low, c.curr.term, t);
      }
    }
  }

  lemma CurrIsLowest(c: Cursor, t: string)
    requires Ascending(Entries(c)) && TermIn(Entries(c), t)
    ensures !Less(t, c.curr.term)
  {
    var es := Entries(c);
    var e :| e in es && e.term == t;
    var i :| 0 <= i < |es| && es[i] == e;
    Irreflexive(t);
    if i > 0 {
      assert Less(es[0].term, es[i].term);
      Asymmetric(c.curr.term, t);
    }
  }

  /** A term that no cursor has left counts nothing. */
  lemma {:induction false} NothingLeft(cs: seq<Cursor>, t: string)
    requires !Has(cs, t)
    ensures CountOf(cs, t) == 0
  {
    hide TermIn;
    if cs != [] {
      var init, last := cs[..|cs| - 1], cs[|cs| - 1];
      assert last in cs && forall c :: c in init ==> c in cs;
      NothingLeft(init, t);
      NotCounted(Entries(last), t);
    }
  }

  lemma {:induction false} NotCounted(entries: seq<Entry>, t: string)
    requires !TermIn(entries, t)
    ensures CountIn(entries, t) == 0
  {
    if entries != [] {
      assert entries[0] in entries && forall e :: e in entries[1..] ==> e in entries;
      NotCounted(entries[1..], t);
    }
  }

  /** When the first cursor is past a term that none is before, the term is used up. */
  lemma NothingOf(cs: seq<Cursor>, term: string)
    requires CursorsOk(cs) && HeapFrom(cs, 0) && (forall t :: Has(cs, t) ==> !Less(t, term))
    requires cs == [] || cs[0].curr.term != term
    ensures !Has(cs, term) && CountOf(cs, term) == 0
    ensures forall t :: Has(cs, t) ==> Less(term, t)
  {
    TopTerm(cs);
    if cs != [] {
      var low := cs[0].curr.term;
      Identifiers.Total(term, low);
      Irreflexive(term);
      assert Less(term, low);
      forall t | Has(cs, t) ensures Less(term, t) {
        Identifiers.Total(low, t);
        if Less(low, t) { Transitive(term, low, t); }
      }
    }
    NothingLeft(cs, term);
  }

  // ---------------------------------------------------------------- the whole dictionary

  /** Asking until nothing is left gives every term of any segment once, in ascending
      order, with the sum of its counts. */
  method All(d: Dictionary) returns (entries: seq<Entry>)
    requires d.Valid()
    modifies d
    ensures Ascending(entries) && d.cursors == []
    ensures forall t :: TermIn(entries, t) <==> Has(old(d.cursors), t)
    ensures forall e :: e in entries ==> e.count == CountOf(old(d.cursors), e.term)
  {
    hide HeapFrom, Less, CursorsOk;
    entries := [];
    ghost var all := d.cursors;
    var more := true;
    while more
      invariant d.Valid() && Ascending(entries)
      invariant !more ==> d.cursors == []
      invariant forall t :: Has(all, t) <==> TermIn(entries, t) || Has(d.cursors, t)
      invariant forall e, t :: e in entries && Has(d.cursors, t) ==> Less(e.term, t)
      invariant forall t :: !TermIn(entries, t) ==> CountOf(d.cursors, t) == CountOf(all, t)
      invariant forall e :: e in entries ==> e.count == CountOf(all, e.term)
      decreases more, Size(d.cursors)
    {
      var r := d.Next();
      if r.None? {
        more := false;
      } else {
        Irreflexive(r.value.term);
        assert forall e :: e in entries ==> e.term != r.value.term;
        OneMoreEntry(entries, r.value);
        entries := entries + [r.value];
      }
    }
  }

  lemma OneMoreEntry(entries: seq<Entry>, e: Entry)
    ensures forall t :: TermIn(entries + [e], t) <==> TermIn(entries, t) || t == e.term
    ensures Ascending(entries) && (forall f :: f in entries ==> Less(f.term, e.term)) ==> Ascending(entries + [e])
  {
    hide Less;
    assert e in entries + [e];
    forall t ensures TermIn(entries + [e], t) <==> TermIn(entries, t) || t == e.term {
      if TermIn(entries, t) { var f :| f in entries && f.term == t; assert f in entries + [e]; }
    }
  }

  lemma Shifted(before: seq<Cursor>, after: seq<Cursor>)
    requires |before| > 1 && HeapFrom(before, 0) && CursorsOk(before)
    requires after == [before[|before| - 1]] + before[1..|before| - 1]
    ensures HeapFrom(after, 1) && CursorsOk(after)
  {
    forall k | 0 < k < |after| && Parent(k) >= 1 ensures OkBelow(after, k) { assert OkBelow(before, k); }
  }

  lemma LowestChild(cs: seq<Cursor>, i: nat, j: nat)
    requires 2 * i + 1 < |cs|
    requires if 2 * i + 2 < |cs| && Before(cs[2 * i + 2], cs[2 * i + 1]) then j == 2 * i + 2 else j == 2 * i + 1
    ensures i < j < |cs| && Parent(j) == i
    ensures forall k :: 0 < k < |cs| && Parent(k) == i ==> !Before(cs[k], cs[j])
  {
    hide Before;
    forall k | 0 < k < |cs| && Parent(k) == i ensures !Before(cs[k], cs[j]) {
      assert k == 2 * i + 1 || k == 2 * i + 2;
      NotBeforeTransitive(cs[j], cs[k], cs[k]);
      NotBeforeTransitive(cs[k], cs[k], cs[k]);
    }
  }

  /** A cursor no child is before is in its place. */
  lemma Settled(cs: seq<Cursor>, start: nat, i: nat, j: nat)
    requires start <= i < |cs| && HeapBut(cs, start, i) && j < |cs| && !Before(cs[j], cs[i])
    requires forall k :: 0 < k < |cs| && Parent(k) == i ==> !Before(cs[k], cs[j])
    ensures HeapFrom(cs, start)
  {
    hide Before;
    forall k | 0 < k < |cs| && Parent(k) >= start ensures OkBelow(cs, k) {
      if Parent(k) == i { NotBeforeTransitive(cs[i], cs[j], cs[k]); }
    }
  }
}
