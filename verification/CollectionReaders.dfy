/** What a reader makes of a generation's vectors and a text snapshot. */
module CollectionReaders {
  import opened Basics
  import opened Identifiers
  import opened VectorChanges
  import opened VectorRevisions

  predicate Admits(allowed: Option<set<Id>>, id: Id) {
    allowed.None? || id in allowed.value
  }

  /** No allowed set when every stored vector is current, else the current ones. */
  method AllowedIds(m: Revisions, text: Revisions) returns (allowed: Option<set<Id>>)
    ensures forall id :: id in m ==> (Admits(allowed, id) <==> RevisionOf(text, id) == m[id])
    ensures allowed.None? <==> Current(m, text)
    ensures allowed.Some? ==> allowed.value <= m.Keys
  {
    var todo, stale := m.Keys, false;
    while todo != {} && !stale
      invariant todo <= m.Keys
      invariant forall id :: id in m && id !in todo && !stale ==> RevisionOf(text, id) == m[id]
      invariant stale ==> !Current(m, text)
      decreases todo
    {
      var id :| id in todo;
      if RevisionOf(text, id) != m[id] {
        stale := true;
      }
      todo := todo - {id};
    }
    if !stale {
      return None;
    }
    var ids: set<Id> := {};
    todo := m.Keys;
    while todo != {}
      invariant todo <= m.Keys
      invariant ids == set id | id in m && id !in todo && RevisionOf(text, id) == m[id]
      decreases todo
    {
      var id :| id in todo;
      if RevisionOf(text, id) == m[id] {
        ids := ids + {id};
      }
      todo := todo - {id};
    }
    allowed := Some(ids);
  }

  /** The ids a search may return, given candidates of its own. */
  function Searched(allowed: Option<set<Id>>, candidates: Option<set<Id>>): Option<set<Id>> {
    if allowed.None? then candidates
    else if candidates.Some? then Some(set id | id in candidates.value && id in allowed.value)
    else allowed
  }

  /** A search sees a stored vector exactly when its revision is current and it is a candidate. */
  lemma SearchesCurrentCandidates(m: Revisions, text: Revisions, allowed: Option<set<Id>>, candidates: Option<set<Id>>, id: Id)
    requires id in m && (Admits(allowed, id) <==> RevisionOf(text, id) == m[id])
    ensures Admits(Searched(allowed, candidates), id) <==> RevisionOf(text, id) == m[id] && Admits(candidates, id)
  {
  }

  // ---------------------------------------------------------------- pending vectors

  ghost predicate TextOk(text: Revisions, ids: seq<Id>) {
    && (forall id :: id in text ==> id != "" && text[id] != "")
    && Sorted(ids) && (forall id :: id in ids <==> id in text)
  }

  /** Missing and stale embeddings, in the order of the ids. */
  function Pending(ids: seq<Id>, m: Revisions, text: Revisions): seq<Id> {
    if ids == [] then []
    else
      Pending(ids[..|ids| - 1], m, text) +
      (var id := ids[|ids| - 1]; if RevisionOf(m, id) != RevisionOf(text, id) then [id] else [])
  }

  function Take(ids: seq<Id>, limit: nat): seq<Id> {
    if |ids| <= limit then ids else ids[..limit]
  }

  /** The ids after a given one. */
  function After(ids: seq<Id>, after: Id): seq<Id> {
    if ids == [] || !Less(after, ids[|ids| - 1]) then []
    else After(ids[..|ids| - 1], after) + [ids[|ids| - 1]]
  }

  lemma {:induction false} AfterIsSuffix(ids: seq<Id>, after: Id, start: nat)
    requires start <= |ids| && Sorted(ids)
    requires forall i :: 0 <= i < start ==> !Less(after, ids[i])
    requires forall i :: start <= i < |ids| ==> Less(after, ids[i])
    ensures After(ids, after) == ids[start..]
  {
    if start < |ids| {
      AfterIsSuffix(ids[..|ids| - 1], after, start);
      assert ids[start..] == ids[..|ids| - 1][start..] + [ids[|ids| - 1]];
    }
  }

  lemma {:induction false} PendingConcat(a: seq<Id>, b: seq<Id>, m: Revisions, text: Revisions)
    ensures Pending(a + b, m, text) == Pending(a, m, text) + Pending(b, m, text)
  {
    if b == [] {
      assert a + b == a;
    } else {
      assert (a + b)[..|a + b| - 1] == a + b[..|b| - 1];
      PendingConcat(a, b[..|b| - 1], m, text);
    }
  }

  lemma {:induction false} PendingMembers(ids: seq<Id>, m: Revisions, text: Revisions)
    ensures forall id :: id in Pending(ids, m, text) <==> id in ids && RevisionOf(m, id) != RevisionOf(text, id)
    ensures Sorted(ids) ==> Sorted(Pending(ids, m, text))
  {
    hide RevisionOf, Less;
    if ids != [] {
      var init, last := ids[..|ids| - 1], ids[|ids| - 1];
      PendingMembers(init, m, text);
      assert ids == init + [last];
      if Sorted(ids) { SortedSnoc(init, last, Pending(init, m, text)); }
    }
  }

  lemma SortedSnoc(ids: seq<Id>, last: Id, part: seq<Id>)
    requires Sorted(ids + [last]) && Sorted(part) && forall id :: id in part ==> id in ids
    ensures Sorted(part + [last]) && Sorted(ids)
  {
    hide Less;
    forall i | 0 <= i < |part| ensures Less(part[i], last) {
      assert part[i] in ids;
      var j :| 0 <= j < |ids| && ids[j] == part[i];
      assert Less((ids + [last])[j], (ids + [last])[|ids|]);
    }
    forall i, j | 0 <= i < j < |ids| ensures Less(ids[i], ids[j]) {
      assert Less((ids + [last])[i], (ids + [last])[j]);
    }
  }

  /** The next page of missing or stale embeddings after an id. */
  method PendingVectors(ids: seq<Id>, m: Revisions, text: Revisions, after: Id, limit: int) returns (page: Option<seq<Id>>)
    requires TextOk(text, ids)
    ensures page.None? <==> limit <= 0
    ensures page.Some? ==> page.value == Take(Pending(After(ids, after), m, text), limit)
    ensures page.Some? ==>
      && |page.value| <= limit && (forall i, j :: 0 <= i < j < |page.value| ==> Less(page.value[i], page.value[j]))
      && (forall id :: id in page.value ==> id in text && Less(after, id) && RevisionOf(m, id) != text[id])
      && (forall id :: id in text && Less(after, id) && RevisionOf(m, id) != text[id] && id !in page.value ==>
            |page.value| == limit && forall x :: x in page.value ==> Less(x, id))
  {
    PageIs(ids, m, text, after, limit);
    if limit <= 0 {
      return None;
    }
    TextSorted(text, ids);
    var start := FirstAfter(ids, after);
    AfterIsSuffix(ids, after, start);
    var result := FirstPending(ids[start..], m, text, limit);
    page := Some(result);
  }

  /** A page has missing and stale ids after the given one, in order, and leaves one out only
      if it is full and the id comes after all of it. */
  lemma PageIs(ids: seq<Id>, m: Revisions, text: Revisions, after: Id, limit: int)
    requires TextOk(text, ids)
    ensures limit > 0 ==>
      var page := Take(Pending(After(ids, after), m, text), limit);
      && |page| <= limit && (forall i, j :: 0 <= i < j < |page| ==> Less(page[i], page[j]))
      && (forall id :: id in page ==> id in text && Less(after, id) && RevisionOf(m, id) != text[id])
      && (forall id :: id in text && Less(after, id) && RevisionOf(m, id) != text[id] && id !in page ==>
            |page| == limit && forall x :: x in page ==> Less(x, id))
  {
    if limit > 0 {
      TextSorted(text, ids);
      AfterMembers(ids, after);
      PendingMembers(After(ids, after), m, text);
      FirstOfSorted(Pending(After(ids, after), m, text), limit);
    }
  }

  lemma {:induction false} AfterMembers(ids: seq<Id>, after: Id)
    requires Sorted(ids)
    ensures Sorted(After(ids, after)) && forall id :: id in After(ids, after) <==> id in ids && Less(after, id)
  {
    hide Less;
    if ids != [] {
      var init, last := ids[..|ids| - 1], ids[|ids| - 1];
      assert ids == init + [last];
      if Less(after, last) {
        AfterMembers(init, after);
        SortedSnoc(init, last, After(init, after));
      } else {
        forall id | id in ids ensures !Less(after, id) {
          var j :| 0 <= j < |ids| && ids[j] == id;
          if Less(after, id) && j < |init| { Transitive(after, id, last); }
        }
      }
    }
  }

  lemma FirstOfSorted(all: seq<Id>, limit: nat)
    requires Sorted(all)
    ensures
      var page := Take(all, limit);
      && |page| <= limit && Sorted(page) && (forall id :: id in page ==> id in all)
      && (forall id :: id in all && id !in page ==> |page| == limit && forall x :: x in page ==> Less(x, id))
  {
    hide Less;
    var page := Take(all, limit);
    forall id | id in all && id !in page ensures |page| == limit && forall x :: x in page ==> Less(x, id) {
      var j :| 0 <= j < |all| && all[j] == id;
      assert j >= |page|;
      forall x | x in page ensures Less(x, id) { var i :| 0 <= i < |page| && page[i] == x; }
    }
  }

  method FirstPending(rest: seq<Id>, m: Revisions, text: Revisions, limit: nat) returns (result: seq<Id>)
    requires limit > 0
    ensures result == Take(Pending(rest, m, text), limit)
  {
    hide Pending, RevisionOf;
    result := [];
    var k := 0;
    NonePending(m, text);
    while k < |rest| && |result| < limit
      invariant 0 <= k <= |rest| && |result| <= limit
      invariant result == Pending(rest[..k], m, text)
    {
      assert rest[..k + 1] == rest[..k] + [rest[k]];
      PendingConcat(rest[..k], [rest[k]], m, text);
      PendingOne(rest[k], m, text);
      if RevisionOf(m, rest[k]) != RevisionOf(text, rest[k]) {
        result := result + [rest[k]];
      }
      k := k + 1;
    }
    assert rest == rest[..k] + rest[k..];
    PendingConcat(rest[..k], rest[k..], m, text);
  }

  lemma TextSorted(text: Revisions, ids: seq<Id>)
    requires TextOk(text, ids)
    ensures Sorted(ids)
  {
  }

  lemma NonePending(m: Revisions, text: Revisions)
    ensures Pending([], m, text) == []
  {
  }

  method FirstAfter(ids: seq<Id>, after: Id) returns (start: nat)
    requires Sorted(ids)
    ensures start <= |ids|
    ensures forall i :: 0 <= i < start ==> !Less(after, ids[i])
    ensures forall i :: start <= i < |ids| ==> Less(after, ids[i])
  {
    var low, high := 0, |ids|;
    while low < high
      invariant 0 <= low <= high <= |ids|
      invariant forall i :: 0 <= i < low ==> !Less(after, ids[i])
      invariant forall i :: high <= i < |ids| ==> Less(after, ids[i])
    {
      var middle := (low + high) / 2;
      if Less(after, ids[middle]) {
        forall i | middle < i < |ids| ensures Less(after, ids[i]) { Transitive(after, ids[middle], ids[i]); }
        high := middle;
      } else {
        forall i | 0 <= i < middle ensures !Less(after, ids[i]) {
          if Less(after, ids[i]) { Transitive(after, ids[i], ids[middle]); }
        }
        low := middle + 1;
      }
    }
    start := low;
  }

  /** The pages a caller reads, each starting after the last id of the one before. */
  ghost function Pages(ids: seq<Id>, m: Revisions, text: Revisions, after: Id, limit: nat, fuel: nat): seq<Id>
    decreases fuel
  {
    var page := Take(Pending(After(ids, after), m, text), limit);
    if page == [] || fuel == 0 then page
    else page + Pages(ids, m, text, page[|page| - 1], limit, fuel - 1)
  }

  /** The page after a page starts where it ended. */
  lemma NextPage(ids: seq<Id>, m: Revisions, text: Revisions, after: Id, limit: nat)
    requires Sorted(ids) && limit > 0 && Pending(After(ids, after), m, text) != []
    ensures
      var all := Pending(After(ids, after), m, text);
      var page := Take(all, limit);
      page != [] && all == page + Pending(After(ids, page[|page| - 1]), m, text)
  {
    hide Pending, After, Less, Sorted;
    var all := Pending(After(ids, after), m, text);
    var page := Take(all, limit);
    var last := page[|page| - 1];
    assert all[|page| - 1] == last && last in all;
    var start := Start(ids, after);
    PendingMembers(ids[start..], m, text);
    assert last in ids[start..];
    var x :| 0 <= x < |ids[start..]| && ids[start..][x] == last;
    var k := start + x;
    var a := ids[start..k + 1];
    assert ids[start..] == a + ids[k + 1..] && a == ids[start..k] + [last];
    PendingConcat(a, ids[k + 1..], m, text);
    PendingConcat(ids[start..k], [last], m, text);
    PendingOne(last, m, text);
    SortedPart(ids, start);
    SplitAt(all, Pending(a, m, text), Pending(ids[k + 1..], m, text), |page| - 1);
    AfterMember(ids, k);
  }

  lemma SortedPart(ids: seq<Id>, start: nat)
    requires Sorted(ids) && start <= |ids|
    ensures Sorted(ids[start..])
  {
  }

  lemma PendingOne(id: Id, m: Revisions, text: Revisions)
    ensures Pending([id], m, text) == if RevisionOf(m, id) != RevisionOf(text, id) then [id] else []
  {
    assert Pending([], m, text) == [];
    assert [id][..0] == [];
  }

  /** Where a sorted sequence has the last element of its first part. */
  lemma SplitAt(all: seq<Id>, a: seq<Id>, b: seq<Id>, i: nat)
    requires Sorted(all) && all == a + b && a != [] && i < |all| && all[i] == a[|a| - 1]
    ensures i == |a| - 1 && all[..i + 1] == a && all[i + 1..] == b
  {
    Irreflexive(all[i]);
    assert all[|a| - 1] == all[i];
  }

  lemma AfterMember(ids: seq<Id>, k: nat)
    requires Sorted(ids) && k < |ids|
    ensures After(ids, ids[k]) == ids[k + 1..]
  {
    forall i | 0 <= i <= k ensures !Less(ids[k], ids[i]) {
      if i == k { Irreflexive(ids[k]); } else { Asymmetric(ids[i], ids[k]); }
    }
    AfterIsSuffix(ids, ids[k], k + 1);
  }

  lemma {:induction false} Start(ids: seq<Id>, after: Id) returns (start: nat)
    requires Sorted(ids)
    ensures start <= |ids| && After(ids, after) == ids[start..]
  {
    if ids == [] || !Less(after, ids[|ids| - 1]) {
      start := |ids|;
    } else {
      start := Start(ids[..|ids| - 1], after);
      assert ids[start..] == ids[..|ids| - 1][start..] + [ids[|ids| - 1]];
    }
  }

  /** Reading page after page gives every pending embedding once, in order. */
  lemma {:induction false} PagesAreAll(ids: seq<Id>, m: Revisions, text: Revisions, after: Id, limit: nat, fuel: nat)
    requires Sorted(ids) && limit > 0 && fuel >= |Pending(After(ids, after), m, text)|
    ensures Pages(ids, m, text, after, limit, fuel) == Pending(After(ids, after), m, text)
    decreases fuel
  {
    hide Pending, After, Sorted;
    var all := Pending(After(ids, after), m, text);
    if all != [] {
      NextPage(ids, m, text, after, limit);
      var page := Take(all, limit);
      PagesAreAll(ids, m, text, page[|page| - 1], limit, fuel - 1);
    }
  }

  // ---------------------------------------------------------------- status

  datatype Status = Status(documents: nat, valid: nat, pending: int, stale: nat)

  ghost function CurrentIds(m: Revisions, text: Revisions): set<Id> {
    set id | id in m && RevisionOf(text, id) == m[id]
  }

  /** Counts the stored vectors that are current and those that are not. */
  method VectorStatus(m: Revisions, text: Revisions) returns (s: Status)
    ensures s.documents == |text| && s.valid == |CurrentIds(m, text)|
    ensures s.valid + s.stale == |m| && s.pending == |text| - s.valid
  {
    hide RevisionOf, CurrentIds, Counted;
    var valid, stale, todo := 0, 0, m.Keys;
    NoneCounted(m, text);
    while todo != {}
      invariant todo <= m.Keys && Counted(m, text, todo, valid, stale)
      decreases todo
    {
      var id :| id in todo;
      OneCounted(m, text, todo, id, valid, stale);
      if RevisionOf(text, id) == m[id] {
        valid := valid + 1;
      } else {
        stale := stale + 1;
      }
      todo := todo - {id};
    }
    AllCounted(m, text, valid, stale);
    s := Status(|text|, valid, |text| - valid, stale);
  }

  /** The counts over the ids that are not still to do. */
  ghost predicate Counted(m: Revisions, text: Revisions, todo: set<Id>, valid: nat, stale: nat) {
    valid == |CurrentIds(m, text) - todo| && valid + stale == |m.Keys - todo|
  }

  lemma NoneCounted(m: Revisions, text: Revisions)
    ensures Counted(m, text, m.Keys, 0, 0)
  {
    hide CurrentIds;
    CurrentAreStored(m, text);
    assert CurrentIds(m, text) - m.Keys == {} && m.Keys - m.Keys == {};
  }

  lemma OneCounted(m: Revisions, text: Revisions, todo: set<Id>, id: Id, valid: nat, stale: nat)
    requires todo <= m.Keys && id in todo && Counted(m, text, todo, valid, stale)
    ensures RevisionOf(text, id) == m[id] ==> Counted(m, text, todo - {id}, valid + 1, stale)
    ensures RevisionOf(text, id) != m[id] ==> Counted(m, text, todo - {id}, valid, stale + 1)
  {
    hide CurrentIds, RevisionOf;
    OneLess(m.Keys, todo, id);
    OneLess(CurrentIds(m, text), todo, id);
    CurrentMember(m, text, id);
  }

  lemma AllCounted(m: Revisions, text: Revisions, valid: nat, stale: nat)
    requires Counted(m, text, {}, valid, stale)
    ensures valid == |CurrentIds(m, text)| && valid + stale == |m|
  {
    hide CurrentIds;
    assert m.Keys - {} == m.Keys && |m.Keys| == |m|;
    assert CurrentIds(m, text) - {} == CurrentIds(m, text);
  }

  lemma CurrentAreStored(m: Revisions, text: Revisions)
    ensures CurrentIds(m, text) <= m.Keys
  {
  }

  lemma CurrentMember(m: Revisions, text: Revisions, id: Id)
    requires id in m
    ensures id in CurrentIds(m, text) <==> RevisionOf(text, id) == m[id]
  {
  }

  lemma OneLess(all: set<Id>, todo: set<Id>, id: Id)
    requires id in todo
    ensures |all - (todo - {id})| == |all - todo| + if id in all then 1 else 0
  {
    if id in all {
      assert all - (todo - {id}) == (all - todo) + {id};
    } else {
      assert all - (todo - {id}) == all - todo;
    }
  }

  lemma {:induction false} SortedSize(ids: seq<Id>, members: set<Id>)
    requires Sorted(ids) && forall id :: id in members <==> id in ids
    ensures |ids| == |members|
  {
    if ids == [] {
      assert members == {};
    } else {
      var init, last := ids[..|ids| - 1], ids[|ids| - 1];
      assert ids == init + [last];
      forall i | 0 <= i < |init| ensures init[i] != last { Irreflexive(last); assert Less(ids[i], last); }
      SortedSize(init, members - {last});
    }
  }

  /** The pending count of the status is the number of embeddings the pages list. */
  lemma PendingIsCounted(ids: seq<Id>, m: Revisions, text: Revisions)
    requires TextOk(text, ids) && forall id :: id in m ==> m[id] != ""
    ensures |Pending(ids, m, text)| == |text| - |CurrentIds(m, text)|
  {
    hide Pending, Less, Sorted;
    PendingMembers(ids, m, text);
    var rest := text.Keys - CurrentIds(m, text);
    forall id | id in CurrentIds(m, text) ensures id in text { assert m[id] != ""; }
    assert CurrentIds(m, text) <= text.Keys;
    SortedSize(Pending(ids, m, text), rest);
    SizeApart(text.Keys, CurrentIds(m, text));
  }

  lemma SizeApart(all: set<Id>, part: set<Id>)
    requires part <= all
    ensures |all - part| == |all| - |part|
  {
    assert all == (all - part) + part;
  }
}
